// The code caches together (src/dynarec_run.c:872-926, src/dynarec_cache.c:75-152,
// src/dynarec_compile.c:1100-1130): page table, micro-cache, jump table and direct links,
// under compiling, invalidating and flushing.  What every operation keeps: nothing any of
// them leads to is anything but a block compiled, since the last flush, for the place asked
// for.

module BlockCache {
  import opened JumpTable
  import opened PageTable
  import opened DirectLinks

  const MICRO := 4

  /** Words that must be free when a block is begun; no block is longer. */
  const RESERVE := 16384

  /** Which place each block compiled since the last flush is for. */
  type Compiled = map<nat, nat>

  predicate IsFor(compiled: Compiled, native: nat, place: nat) {
    native in compiled && compiled[native] == place
  }

  /** Every block in the pool was compiled for the place it stands for, or is invalidated. */
  ghost predicate BlocksKnown(pool: seq<Entry>, used: nat, compiled: Compiled) {
    used <= |pool| && forall e :: 0 <= e < used && pool[e].native != 0 ==> IsFor(compiled, pool[e].native, Place(pool[e].psxPc))
  }

  /** A micro-cache entry names the very block the page table has for its address. */
  ghost predicate MicroAgrees(pcs: seq<Pc>, bes: seq<int>, blocks: map<nat, nat>) {
    && |pcs| == |bes| == MICRO
    && forall i :: 0 <= i < MICRO && pcs[i] != NONE ==> Place(pcs[i]) in blocks && blocks[Place(pcs[i])] == bes[i]
  }

  /** The jump table was only ever given blocks for the address in question. */
  ghost predicate TableKnown(last: map<Pc, nat>, compiled: Compiled) {
    forall pc :: pc in last ==> last[pc] >= PROLOGUE && IsFor(compiled, last[pc] - PROLOGUE, Place(pc))
  }

  /** A link goes out, or to a block for its target. */
  ghost predicate LinksKnown(emitted: map<nat, Pc>, linked: map<nat, nat>, compiled: Compiled) {
    && emitted.Keys == linked.Keys
    && forall s :: s in linked && linked[s] != 0 ==> IsFor(compiled, linked[s], Place(emitted[s]))
  }

  /** Blocks lie below the emission pointer, prologue and all. */
  ghost predicate Below(compiled: Compiled, codePtr: nat) {
    codePtr <= CODE && forall n :: n in compiled ==> START <= n && n + PROLOGUE < codePtr
  }

  /** A new block changes nothing about the old ones. */
  lemma Grows(pool: seq<Entry>, used: nat, last: map<Pc, nat>, emitted: map<nat, Pc>, linked: map<nat, nat>,
              compiled: Compiled, n: nat, place: nat)
    requires n !in compiled
    requires BlocksKnown(pool, used, compiled) && TableKnown(last, compiled) && LinksKnown(emitted, linked, compiled)
    ensures BlocksKnown(pool, used, compiled[n := place]) && TableKnown(last, compiled[n := place])
    ensures LinksKnown(emitted, linked, compiled[n := place])
  {
  }

  lemma NothingKnown(pool: seq<Entry>)
    ensures BlocksKnown(pool, 0, map[]) && TableKnown(map[], map[]) && LinksKnown(map[], map[], map[]) && Below(map[], START)
  {
  }

  lemma NothingAgreed(pcs: seq<Pc>, bes: seq<int>, blocks: map<nat, nat>)
    requires |pcs| == |bes| == MICRO && forall i :: 0 <= i < MICRO ==> pcs[i] == NONE
    ensures MicroAgrees(pcs, bes, blocks)
  {
  }

  /** A block's entry takes its place in the pool, as a new one or over its old self. */
  lemma Entered(pool: seq<Entry>, used: nat, compiled: Compiled, e: nat, after: nat, pc: Pc, block: nat)
    requires BlocksKnown(pool, used, compiled) && IsFor(compiled, block, Place(pc))
    requires e < |pool| && (after == used || (e == used && after == used + 1)) && after <= |pool|
    ensures BlocksKnown(pool[e := Entry(pc, block)], after, compiled)
  {
    hide Place;
  }

  /** Entering a block leaves the micro-cache right: it had the block already or knew nothing of it. */
  lemma StillAgrees(pcs: seq<Pc>, bes: seq<int>, blocks: map<nat, nat>, place: nat, e: nat)
    requires MicroAgrees(pcs, bes, blocks) && (place in blocks ==> blocks[place] == e)
    ensures MicroAgrees(pcs, bes, blocks[place := e])
  {
    hide Place;
  }

  lemma FreshBlock(compiled: Compiled, codePtr: nat, place: nat, later: nat)
    requires Below(compiled, codePtr) && START <= codePtr && codePtr + PROLOGUE < later <= CODE
    ensures IsFor(compiled[codePtr := place], codePtr, place)
    ensures codePtr !in compiled && Below(compiled[codePtr := place], later)
  {
  }

  /** Patching links whose targets are the block's own address. */
  lemma Patched(emitted: map<nat, Pc>, linked: map<nat, nat>, after: map<nat, nat>, pending: seq<Site>,
                compiled: Compiled, pc: Pc, block: nat)
    requires LinksKnown(emitted, linked, compiled) && IsFor(compiled, block, Place(pc))
    requires Redirected(linked, after, pending, pc, block)
    requires forall p :: p in pending ==> p.word in emitted && emitted[p.word] == p.target
    ensures LinksKnown(emitted, after, compiled)
  {
    hide Place;
    forall s | s in after && after[s] != 0 ensures IsFor(compiled, after[s], Place(emitted[s])) {
      if Waits(pending, pc, s) {
        assert Site(s, pc) in pending;
      }
    }
  }

  lemma BelowBound(compiled: Compiled, codePtr: nat, n: nat)
    requires Below(compiled, codePtr)
    ensures codePtr <= CODE && forall k :: codePtr <= k <= CODE ==> Below(compiled, k)
    ensures n in compiled ==> START <= n && n + PROLOGUE < codePtr
  {
  }

  lemma Emptied(pool: seq<Entry>, used: nat, compiled: Compiled, e: nat)
    requires BlocksKnown(pool, used, compiled) && e < used
    ensures BlocksKnown(pool[e := pool[e].(native := 0)], used, compiled)
  {
  }

  lemma Forgotten(last: map<Pc, nat>, compiled: Compiled, pc: Pc)
    requires TableKnown(last, compiled)
    ensures TableKnown(last - {pc}, compiled)
  {
  }

  lemma Remembered(last: map<Pc, nat>, compiled: Compiled, pc: Pc, native: nat)
    requires TableKnown(last, compiled) && IsFor(compiled, native, Place(pc))
    ensures TableKnown(last[pc := native + PROLOGUE], compiled)
  {
    hide Place;
  }

  lemma Extended(emitted: map<nat, Pc>, linked: map<nat, nat>, compiled: Compiled, s: nat, target: Pc, native: nat)
    requires LinksKnown(emitted, linked, compiled) && (native == 0 || IsFor(compiled, native, Place(target)))
    ensures LinksKnown(emitted[s := target], linked[s := native], compiled)
  {
    hide Place;
  }

  datatype Piece = Code(words: seq<Word>) | Link(target: Pc, stale: bool)

  /** What compiling an address emits after the prologue, as far as the caches are concerned:
    * code, and links whose targets may be found stale. */
  type Plan = seq<Piece>

  function Size(plan: Plan): nat {
    if plan == [] then 0
    else (match plan[0] case Code(words) => |words| case Link(_, _) => 2) + Size(plan[1..])
  }

  class Caches {
    const table: Table
    const pages: Pages
    const links: Links
    const microPc: array<Pc>
    const microBe: array<int>
    ghost var compiled: Compiled

    ghost predicate Apart()
      reads this
    {
      && microPc.Length == MICRO && microBe.Length == MICRO
    }

    ghost predicate Sound()
      reads this, table, table.rows, pages, pages.l1, pages.pool, links, links.code, links.sites
    {
      Apart() && table.Valid() && pages.Valid() && links.Valid()
    }

    ghost predicate Known()
      reads this, table, pages, pages.pool, links
    {
      && BlocksKnown(pages.pool[..], pages.used, compiled)
      && TableKnown(table.last, compiled)
      && LinksKnown(links.emitted, links.linked, compiled)
      && Below(compiled, links.codePtr)
    }

    ghost predicate Agrees()
      reads pages, microPc, microBe
    {
      MicroAgrees(microPc[..], microBe[..], pages.blocks)
    }

    ghost predicate Valid()
      reads this, table, table.rows, pages, pages.l1, pages.pool, links, links.code, links.sites, microPc, microBe
    {
      Sound() && Known() && Agrees()
    }

    constructor (base: nat)
      requires OneRegion(base)
      ensures Valid() && compiled == map[]
    {
      table := new Table();
      pages := new Pages();
      links := new Links(base);
      microPc := new Pc[MICRO](i => NONE);
      microBe := new int[MICRO](i => -1);
      compiled := map[];
      new;
      assert Apart() && forall i :: 0 <= i < MICRO ==> microPc[i] == NONE;
      hide *;
      SoundNew();
      AllNew();
    }

    lemma SoundNew()
      requires Apart() && table.Valid() && pages.Valid() && links.Valid()
      ensures Sound()
    {
    }

    lemma AllNew()
      requires Sound() && table.last == map[] && pages.used == 0 && compiled == map[]
      requires links.emitted == map[] && links.linked == map[] && links.codePtr == START
      requires forall i :: 0 <= i < MICRO ==> microPc[i] == NONE
      ensures Valid()
    {
      hide Place, Find, Hash, Table.Valid, Pages.Valid, Links.Valid;
      hide BlocksKnown, TableKnown, LinksKnown, Below, MicroAgrees;
      NothingKnown(pages.pool[..]);
      NothingAgreed(microPc[..], microBe[..], pages.blocks);
    }

    /** `micro_cache_flush`: the stale blocks stay, under an address nothing has. */
    method FlushMicro()
      requires Apart()
      modifies microPc
      ensures Agrees()
    {
      for i := 0 to MICRO
        invariant forall k :: 0 <= k < i ==> microPc[k] == NONE
      {
        microPc[i] := NONE;
      }
    }

    /** The jump table and micro-cache are emptied when code appears on a new page. */
    method FlushTable()
      requires Valid()
      modifies table, table.rows, microPc
      ensures Valid() && table.last == map[]
    {
      hide BlocksKnown, LinksKnown, Below, MicroAgrees;
      table.Clear();
      FlushMicro();
    }

    method FreePages()
      requires pages.Valid()
      modifies pages, pages.l1, pages.pool
      ensures pages.Valid() && pages.blocks == map[] && pages.used == 0
    {
      pages.Free();
    }

    /** The reset of everything when the code buffer is nearly full. */
    method FlushAll()
      requires Valid()
      modifies this, table, table.rows, pages, pages.l1, pages.pool, links, links.code, links.sites, microPc
      ensures Valid() && compiled == map[] && links.codePtr == START
    {
      hide Place, Find, Hash, Table.Valid, Pages.Valid, Links.Valid;
      hide BlocksKnown, TableKnown, LinksKnown, Below, MicroAgrees;
      links.Reset();
      FreePages();
      table.Clear();
      FlushMicro();
      compiled := map[];
      NothingKnown(pages.pool[..]);
    }

    /** A block found stale before it is run: it loses its code, and its address its entry. */
    method Invalidate(pc: Pc, e: int)
      requires Valid() && pc != NONE && 0 <= e < pages.used
      modifies table, table.rows, pages.pool
      ensures Valid() && table.Probe(pc) == None && pages.pool[e].native == 0
      ensures forall q: Pc :: pages.Lookup(q) == old(pages.Lookup(q))
    {
      hide BlocksKnown, TableKnown, LinksKnown, Below, MicroAgrees, Hash, Find, Place;
      hide Table.Valid, Links.Valid;
      Emptied(pages.pool[..], pages.used, compiled, e);
      Forgotten(table.last, compiled, pc);
      pages.Invalidate(e);
      table.Remove(pc);
    }

    /** The code a link may go to now, 0 for none; a stale block is invalidated on the way. */
    method Usable(target: Pc, stale: bool) returns (native: nat)
      requires Valid()
      modifies pages.pool
      ensures Valid() && (native == 0 || (IsFor(compiled, native, Place(target)) && native + PROLOGUE < links.codePtr))
    {
      hide TableKnown, LinksKnown, MicroAgrees, Below, Place;
      hide Table.Valid, Links.Valid;
      var e := pages.Lookup(target);
      native := 0;
      if e >= 0 && pages.pool[e].native != 0 {
        if stale {
          Emptied(pages.pool[..], pages.used, compiled, e);
          pages.Invalidate(e);
        } else {
          native := pages.pool[e].native;
          BelowBound(compiled, links.codePtr, native);
        }
      }
    }

    /** `emit_direct_link`. */
    method EmitLink(target: Pc, stale: bool)
      requires Valid() && links.codePtr + 2 <= CODE
      modifies pages.pool, links, links.code, links.sites
      ensures Valid() && links.codePtr == old(links.codePtr) + 2
      ensures old(links.codePtr) in links.emitted && links.emitted[old(links.codePtr)] == target
    {
      hide BlocksKnown, TableKnown, LinksKnown, MicroAgrees, Place;
      hide Table.Valid, Pages.Valid, Links.Valid, IsFor;
      var native := Usable(target, stale);
      Extended(links.emitted, links.linked, compiled, links.codePtr, target, native);
      BelowBound(compiled, links.codePtr, 0);
      links.EmitLink(target, native);
    }

    /** One word of a block. */
    method EmitWord(w: Word)
      requires Valid() && links.codePtr < CODE
      modifies links`codePtr, links.code
      ensures Valid() && links.codePtr == old(links.codePtr) + 1
    {
      hide BlocksKnown, TableKnown, LinksKnown, MicroAgrees, Below, Place;
      hide Table.Valid, Pages.Valid, Links.Valid;
      BelowBound(compiled, links.codePtr, 0);
      links.Emit(w);
    }

    method EmitWords(words: seq<Word>)
      requires Valid() && links.codePtr + |words| <= CODE
      modifies links`codePtr, links.code
      ensures Valid() && links.codePtr == old(links.codePtr) + |words|
    {
      hide *;
      for i := 0 to |words|
        invariant Valid() && links.codePtr == old(links.codePtr) + i
      {
        EmitWord(words[i]);
      }
    }

    /** All a block emits after its prologue. */
    method EmitPlan(plan: Plan)
      requires Valid() && links.codePtr + Size(plan) <= CODE
      modifies pages.pool, links, links.code, links.sites
      ensures Valid() && links.codePtr == old(links.codePtr) + Size(plan)
    {
      hide Valid;
      for i := 0 to |plan|
        invariant Valid() && links.codePtr + Size(plan[i..]) == old(links.codePtr) + Size(plan)
      {
        assert plan[i..][0] == plan[i] && plan[i..][1..] == plan[i + 1..];
        match plan[i]
        case Code(words) => EmitWords(words);
        case Link(target, stale) => EmitLink(target, stale);
      }
    }

    /** The check at the start of a compilation. */
    method MakeRoom()
      requires Valid()
      modifies this, table, table.rows, pages, pages.l1, pages.pool, links, links.code, links.sites, microPc
      ensures Valid() && START <= links.codePtr <= CODE - RESERVE
    {
      hide BlocksKnown, TableKnown, LinksKnown, Below, MicroAgrees, Place, Table.Valid, Pages.Valid;
      if links.codePtr > CODE - RESERVE {
        FlushAll();
      }
    }

    method EnterPages(pc: Pc, block: nat, allocates: bool) returns (e: int)
      requires pages.Valid()
      modifies pages, pages.l1, pages.pool
      ensures pages.Valid() && -1 <= e < pages.used <= pages.pool.Length && e == pages.Lookup(pc)
      ensures e < 0 ==> pages.blocks == old(pages.blocks) && pages.pool[..] == old(pages.pool[..]) && pages.used == old(pages.used)
      ensures e >= 0 ==>
        && pages.blocks == old(pages.blocks)[Place(pc) := e] && pages.pool[..] == old(pages.pool[..])[e := Entry(pc, block)]
        && (Place(pc) in old(pages.blocks) ==> old(pages.blocks)[Place(pc)] == e)
        && (pages.used == old(pages.used) || (e == old(pages.used) && pages.used == old(pages.used) + 1))
    {
      hide Place, PageOf, WordOf;
      assert pages.Lookup(pc) == if Place(pc) in pages.blocks then pages.blocks[Place(pc)] else -1;
      e := pages.CacheBlock(pc, block, allocates);
      assert pages.Lookup(pc) == if Place(pc) in pages.blocks then pages.blocks[Place(pc)] else -1;
    }

    /** `cache_block` for a block just emitted. */
    method Enter(pc: Pc, block: nat, allocates: bool)
      requires Valid() && block !in compiled && Below(compiled[block := Place(pc)], links.codePtr)
      requires IsFor(compiled[block := Place(pc)], block, Place(pc))
      modifies `compiled, pages, pages.l1, pages.pool
      ensures Valid() && compiled == old(compiled)[block := Place(pc)]
      ensures pages.Lookup(pc) >= 0 ==> pages.pool[pages.Lookup(pc)] == Entry(pc, block)
    {
      hide BlocksKnown, TableKnown, LinksKnown, Below, MicroAgrees, Place, IsFor, Table.Valid, Pages.Valid, Links.Valid;
      Grows(pages.pool[..], pages.used, table.last, links.emitted, links.linked, compiled, block, Place(pc));
      compiled := compiled[block := Place(pc)];
      ghost var pool, used, blocks := pages.pool[..], pages.used, pages.blocks;
      var e := EnterPages(pc, block, allocates);
      if e >= 0 {
        Entered(pool, used, compiled, e, pages.used, pc, block);
        StillAgrees(microPc[..], microBe[..], blocks, Place(pc), e);
      }
    }

    lemma BlocksBelow()
      requires Valid()
      ensures Below(compiled, links.codePtr)
    {
    }

    /** `compile_block`, up to where it enters the block in the page table: 0 where there is no
      * code to fetch, and a full flush first if the buffer is short of room. */
    method Compile(pc: Pc, fetchable: bool, prologue: seq<Word>, plan: Plan, allocates: bool) returns (block: nat)
      requires Valid() && |prologue| == PROLOGUE && 0 < Size(plan) < RESERVE - PROLOGUE
      modifies this, table, table.rows, pages, pages.l1, pages.pool, links, links.code, links.sites, microPc
      ensures Valid() && (block == 0 <==> !fetchable)
      ensures block != 0 ==>
        && IsFor(compiled, block, Place(pc)) && block + PROLOGUE < links.codePtr
        && (pages.Lookup(pc) >= 0 ==> pages.pool[pages.Lookup(pc)] == Entry(pc, block))
      ensures block == 0 ==> compiled == old(compiled)
    {
      hide Valid, Below, Place, Size, IsFor;
      if !fetchable {
        return 0;
      }
      MakeRoom();
      block := links.codePtr;
      BlocksBelow();
      EmitWords(prologue);
      EmitPlan(plan);
      FreshBlock(compiled, block, Place(pc), links.codePtr);
      Enter(pc, block, allocates);
    }

    /** Redirect the links that wait for a new block. */
    method Patch(pc: Pc, block: nat)
      requires Valid() && IsFor(compiled, block, Place(pc)) && 0 < block && block + PROLOGUE < links.codePtr
      modifies links`count, links`linked, links.code, links.sites
      ensures Valid() && forall p :: p in links.Pending() ==> p.target != pc
    {
      ghost var pending, linked := links.Pending(), links.linked;
      hide BlocksKnown, TableKnown, LinksKnown, Below, MicroAgrees, Place, IsFor, Table.Valid, Pages.Valid;
      links.ApplyPending(pc, block);
      Patched(links.emitted, linked, links.linked, pending, compiled, pc, block);
      KeptIsTheRest(pending, pc);
    }

    method Remember(pc: Pc, block: nat)
      requires Valid() && pc != NONE && IsFor(compiled, block, Place(pc))
      modifies table, table.rows
      ensures Valid() && table.Probe(pc) == Some(block + PROLOGUE)
    {
      hide BlocksKnown, TableKnown, LinksKnown, Below, MicroAgrees, Place, IsFor, Hash, Pages.Valid, Links.Valid;
      Remembered(table.last, compiled, pc, block);
      table.Add(pc, block + PROLOGUE);
    }

    /** A block found: the jump table is told unless it has the address in front already. */
    method Promote(pc: Pc, block: nat)
      requires Valid() && pc != NONE && IsFor(compiled, block, Place(pc))
      modifies table, table.rows
      ensures Valid() && table.Probe(pc).Some?
    {
      hide BlocksKnown, TableKnown, LinksKnown, Below, MicroAgrees, Place, IsFor, Hash, Pages.Valid, Links.Valid;
      if table.rows[Hash(pc)].pc0 != pc {
        Remember(pc, block);
      }
    }

    /** The micro-cache takes a block over from the page table. */
    method Keep(slot: nat, pc: Pc, e: int)
      requires Valid() && slot < MICRO && e >= 0 && e == pages.Lookup(pc)
      modifies microPc, microBe
      ensures Valid()
    {
      assert Place(pc) in pages.blocks && pages.blocks[Place(pc)] == e;
      hide BlocksKnown, TableKnown, LinksKnown, Below, Place, Table.Valid, Pages.Valid, Links.Valid;
      microPc[slot] := pc;
      microBe[slot] := e;
    }

    /** What a micro-cache hit gives is what the page table has. */
    lemma HitIsLookup(slot: nat)
      requires Valid() && slot < MICRO && microPc[slot] != NONE
      ensures microBe[slot] == pages.Lookup(microPc[slot]) && 0 <= microBe[slot] < pages.used
    {
      hide BlocksKnown, TableKnown, LinksKnown, Below, Place, Table.Valid, Links.Valid;
    }

    /** What the page table has was compiled for the place. */
    lemma LookupIsKnown(pc: Pc)
      requires Valid() && pages.Lookup(pc) >= 0 && pages.pool[pages.Lookup(pc)].native != 0
      ensures IsFor(compiled, pages.pool[pages.Lookup(pc)].native, Place(pc))
    {
      hide TableKnown, LinksKnown, Below, Place, MicroAgrees, Table.Valid, Links.Valid;
    }

    /** Whether the page table has code for an address. */
    ghost predicate Cached(pc: Pc)
      requires pages.Shaped()
      reads pages, pages.l1, pages.pool
    {
      pages.Lookup(pc) >= 0 && pages.pool[pages.Lookup(pc)].native != 0
    }

    /** The first try: the micro-cache; 0 when it does not have the address, or has it without code. */
    method FromMicro(pc: Pc) returns (block: nat, e: int)
      requires Valid() && pc != NONE
      modifies table, table.rows
      ensures Valid() && (block != 0 ==> Cached(pc) && e == pages.Lookup(pc) && block == pages.pool[e].native)
      ensures block != 0 ==> IsFor(compiled, block, Place(pc)) && table.Probe(pc).Some?
    {
      hide Known, Place, IsFor, Hash, Find, MicroAgrees;
      block, e := 0, -1;
      var slot := pc / 4 % MICRO;
      if microPc[slot] == pc {
        HitIsLookup(slot);
        if pages.pool[microBe[slot]].native != 0 {
          e := microBe[slot];
          block := pages.pool[e].native;
          LookupIsKnown(pc);
          Promote(pc, block);
        }
      }
    }

    /** The second try: the page table. */
    method FromPages(pc: Pc) returns (block: nat, e: int)
      requires Valid() && pc != NONE
      modifies table, table.rows
      ensures Valid() && e == pages.Lookup(pc) && block == if e >= 0 then pages.pool[e].native else 0
      ensures block != 0 ==> IsFor(compiled, block, Place(pc)) && table.Probe(pc).Some?
    {
      hide Known, Place, IsFor, Hash, Find, MicroAgrees;
      e := pages.Lookup(pc);
      block := if e >= 0 then pages.pool[e].native else 0;
      if block != 0 {
        LookupIsKnown(pc);
        Promote(pc, block);
      }
    }

    /** The last resort: compile, let the links that wait go to the block, and enter it in the
      * jump table. */
    method Build(pc: Pc, fetchable: bool, prologue: seq<Word>, plan: Plan, allocates: bool) returns (block: nat)
      requires Valid() && pc != NONE && |prologue| == PROLOGUE && 0 < Size(plan) < RESERVE - PROLOGUE
      modifies this, table, table.rows, pages, pages.l1, pages.pool, links, links.code, links.sites, microPc
      ensures Valid() && (block == 0 <==> !fetchable)
      ensures block != 0 ==>
        && IsFor(compiled, block, Place(pc)) && table.Probe(pc) == Some(block + PROLOGUE)
        && (pages.Lookup(pc) >= 0 ==> pages.pool[pages.Lookup(pc)].native == block)
        && forall p :: p in links.Pending() ==> p.target != pc
    {
      hide Known, Place, IsFor, Hash, Find, MicroAgrees, Size, Agrees;
      block := Compile(pc, fetchable, prologue, plan, allocates);
      if block != 0 {
        Patch(pc, block);
        Remember(pc, block);
      }
    }

    /** `dynarec_ensure_block`: an address that has code gets that code, and any other one is
      * compiled, after which no link waits for it any more. */
    method EnsureBlock(pc: Pc, fetchable: bool, prologue: seq<Word>, plan: Plan, allocates: bool)
      returns (block: nat, be: int)
      requires Valid() && pc % 4 == 0 && |prologue| == PROLOGUE && 0 < Size(plan) < RESERVE - PROLOGUE
      modifies this, table, table.rows, pages, pages.l1, pages.pool, links, links.code, links.sites, microPc, microBe
      ensures Valid()
      ensures old(Cached(pc)) ==> block == old(pages.pool[pages.Lookup(pc)].native) && compiled == old(compiled)
      ensures !old(Cached(pc)) ==> (block == 0 <==> !fetchable)
      ensures block != 0 ==> IsFor(compiled, block, Place(pc)) && table.Probe(pc).Some?
      ensures block != 0 && be >= 0 ==> be == pages.Lookup(pc) && pages.pool[be].native == block
      ensures block != 0 && !old(Cached(pc)) ==>
                table.Probe(pc) == Some(block + PROLOGUE) && forall p :: p in links.Pending() ==> p.target != pc
    {
      hide Known, Place, IsFor, Hash, Find, MicroAgrees, Size, Agrees, Table.Valid, Links.Valid;
      block, be := FromMicro(pc);
      if block != 0 {
        return;
      }
      block, be := FromPages(pc);
      if block == 0 {
        block := Build(pc, fetchable, prologue, plan, allocates);
        if block != 0 {
          be := pages.Lookup(pc);
        }
      }
      if block != 0 && be >= 0 {
        Keep(pc / 4 % MICRO, pc, be);
      }
    }

    /** Whatever the dispatch code finds in the jump table is the entry, past the prologue, of
      * a block compiled since the last flush for the place jumped to. */
    lemma JumpIsRight(pc: Pc)
      requires Valid() && pc != NONE && table.Probe(pc).Some?
      ensures table.Probe(pc).value >= PROLOGUE
      ensures IsFor(compiled, table.Probe(pc).value - PROLOGUE, Place(pc))
    {
      hide BlocksKnown, LinksKnown, Below, Place, MicroAgrees, Hash, Pages.Valid, Links.Valid;
    }

    /** Every link word ever emitted since the last flush lands on the exit trampoline or at
      * the entry, past the prologue, of a block for the link's own target. */
    lemma LinkIsRight(s: nat)
      requires Valid() && s in links.emitted
      ensures var at := Landing(links.base, s, links.code[s]);
              at == EXIT || (at >= PROLOGUE && IsFor(compiled, at - PROLOGUE, Place(links.emitted[s])))
    {
      hide BlocksKnown, TableKnown, Place, MicroAgrees, Table.Valid, Pages.Valid, Jump, Landing;
      JumpLands(links.base, s, Dest(links.linked[s]));
    }
  }
}
