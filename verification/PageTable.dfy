// The two-level page table of compiled blocks (src/dynarec.h:657-690,
// src/dynarec_cache.c:187-265), as fast form of a simple map from code words to blocks.

module PageTable {
  import opened JumpTable

  /** 512 pages of RAM, then 128 of BIOS; the source keeps them in two tables of one layout. */
  const RAM_PAGES := 512
  const PAGES := 640
  const WORDS := 1024

  const RAM_SIZE := 0x20_0000
  const BIOS := 0x1FC0_0000
  const BIOS_SIZE := 0x8_0000

  const POOL := 32768

  /** Which word of code an address means, whatever segment it is seen through. */
  function Place(pc: Pc): nat {
    pc % 0x2000_0000 / 4
  }

  /** The word's page, or none where nothing is cached. */
  function PageOf(pc: Pc): (page: int)
    ensures -1 <= page < PAGES
  {
    var phys := pc % 0x2000_0000;
    if phys < RAM_SIZE then phys / 0x1000
    else if BIOS <= phys < BIOS + BIOS_SIZE then RAM_PAGES + (phys - BIOS) / 0x1000
    else -1
  }

  function WordOf(pc: Pc): (word: nat)
    ensures word < WORDS
  {
    pc % 0x2000_0000 / 4 % WORDS
  }

  /** Two addresses meet in the table exactly when they mean the same word. */
  lemma SamePlace(p: Pc, q: Pc)
    requires PageOf(p) >= 0 && PageOf(q) >= 0
    ensures PageOf(p) == PageOf(q) && WordOf(p) == WordOf(q) <==> Place(p) == Place(q)
  {
    var a, b := p % 0x2000_0000, q % 0x2000_0000;
    SplitsPage(a);
    SplitsPage(b);
  }

  lemma SplitsPage(a: nat)
    ensures a / 4 == a / 0x1000 * WORDS + a / 4 % WORDS
    ensures a >= BIOS ==> (a - BIOS) / 0x1000 == a / 0x1000 - BIOS / 0x1000
  {
  }

  lemma PlaceHasPage(p: Pc, q: Pc)
    requires Place(p) == Place(q)
    ensures PageOf(p) == PageOf(q) && WordOf(p) == WordOf(q)
  {
    var a, b := p % 0x2000_0000, q % 0x2000_0000;
    SplitsPage(a);
    SplitsPage(b);
  }

  /** A block: the address it was compiled for, and its code, 0 when invalidated. */
  datatype Entry = Entry(psxPc: Pc, native: nat)

  /** A second-level page: the pool index of each word's block or -1; empty when not allocated. */
  type Page = p: seq<int> | |p| == 0 || |p| == WORDS witness []

  class Pages {
    const l1: array<Page>
    const pool: array<Entry>
    var used: nat

    /** The simple map: words to pool indices. */
    ghost var blocks: map<nat, nat>

    ghost predicate Shaped()
      reads this, l1
    {
      && l1.Length == PAGES && pool.Length == POOL && used <= POOL
      && (forall i, j :: 0 <= i < PAGES && 0 <= j < |l1[i]| ==> -1 <= l1[i][j] < used)
    }

    /** `lookup_block`. */
    function Lookup(pc: Pc): (e: int)
      requires Shaped()
      reads this, l1
      ensures -1 <= e < used
    {
      var page := PageOf(pc);
      if page < 0 || l1[page] == [] then -1 else l1[page][WordOf(pc)]
    }

    /** The table says what the map says, and no block stands for two words. */
    ghost predicate Valid()
      reads this, l1, pool
    {
      && Shaped()
      && (forall pc: Pc :: Lookup(pc) == if Place(pc) in blocks then blocks[Place(pc)] else -1)
      && (forall pc: Pc :: Lookup(pc) >= 0 ==> Place(pool[Lookup(pc)].psxPc) == Place(pc))
    }

    constructor ()
      ensures Valid() && fresh(l1) && fresh(pool) && blocks == map[] && used == 0
    {
      l1 := new Page[PAGES](i => []);
      pool := new Entry[POOL](i => Entry(0, 0));
      used := 0;
      blocks := map[];
    }

    /** `Free_PageTable` and the reset of the pool that goes with it. */
    method Free()
      requires Shaped()
      modifies this, l1, pool
      ensures Valid() && blocks == map[] && used == 0
    {
      used := POOL;
      for i := 0 to PAGES
        invariant forall j :: 0 <= j < i ==> l1[j] == []
      {
        l1[i] := [];
      }
      used := 0;
      blocks := map[];
    }

    /** `be->native = NULL`. */
    method Invalidate(e: int)
      requires Valid() && 0 <= e < used
      modifies pool
      ensures Valid() && pool[..] == old(pool[..])[e := old(pool[e]).(native := 0)]
    {
      pool[e] := pool[e].(native := 0);
    }

    /** `cache_block`; `allocates` is whether a new page could be had. */
    method CacheBlock(pc: Pc, native: nat, allocates: bool) returns (e: int)
      requires Valid()
      modifies this, l1, pool
      ensures Valid() && -1 <= e < used && old(used) <= used
      ensures e < 0 ==> blocks == old(blocks) && pool[..] == old(pool[..]) && used == old(used)
      ensures e >= 0 ==>
        && blocks == old(blocks)[Place(pc) := e] && pool[..] == old(pool[..])[e := Entry(pc, native)]
        && used == (if old(Lookup(pc)) < 0 then old(used) + 1 else old(used))
        && e == (if old(Lookup(pc)) < 0 then old(used) else old(Lookup(pc)))
      ensures e < 0 <==> PageOf(pc) < 0 || (old(l1[PageOf(pc)]) == [] && !allocates)
                         || (old(Lookup(pc)) < 0 && old(used) == POOL)
    {
      hide Place, PageOf, WordOf;
      var page, word := PageOf(pc), WordOf(pc);
      if page < 0 {
        return -1;
      }
      if l1[page] == [] {
        if !allocates {
          return -1;
        }
        l1[page] := seq(WORDS, i => -1);
        assert forall q: Pc :: Lookup(q) == old(Lookup(q));
      }
      e := l1[page][word];
      if e < 0 {
        if used < POOL {
          e := used;
          used := used + 1;
          l1[page] := l1[page][word := e];
        }
      }
      if e >= 0 {
        pool[e] := Entry(pc, native);
        blocks := blocks[Place(pc) := e];
        forall q: Pc ensures Lookup(q) == if Place(q) == Place(pc) then e else old(Lookup(q)) {
          if Place(q) == Place(pc) {
            PlaceHasPage(q, pc);
          } else if PageOf(q) >= 0 {
            SamePlace(q, pc);
          }
        }
      }
    }
  }
}
