// Direct links between blocks (src/dynarec_cache.c:75-152): a block ends in a jump to its
// successor, or to the exit trampoline and a note to patch it once the successor exists.

module DirectLinks {
  import opened JumpTable

  /** The code buffer, in words, and what lies at its start. */
  const CODE := 0x10_0000
  const EXIT := 2
  const START := 144

  /** The words of a block's prologue, which a direct link jumps past. */
  const PROLOGUE := 22

  const SITES := 8192

  const REGION := 0x400_0000

  type Word = w: int | 0 <= w < 0x1_0000_0000

  datatype Site = Site(word: nat, target: Pc)

  /** `MK_J(2, t)`, with `t` the word address of a word of the buffer. */
  function Jump(base: nat, t: nat): Word {
    0x800_0000 + (base + t) % REGION
  }

  /** Where the processor goes on a jump at `site`: within the region of its delay slot. */
  function Landing(base: nat, site: nat, w: Word): int {
    (base + site + 1) / REGION * REGION + w % REGION - base
  }

  /** The whole buffer lies in one region, as a jump can leave none. */
  predicate OneRegion(base: nat) {
    base / REGION == (base + CODE - 1) / REGION
  }

  lemma JumpLands(base: nat, site: nat, t: nat)
    requires OneRegion(base) && site + 1 < CODE && t < CODE
    ensures Landing(base, site, Jump(base, t)) == t
  {
    var q := base / REGION;
    assert (base + t) / REGION == q && (base + site + 1) / REGION == q;
    assert (base + t) % REGION == base + t - q * REGION;
    InRegion((base + t) % REGION);
  }

  lemma InRegion(x: nat)
    requires x < REGION
    ensures (0x800_0000 + x) % REGION == x
  {
  }

  /** The word a link to a block goes to; 0 stands for no block. */
  function Dest(native: nat): nat {
    if native == 0 then EXIT else native + PROLOGUE
  }

  /** The sites that stay pending once a block for `target` exists, in order. */
  function Kept(sites: seq<Site>, target: Pc): seq<Site> {
    if sites == [] then []
    else
      var rest := Kept(sites[..|sites| - 1], target);
      var last := sites[|sites| - 1];
      if last.target == target then rest else rest + [last]
  }

  predicate Waits(sites: seq<Site>, target: Pc, word: nat) {
    exists i :: 0 <= i < |sites| && sites[i] == Site(word, target)
  }

  /** Keeping drops exactly the sites of the target. */
  lemma {:induction false} KeptIsTheRest(sites: seq<Site>, target: Pc)
    ensures forall s :: s in Kept(sites, target) <==> s in sites && s.target != target
    ensures |Kept(sites, target)| <= |sites|
    decreases |sites|
  {
    if sites != [] {
      var front, last := sites[..|sites| - 1], sites[|sites| - 1];
      KeptIsTheRest(front, target);
      assert forall s :: s in sites <==> s in front || s == last;
    }
  }

  lemma OneMore(sites: seq<Site>, i: nat, target: Pc)
    requires i < |sites|
    ensures Kept(sites[..i + 1], target)
         == Kept(sites[..i], target) + if sites[i].target == target then [] else [sites[i]]
    ensures forall w :: Waits(sites[..i + 1], target, w) <==> Waits(sites[..i], target, w) || sites[i] == Site(w, target)
  {
    assert sites[..i + 1][..i] == sites[..i];
    forall w | Waits(sites[..i], target, w) || sites[i] == Site(w, target) ensures Waits(sites[..i + 1], target, w) {
      if sites[i] == Site(w, target) {
        assert sites[..i + 1][i] == Site(w, target);
      } else {
        var k :| 0 <= k < i && sites[..i][k] == Site(w, target);
        assert sites[..i + 1][k] == Site(w, target);
      }
    }
  }

  /** Code that differs, if at all, only at the given words. */
  ghost predicate SameBut(before: seq<Word>, after: seq<Word>, words: set<nat>) {
    |before| == |after| && forall w :: 0 <= w < |after| && w !in words ==> after[w] == before[w]
  }

  lemma SameThrough(a: seq<Word>, b: seq<Word>, c: seq<Word>, words: set<nat>)
    requires SameBut(a, b, words) && SameBut(b, c, words)
    ensures SameBut(a, c, words)
  {
  }

  /** Which block each link goes to, once the sites among `was` that wait for the target had
    * their turn. */
  ghost predicate Redirected(before: map<nat, nat>, after: map<nat, nat>, was: seq<Site>, target: Pc, native: nat) {
    && after.Keys == before.Keys
    && forall s :: s in after ==> after[s] == if Waits(was, target, s) then native else before[s]
  }

  lemma RedirectOne(before: map<nat, nat>, after: map<nat, nat>, was: seq<Site>, i: nat, target: Pc, native: nat)
    requires i < |was| && Redirected(before, after, was[..i], target, native) && was[i].word in before
    ensures Redirected(before, if was[i].target == target then after[was[i].word := native] else after,
                       was[..i + 1], target, native)
  {
    OneMore(was, i, target);
  }

  predicate Ascending(sites: seq<Site>) {
    forall i, j :: 0 <= i < j < |sites| ==> sites[i].word < sites[j].word
  }

  lemma {:induction false} KeptAscends(sites: seq<Site>, target: Pc)
    requires Ascending(sites)
    ensures Ascending(Kept(sites, target))
    decreases |sites|
  {
    if sites != [] {
      var front, last := sites[..|sites| - 1], sites[|sites| - 1];
      KeptAscends(front, target);
      KeptIsTheRest(front, target);
      var kept := Kept(front, target);
      forall i | 0 <= i < |kept| ensures kept[i].word < last.word {
        assert kept[i] in front;
        var j :| 0 <= j < |front| && front[j] == kept[i];
        assert sites[j].word < sites[|front|].word;
      }
    }
  }

  class Links {
    const base: nat
    const code: array<Word>
    const sites: array<Site>
    var codePtr: nat
    var count: nat

    /** Every link word since the last reset: the address it is for, and the block it goes to. */
    ghost var emitted: map<nat, Pc>
    ghost var linked: map<nat, nat>

    ghost predicate Shaped()
      reads this
    {
      && code.Length == CODE && sites.Length == SITES && OneRegion(base)
      && START <= codePtr <= CODE && count <= SITES
      && emitted.Keys == linked.Keys
      && (forall s :: s in emitted ==> START <= s && s + 2 <= codePtr)
    }

    /** Each link word is a jump to where its block begins, or out. */
    ghost predicate Targeted()
      reads `linked, code
    {
      forall s :: s in linked && s < code.Length ==> code[s] == Jump(base, Dest(linked[s]))
    }

    /** The pending sites are link words that still go out. */
    ghost predicate Noted(pending: seq<Site>)
      reads `emitted, `linked
    {
      && Ascending(pending)
      && (forall p :: p in pending ==>
            p.word in emitted && emitted[p.word] == p.target && p.word in linked && linked[p.word] == 0)
    }

    ghost function Pending(): seq<Site>
      requires Shaped()
      reads this, sites
    {
      sites[..count]
    }

    ghost predicate Valid()
      reads this, code, sites
    {
      Shaped() && Targeted() && Noted(Pending())
    }

    constructor (base: nat)
      requires OneRegion(base)
      ensures Valid() && fresh(code) && fresh(sites) && this.base == base
      ensures codePtr == START && emitted == map[] && linked == map[] && Pending() == []
    {
      this.base := base;
      code := new Word[CODE](i => 0);
      sites := new Site[SITES](i => Site(0, 0));
      codePtr, count := START, 0;
      emitted, linked := map[], map[];
    }

    /** The flush of a full buffer. */
    method Reset()
      requires Valid()
      modifies this, code
      ensures Valid() && codePtr == START && emitted == map[] && linked == map[] && Pending() == []
      ensures forall w :: START <= w < CODE ==> code[w] == 0
    {
      for i := START to CODE
        invariant Shaped() && forall w :: START <= w < i ==> code[w] == 0
      {
        code[i] := 0;
      }
      codePtr, count := START, 0;
      emitted, linked := map[], map[];
    }

    method Emit(w: Word)
      requires Valid() && codePtr < CODE
      modifies `codePtr, code
      ensures Valid() && codePtr == old(codePtr) + 1 && code[..] == old(code[..])[old(codePtr) := w]
    {
      code[codePtr] := w;
      codePtr := codePtr + 1;
    }

    /** The end of `emit_direct_link`, for a block found at `native` or 0 for none. */
    method EmitLink(target: Pc, native: nat)
      requires Valid() && codePtr + 2 <= CODE && (native != 0 ==> native + PROLOGUE < CODE)
      modifies this, code, sites
      ensures Valid() && codePtr == old(codePtr) + 2
      ensures emitted == old(emitted)[old(codePtr) := target] && linked == old(linked)[old(codePtr) := native]
      ensures Pending() == old(Pending())
                         + if native == 0 && old(count) < SITES then [Site(old(codePtr), target)] else []
    {
      EmitJump(target, native);
      if native == 0 && count < SITES {
        Note(Site(codePtr - 2, target));
      }
    }

    method EmitJump(target: Pc, native: nat)
      requires Valid() && codePtr + 2 <= CODE && (native != 0 ==> native + PROLOGUE < CODE)
      modifies `codePtr, `emitted, `linked, code
      ensures Valid() && codePtr == old(codePtr) + 2
      ensures emitted == old(emitted)[old(codePtr) := target] && linked == old(linked)[old(codePtr) := native]
    {
      hide Jump, Ascending;
      ghost var pending := Pending();
      code[codePtr] := Jump(base, Dest(native));
      code[codePtr + 1] := 0;
      emitted, linked := emitted[codePtr := target], linked[codePtr := native];
      codePtr := codePtr + 2;
      assert Noted(pending);
    }

    method Note(site: Site)
      requires Valid() && count < SITES && codePtr == site.word + 2
      requires site.word in emitted && emitted[site.word] == site.target && linked[site.word] == 0
      requires forall p :: p in Pending() ==> p.word < site.word
      modifies `count, sites
      ensures Valid() && Pending() == old(Pending()) + [site] && count == old(count) + 1
    {
      hide Jump;
      sites[count] := site;
      count := count + 1;
      assert Pending() == old(Pending()) + [site];
    }

    /** Redirect one site. */
    method Redirect(ps: Site, native: nat)
      requires Shaped() && Targeted() && ps.word in linked && native != 0
      modifies `linked, code
      ensures Shaped() && Targeted() && linked == old(linked)[ps.word := native]
      ensures SameBut(old(code[..]), code[..], linked.Keys)
    {
      hide Jump;
      code[ps.word] := Jump(base, native + PROLOGUE);
      linked := linked[ps.word := native];
    }

    /** The turn of site `i`, with `j` sites kept so far. */
    method Visit(i: nat, j: nat, target: Pc, native: nat) returns (k: nat)
      requires Shaped() && Targeted() && j <= i < sites.Length && sites[i].word in linked && native != 0
      modifies `linked, code, sites
      ensures Shaped() && Targeted() && k == (if old(sites[i]).target == target then j else j + 1)
      ensures sites[..] == Moved(old(sites[..]), i, j, target)
      ensures linked == if old(sites[i]).target == target then old(linked)[old(sites[i]).word := native] else old(linked)
      ensures SameBut(old(code[..]), code[..], linked.Keys)
    {
      hide Targeted;
      var ps := sites[i];
      k := j;
      if ps.target == target {
        Redirect(ps, native);
      } else {
        sites[j] := ps;
        k := j + 1;
      }
    }

    /** Halfway through: `i` sites seen, `j` of them kept. */
    ghost predicate Sweeping(was: seq<Site>, before: map<nat, nat>, codeWas: seq<Word>, i: nat, j: nat, target: Pc, native: nat)
      reads this, code, sites
    {
      Shaped() && Targeted() && j <= i <= count == |was| <= sites.Length && linked.Keys == before.Keys &&
      Swept(sites[..], was, i, j, target) && Redirected(before, linked, was[..i], target, native) &&
      SameBut(codeWas, code[..], before.Keys)
    }

    method SweepSite(ghost was: seq<Site>, ghost before: map<nat, nat>, ghost codeWas: seq<Word>,
                     i: nat, j: nat, target: Pc, native: nat) returns (k: nat)
      requires Sweeping(was, before, codeWas, i, j, target, native) && i < count && native != 0
      requires forall p :: p in was ==> p.word in before
      modifies `linked, code, sites
      ensures Sweeping(was, before, codeWas, i + 1, k, target, native)
    {
      hide Shaped, Targeted, Redirected, SameBut, Moved, Kept;
      SweepOne(sites[..], was, i, j, target);
      RedirectOne(before, linked, was, i, target, native);
      ghost var codeBefore := code[..];
      assert was[i].word in linked;
      k := Visit(i, j, target, native);
      assert linked.Keys == before.Keys;
      SameThrough(codeWas, codeBefore, code[..], before.Keys);
    }

    /** The loop of `apply_pending_patches`, over all pending sites. */
    method Sweep(target: Pc, native: nat) returns (j: nat)
      requires Shaped() && Targeted() && native != 0 && count <= sites.Length
      requires forall p :: p in sites[..count] ==> p.word in linked
      modifies `linked, code, sites
      ensures Shaped() && Targeted() && j <= count && sites[..j] == Kept(old(sites[..count]), target)
      ensures Redirected(old(linked), linked, old(sites[..count]), target, native)
      ensures SameBut(old(code[..]), code[..], linked.Keys)
    {
      hide Shaped, Targeted, Swept, Redirected, SameBut, Kept;
      ghost var was, before, codeWas := sites[..count], linked, code[..];
      StartsSweep(sites[..], was, before, codeWas, target, native);
      j := 0;
      for i := 0 to count
        invariant Sweeping(was, before, codeWas, i, j, target, native)
      {
        j := SweepSite(was, before, codeWas, i, j, target, native);
      }
      EndsSweep(sites[..], was, j, target);
      assert was[..|was|] == was;
    }

    /** `apply_pending_patches`: every site waiting for the block is redirected to it; the
      * others stay pending, in their order, moved up in place. */
    method ApplyPending(target: Pc, native: nat)
      requires Valid() && native != 0 && native + PROLOGUE < CODE
      modifies `count, `linked, code, sites
      ensures Valid() && Pending() == Kept(old(Pending()), target)
      ensures Redirected(old(linked), linked, old(Pending()), target, native)
      ensures SameBut(old(code[..]), code[..], linked.Keys)
    {
      hide Kept, Ascending, Redirected, Targeted, SameBut;
      ghost var was, before := Pending(), linked;
      count := Sweep(target, native);
      StillNoted(was, target, native, before);
    }

    /** The kept sites are noted, once only those of the target were redirected. */
    lemma StillNoted(was: seq<Site>, target: Pc, native: nat, before: map<nat, nat>)
      requires Ascending(was)
      requires forall p :: p in was ==> p.word in emitted && emitted[p.word] == p.target && p.word in linked
      requires forall p :: p in was ==> p.word in before && before[p.word] == 0
      requires Redirected(before, linked, was, target, native)
      ensures Noted(Kept(was, target))
    {
      KeptAscends(was, target);
      KeptIsTheRest(was, target);
    }
  }

  function Moved(cells: seq<Site>, i: nat, j: nat, target: Pc): (r: seq<Site>)
    requires j <= i < |cells|
    ensures |r| == |cells|
  {
    if cells[i].target == target then cells else cells[j := cells[i]]
  }

  /** The array of sites halfway through a sweep: kept ones at the front, unseen ones in place. */
  ghost predicate Swept(cells: seq<Site>, was: seq<Site>, i: nat, j: nat, target: Pc) {
    && j <= i <= |was| <= |cells|
    && cells[..j] == Kept(was[..i], target) && cells[i..|was|] == was[i..]
  }

  lemma SweepOne(cells: seq<Site>, was: seq<Site>, i: nat, j: nat, target: Pc)
    requires i < |was| && Swept(cells, was, i, j, target)
    ensures cells[i] == was[i] && was[i] in was
    ensures Swept(Moved(cells, i, j, target), was, i + 1, if was[i].target == target then j else j + 1, target)
  {
    hide Kept;
    OneMore(was, i, target);
    assert cells[i] == cells[i..|was|][0] && cells[i + 1..|was|] == cells[i..|was|][1..];
  }

  lemma StartsSweep(cells: seq<Site>, was: seq<Site>, before: map<nat, nat>, code: seq<Word>, target: Pc, native: nat)
    requires |was| <= |cells| && cells[..|was|] == was
    ensures Swept(cells, was, 0, 0, target) && Redirected(before, before, was[..0], target, native)
    ensures SameBut(code, code, before.Keys)
  {
  }

  lemma EndsSweep(cells: seq<Site>, was: seq<Site>, j: nat, target: Pc)
    requires Swept(cells, was, |was|, j, target)
    ensures j <= |was| <= |cells| && cells[..j] == Kept(was, target) && was[..|was|] == was
  {
    assert was[..|was|] == was;
  }
}
