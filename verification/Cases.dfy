/** Two concrete blocks: one that reads a stale scratch register, and one whose last
    sub-block is cut by the limit on the length of a super-block. */
module Cases {
  import opened Mips
  import opened Psx
  import opened Native
  import opened Tracking
  import opened Slots
  import opened BlockScan
  import opened Interpreter
  import opened Emission
  import opened Exits
  import opened Instructions
  import opened Branches
  import opened Plan
  import opened Compile
  import opened SuperBlock
  import opened Handover
  import Dce

  lemma {:induction false} PcIs(n: nat)
    requires n < 1000
    ensures PcAt(0, n) as int == 4 * n
    decreases n
  {
    if n > 0 {
      PcIs(n - 1);
      NextPc(PcAt(0, n - 1));
    }
  }

  lemma NextPc(pc: bv32)
    requires pc as int < 4000
    ensures Add(pc, 4) as int == pc as int + 4
  {
    assert pc < 4000;
  }

  // ---- A stale scratch register ----------------------------------------------------------

  /** SLL $0,$16,1 and SLL $17,$16,0, then words that keep $8 to $15 busy, and JR $31. */
  const STALE_BLOCK: seq<Word> := [
    R(0, 0, 16, 0, 1, 0x00), R(0, 0, 16, 17, 0, 0x00),
    R(0, 9, 10, 8, 0, 0x21), R(0, 12, 13, 11, 0, 0x21), R(0, 15, 8, 14, 0, 0x21),
    R(0, 10, 11, 9, 0, 0x21), R(0, 13, 14, 12, 0, 0x21), R(0, 8, 9, 15, 0, 0x21),
    R(0, 31, 0, 0, 0, 0x08), NOP]

  function StaleFetch(pc: bv32): Word {
    var n := pc as int / 4;
    if n < 10 then STALE_BLOCK[n] else NOP
  }

  lemma StaleWord(n: nat)
    requires n < 64
    ensures WordAt(StaleFetch, 0, n) == if n < 10 then STALE_BLOCK[n] else NOP
  {
    hide PcAt;
    PcIs(n);
  }

  lemma {:induction false} NoEndBefore(ws: seq<Word>, i: nat, k: nat)
    requires |ws| == SCAN_MAX && i <= k <= SCAN_MAX
    requires forall j :: i <= j < k ==> !IsBranch(ws[j]) && !IsTrap(ws[j])
    ensures Extent(ws, SCAN_MAX, i) == Extent(ws, SCAN_MAX, k)
    decreases k - i
  {
    hide IsBranch, IsTrap;
    if i < k { NoEndBefore(ws, i + 1, k); }
  }

  lemma StaleBlockIs()
    ensures BlockAt(StaleFetch, 0, 0) == STALE_BLOCK
  {
    hide StaleFetch, WordAt, Extent;
    var ws := WordsFrom(StaleFetch, 0, 0);
    forall k | 0 <= k < 64 ensures ws[k] == if k < 10 then STALE_BLOCK[k] else NOP {
      StaleWord(k);
    }
    NoEndBefore(ws, 0, 8);
    JumpEnds(ws, 8);
    assert ws[..10] == STALE_BLOCK;
  }

  lemma JumpEnds(ws: seq<Word>, i: nat)
    requires |ws| == SCAN_MAX && i + 1 < SCAN_MAX && IsBranch(ws[i])
    ensures Extent(ws, SCAN_MAX, i) == i + 2
  {
  }

  lemma UsesStep(block: seq<Word>, n: nat, r: Reg)
    requires n < |block|
    ensures Uses(block, n + 1, r) == Uses(block, n, r) + if r in Accesses(block[n]) then 1 else 0
  {
    hide Accesses;
  }

  lemma StaleUses(r: Reg)
    ensures 8 <= r <= 15 ==> Uses(STALE_BLOCK, 10, r) >= 2
    ensures r == 16 ==> Uses(STALE_BLOCK, 10, r) == 2
    ensures r == 17 ==> Uses(STALE_BLOCK, 10, r) == 1
  {
    hide Uses;
    var b := STALE_BLOCK;
    assert Uses(b, 0, r) == 0 by { NoUses(b, r); }
    UsesStep(b, 0, r);
    UsesStep(b, 1, r);
    UsesStep(b, 2, r);
    UsesStep(b, 3, r);
    UsesStep(b, 4, r);
    UsesStep(b, 5, r);
    UsesStep(b, 6, r);
    UsesStep(b, 7, r);
    UsesStep(b, 8, r);
    UsesStep(b, 9, r);
  }

  lemma NoUses(block: seq<Word>, r: Reg)
    ensures Uses(block, 0, r) == 0
  {
  }

  /** $8 to $15 take the eight slots, and $16 and $17 get none. */
  lemma StaleSlots(slots: SlotMap)
    requires slots.Valid() && SlotsFit(StaleFetch, 0, slots)
    ensures slots.Homes()[16] == 0 == slots.Homes()[17]
  {
    hide slots.Valid, slots.Homes, SlotsFit, BlockAt, Uses;
    StaleBlockIs();
    var uses := UsesOf(STALE_BLOCK);
    forall r: Reg | 8 <= r <= 15 ensures r in Preceding(uses, 16) {
      StaleUses(r);
      StaleUses(16);
    }
    Subset({8, 9, 10, 11, 12, 13, 14, 15}, Preceding(uses, 16));
    StaleUses(17);
    HomeByRank(StaleFetch, 0, slots, 16);
    HomeByRank(StaleFetch, 0, slots, 17);
  }

  /** $17 stays live, and neither of the two shifts is dead. */
  lemma StaleNotDead()
    ensures !DeadAt(StaleFetch, 0, 0) && !DeadAt(StaleFetch, 0, 1)
  {
    hide BlockAt, Dead, LiveAt, IsBranch;
    StaleBlockIs();
    NeverOverwritten(STALE_BLOCK, 2, 17);
    StartsAtZero(StaleFetch);
    ShiftsLive(LiveAt(STALE_BLOCK, 1), LiveAt(STALE_BLOCK, 2));
  }

  lemma StartsAtZero(fetch: bv32 -> Word)
    ensures StartOf(fetch, 0, 0) == 0 == StartOf(fetch, 0, 1)
  {
    hide IsBranch;
  }

  lemma ShiftsLive(after0: set<Reg>, after1: set<Reg>)
    requires 17 in after1
    ensures !Dead(STALE_BLOCK[0], after0) && !Dead(STALE_BLOCK[1], after1)
  {
  }

  /** A register that no word from k on writes is live before word k. */
  lemma {:induction false} NeverOverwritten(block: seq<Word>, k: nat, r: Reg)
    requires k <= |block| && r != 0 && forall i :: k <= i < |block| ==> DceDest(block[i]) != r
    ensures r in LiveAt(block, k)
    decreases |block| - k
  {
    hide DceDest, DceReads, DcePure;
    if k < |block| { NeverOverwritten(block, k + 1, r); }
  }

  /** The tables after the two shifts: the second one reads the copy of $16 in T8 that the
      first one has overwritten. */
  lemma StaleTables(v: View)
    requires v.home[16] == 0 == v.home[17] && !v.vregs[16].isConst && !v.vregs[17].isConst && !v.vregs[0].isConst
    requires v.t8 == -1
    ensures var v1 := AfterShift(v, STALE_BLOCK[0]);
            v1.t8 == 16 && v1.home == v.home && v1.vregs == v.vregs && AfterShift(v1, STALE_BLOCK[1]).misread
  {
    var v1 := AfterShift(v, STALE_BLOCK[0]);
    assert v1.vregs == v.vregs && v1.t8 == 16 && v1.stale8;
    var v2 := v1.AsVar(17);
    assert v2.t8 == 16 && v2.stale8 && v2.home == v.home && !v2.vregs[16].isConst;
  }

  lemma StaleWalk(slots: SlotMap)
    requires slots.Valid() && SlotsFit(StaleFetch, 0, slots)
    ensures Reuses(StaleFetch, 0, slots, 2)
    ensures var v := Entered(slots, WriteFirstSet(BlockAt(StaleFetch, 0, 0)));
            Walk(StaleFetch, 0, slots, 2) == AfterShift(AfterShift(v, STALE_BLOCK[0]), STALE_BLOCK[1])
  {
    hide slots.Valid, slots.Homes, SlotsFit, AfterShift, BlockAt, StaleFetch, PcAt, DeadAt, WordAt;
    StaleSlots(slots);
    StaleNotDead();
    StaleWord(0);
    StaleWord(1);
    var v := Entered(slots, WriteFirstSet(BlockAt(StaleFetch, 0, 0)));
    StaleTables(v);
    ShiftTables(v, STALE_BLOCK[0], PcAt(0, 0));
    ShiftTables(AfterShift(v, STALE_BLOCK[0]), STALE_BLOCK[1], PcAt(0, 1));
    assert Walk(StaleFetch, 0, slots, 0) == v;
    assert Walk(StaleFetch, 0, slots, 1) == AfterWord(v, STALE_BLOCK[0], PcAt(0, 0), false);
    assert Walk(StaleFetch, 0, slots, 2) == AfterWord(Walk(StaleFetch, 0, slots, 1), STALE_BLOCK[1], PcAt(0, 1), false);
  }

  lemma ShiftTables(v: View, w: Word, pc: bv32)
    requires w == STALE_BLOCK[0] || w == STALE_BLOCK[1]
    ensures AfterWord(v, w, pc, false) == AfterShift(v, w)
  {
    hide AfterShift;
  }

  /** The two shifts compiled one after the other: the second takes $16 from T8, which the
      first has overwritten. */
  method TwoShifts(e: Emitter, ghost p: Regs)
    requires e.Ok() && e.Matches(p, ALL) && e.Following() && e.st.t8 == -1 && p.r[16] == 1
    requires e.st.home[16] == 0 == e.st.home[17] && !e.st.vregs[16].isConst && !e.st.vregs[17].isConst
    modifies e`code, e`mach, e`st
    ensures e.Ok() && e.st == AfterShift(AfterShift(old(e.st), STALE_BLOCK[0]), STALE_BLOCK[1])
    ensures Ld(e.mach, CpuReg(17)) == 2
  {
    hide Agrees, Falls, ReservedOf, e.st.Shape, AfterShift, ShiftEffect;
    e.st.HomeFacts(0);
    ghost var v, m := e.st, e.mach;
    InMemory(v, m, p);
    StaleTables(v);
    ShiftsCovered();
    EmitShift(e, STALE_BLOCK[0], p, ALL, ALL);
    EmitShift(e, STALE_BLOCK[1], Exec(STALE_BLOCK[0], p), ALL, ALL);
    Doubled(v, AfterShift(v, STALE_BLOCK[0]), m);
  }

  lemma InMemory(v: View, m: Machine, p: Regs)
    requires Agrees(v, m, p, ALL) && v.home[16] == 0 && !v.vregs[16].isConst
    ensures Ld(m, CpuReg(16)) == p.r[16]
  {
    assert v.Tracks(m, 16, p.r[16]);
  }

  lemma ShiftsCovered()
    ensures Covers(ALL, STALE_BLOCK[0], ALL) && Covers(ALL, STALE_BLOCK[1], ALL)
  {
  }

  lemma Doubled(v: View, v1: View, m: Machine)
    requires v.t8 == -1 && v1.t8 == 16 && Ld(m, CpuReg(16)) == 1
    ensures Ld(ShiftEffect(v1, ShiftEffect(v, m, STALE_BLOCK[0]), STALE_BLOCK[1]), CpuReg(17)) == 2
  {
    var m1 := ShiftEffect(v, m, STALE_BLOCK[0]);
    assert m1.gpr[T8] == Shift(0x00, 1, 1) == 2;
    assert Shift(0x00, 2, 0) == 2;
  }

  /** The interpreter executes the two shifts as they stand. */
  lemma ShiftsInterpreted(c0: Cpu)
    requires c0.pc == 0 && c0.branch == 0 && c0.regs.r[16] == 1
    ensures Chain(StaleFetch, c0, 2).regs.r[17] == 1
  {
    hide StaleFetch, Next, Stops;
    var c1 := Next(STALE_BLOCK[0], c0);
    StaleFetched();
    FirstShift(c0);
    SecondShift(c1);
    assert Chain(StaleFetch, c0, 1) == c1;
  }

  lemma StaleFetched()
    ensures StaleFetch(0) == STALE_BLOCK[0] && StaleFetch(4) == STALE_BLOCK[1]
  {
    StaleWord(0);
    StaleWord(1);
    assert PcAt(0, 1) == Add(PcAt(0, 0), 4) == 4;
  }

  lemma FirstShift(c: Cpu)
    requires c.pc == 0 && c.branch == 0
    ensures !Stops(STALE_BLOCK[0], c)
    ensures Next(STALE_BLOCK[0], c).pc == 4 && Next(STALE_BLOCK[0], c).regs == c.regs
  {
    hide Shift;
  }

  lemma SecondShift(c: Cpu)
    requires c.regs.r[16] == 1
    ensures !Stops(STALE_BLOCK[1], c) && Next(STALE_BLOCK[1], c).regs.r[17] == 1
  {
    assert Shift(0x00, 1, 0) == 1;
  }

  /** The block is compiled as compile_block begins it, up to the second shift.  With 1 in
      $16 the interpreter puts 1 into $17, and the emitted code 2. */
  method StaleScratchExample(ghost m0: Machine, ghost c0: Cpu) returns (code: seq<Word>, slots: SlotMap)
    requires AtHome(m0, c0.regs, ALL) && c0.pc == 0 && c0.branch == 0 && c0.regs.r[16] == 1
    ensures slots.Valid() && SlotsFit(StaleFetch, 0, slots) && Reuses(StaleFetch, 0, slots, 2)
    ensures exists m :: Falls(code, 0, m0, |code|, m) && Ld(m, CpuReg(17)) == 2
    ensures Chain(StaleFetch, c0, 2).regs.r[17] == 1
  {
    hide Agrees, Falls, ReservedOf, AtHome, AfterShift, StaleFetch, BlockAt, UsesOf, IsAssignment, Chain, Walk, Reuses,
         WriteFirstSet, Fixed, slots.Valid, slots.Homes, Writable;
    var scan := ScanAt(StaleFetch, 0, 0);
    slots := SlotsFor(scan.uses);
    StaleSlots(slots);
    StaleWalk(slots);
    var e := Begin(slots, scan.writeFirst, m0, c0.regs);
    TwoShifts(e, c0.regs);
    ShiftsInterpreted(c0);
    code := e.code;
    assert Falls(code, 0, m0, |code|, e.mach);
  }

  // ---- A sub-block cut by the length limit ---------------------------------------------------

  /** The branches at words 62, 126 and 190 are never taken; $8 is written by word 199, the
      last that fits into the super-block, and again by word 200. */
  function CutWord(n: nat): Word {
    if n == 62 || n == 126 || n == 190 then I(0x05, 9, 10, 16)
    else if n == 199 then I(0x09, 0, 8, 1)
    else if n == 200 then I(0x09, 0, 8, 2)
    else NOP
  }

  function CutFetch(pc: bv32): Word { CutWord(pc as int / 4) }

  lemma CutWordAt(n: nat)
    requires n < 1000
    ensures WordAt(CutFetch, 0, n) == CutWord(n)
  {
    hide PcAt, CutWord;
    PcIs(n);
  }

  /** What is in the words, for the plan. */
  lemma CutFacts(n: nat)
    requires n < 1000
    ensures InFragment(WordAt(CutFetch, 0, n)) && !IsTrap(CutWord(n))
    ensures IsBranch(WordAt(CutFetch, 0, n)) <==> n == 62 || n == 126 || n == 190
    ensures IsBranch(CutWord(n)) <==> n == 62 || n == 126 || n == 190
    ensures DceDest(WordAt(CutFetch, 0, n)) == if n == 199 || n == 200 then 8 else 0
  {
    CutWordAt(n);
  }

  lemma CutSlots(n: nat)
    requires n < 1000
    ensures InSlot(CutFetch, 0, n) <==> n == 63 || n == 127 || n == 191
    ensures AfterSlot(CutFetch, 0, n) <==> n == 64 || n == 128 || n == 192
  {
    hide WordAt, CutWord, IsBranch, InFragment, DceDest, IsTrap;
    if n >= 1 { CutFacts(n - 1); }
    if n >= 2 { CutFacts(n - 2); }
  }

  lemma {:induction false} CutPath(n: nat)
    requires n <= 200
    ensures StartOf(CutFetch, 0, n) == if n < 64 then 0 else if n < 128 then 64 else if n < 192 then 128 else 192
    ensures Depth(CutFetch, 0, n) == if n < 64 then 0 else if n < 128 then 1 else if n < 192 then 2 else 3
    decreases n
  {
    hide AfterSlot;
    CutSlots(n);
    if n > 0 { CutPath(n - 1); }
  }

  /** The last sub-block. */
  lemma CutBlock()
    ensures var block := BlockAt(CutFetch, 0, 192);
            |block| == 64 && forall k :: 0 <= k < 64 ==> block[k] == CutWord(192 + k)
  {
    hide WordAt, CutWord, IsBranch, InFragment, DceDest, IsTrap, Extent;
    var ws := WordsFrom(CutFetch, 0, 192);
    forall j | 0 <= j < 64 ensures ws[j] == CutWord(192 + j) && !IsBranch(ws[j]) && !IsTrap(ws[j]) {
      CutWordAt(192 + j);
      CutFacts(192 + j);
    }
    NoEndBefore(ws, 0, 64);
    AtFullSize(ws);
  }

  lemma AtFullSize(ws: seq<Word>)
    requires |ws| == SCAN_MAX
    ensures Extent(ws, SCAN_MAX, SCAN_MAX) == SCAN_MAX
  {
  }

  /** Word 199 is dead, because of word 200; no other word is. */
  lemma CutDead(n: nat)
    requires n < 200
    ensures DeadAt(CutFetch, 0, n) <==> n == 199
  {
    hide WordAt, CutWord, IsBranch, IsTrap, BlockAt, LiveAt, StartOf, DcePure;
    CutPath(n);
    var s := StartOf(CutFetch, 0, n);
    var block := BlockAt(CutFetch, 0, s);
    if n == 199 {
      CutBlock();
      CutLiveness(block);
    } else {
      BlockWord(CutFetch, 0, s, n - s);
      CutFacts(n);
    }
  }

  lemma CutLiveness(block: seq<Word>)
    requires |block| == 64 && forall k :: 0 <= k < 64 ==> block[k] == CutWord(192 + k)
    ensures Dead(block[7], LiveAt(block, 8))
  {
    hide LiveAt;
    forall k | 9 <= k < 64 ensures DceDest(block[k]) != 8 {
      assert block[k] == CutWord(192 + k);
    }
    NeverOverwritten(block, 9, 8);
    LiveAtStep(block, 8);
    assert block[7] == CutWord(199) == I(0x09, 0, 8, 1) && block[8] == CutWord(200) == I(0x09, 0, 8, 2);
  }

  /** No register is a constant, and no cached copy is stale. */
  ghost predicate Fresh(v: View) {
    (forall r: Reg :: !v.vregs[r].isConst) && !v.stale8 && !v.stale9 && !v.misread
  }

  lemma StaysFresh(v: View, n: nat, pc: bv32)
    requires n < 200 && Fresh(v)
    ensures Fresh(AfterWord(v, CutWord(n), pc, n == 199))
  {
    hide Add;
    var w := CutWord(n);
    if n == 62 || n == 126 || n == 190 {
      CopiedFresh(v, T8, 9);
      CopiedFresh(v.Copied(T8, 9), T9, 10);
      assert AfterWord(v, w, pc, false) == v.Copied(T8, 9).Copied(T9, 10);
    }
  }

  lemma CopiedFresh(v: View, h: Reg, r: Reg)
    requires Fresh(v) && (h == T8 || h == T9)
    ensures Fresh(v.Copied(h, r))
  {
  }

  lemma {:induction false} CutWalk(slots: SlotMap, n: nat)
    requires n <= 200
    ensures Fresh(Walk(CutFetch, 0, slots, n))
    decreases n
  {
    hide Fresh, AfterWord, CutWord, WordAt, DeadAt, PcAt;
    if n == 0 {
      EntryFresh(slots, WriteFirstSet(BlockAt(CutFetch, 0, 0)));
    } else {
      CutWalk(slots, n - 1);
      CutWordAt(n - 1);
      CutDead(n - 1);
      StaysFresh(Walk(CutFetch, 0, slots, n - 1), n - 1, PcAt(0, n - 1));
    }
  }

  lemma EntryFresh(slots: SlotMap, writeFirst: set<Reg>)
    ensures Fresh(Entered(slots, writeFirst))
  {
  }

  lemma CutKnown(slots: SlotMap)
    ensures Known(CutFetch, 0, slots, 200) == ALL && !Reuses(CutFetch, 0, slots, 200)
  {
    hide WordAt, DeadAt, DceDest, Walk;
    forall i | 0 <= i < 200 && DeadAt(CutFetch, 0, i)
      ensures !Walk(CutFetch, 0, slots, i).vregs[DceDest(WordAt(CutFetch, 0, i))].Lazy()
    {
      CutWalk(slots, i);
    }
    KnownOnce(CutFetch, 0, slots, 200);
    CutWalk(slots, 200);
  }

  /** The branches are decided at run time, no word is declined, and the block goes on to
      word 200. */
  lemma CutGoesOn(slots: SlotMap, n: nat)
    requires n < 200
    ensures !Declined(CutFetch, 0, slots, n) && (n > 0 ==> !Ends(CutFetch, 0, slots, n))
    ensures Ends(CutFetch, 0, slots, 200)
  {
    hide DeadAt, DceDest, Walk, AfterSlot, InSlot, StartOf, Depth, WordAt, IsPsxWord;
    CutSlots(n);
    CutSlots(200);
    CutPath(n);
    CutPath(200);
    CutFacts(n);
    CutWalk(slots, n);
    CutNoOverflow(Walk(CutFetch, 0, slots, n), n);
    CutWordAt(n);
    if n >= 2 {
      CutWalk(slots, n - 2);
      CutWordAt(n - 2);
    }
  }

  lemma CutNoOverflow(v: View, n: nat)
    ensures !KnownOverflow(v, CutWord(n))
  {
  }

  /** So the compiler accepts the block and takes 200 words. */
  lemma CutLength(slots: SlotMap, n: nat)
    ensures !Refused(CutFetch, 0, slots, n)
    ensures Complete(CutFetch, 0, slots, n) ==> n == 200
  {
    hide Ends, Declined;
    CutGoesOn(slots, 1);
    if n < 200 { CutGoesOn(slots, n); }
    assert n == 0 ==> !Ends(CutFetch, 0, slots, 0) by { NoEndAtOnce(CutFetch, 0, slots); }
  }

  // ---- What the interpreter does -------------------------------------------------------------

  lemma CutNext(c: Cpu, n: nat)
    requires n < 200 && c.branch == 0 && c.regs.r[9] == c.regs.r[10] && c.regs.r[0] == 0
    ensures var w := CutWord(n);
            InFragment(w) && !Stops(w, c) && Next(w, c).branch == 0 && Next(w, c).pc == Add(c.pc, 4) &&
            Next(w, c).regs == if n == 199 then Write(c.regs, 8, 1) else c.regs
  {
    hide Add, JumpTarget;
    AddiuOne(c.regs.r[0]);
  }

  lemma AddiuOne(x: bv32)
    ensures x == 0 ==> AluImm(0x09, x, 1) == 1
  {
  }

  /** The start of the run: the branches find $9 and $10 equal, and $8 does not hold 1. */
  ghost predicate CutStart(c0: Cpu) {
    c0.pc == 0 && c0.branch == 0 && c0.regs.r[0] == 0 && c0.regs.r[9] == c0.regs.r[10] && c0.regs.r[8] != 1
  }

  lemma {:induction false} CutChain(c0: Cpu, n: nat)
    requires CutStart(c0) && n <= 200
    ensures Straight(CutFetch, c0, n)
    ensures var c := Chain(CutFetch, c0, n);
            c.pc == PcAt(0, n) && c.branch == 0 && c.regs == if n == 200 then Write(c0.regs, 8, 1) else c0.regs
    decreases n
  {
    hide CutFetch, CutWord, Next, Stops, InFragment, Add;
    if n > 0 {
      CutChain(c0, n - 1);
      var c := Chain(CutFetch, c0, n - 1);
      CutWordAt(n - 1);
      CutNext(c, n - 1);
      StraightOn(CutFetch, c0, n - 1, CutWord(n - 1));
    }
  }

  lemma {:induction false} CutThin(c0: Cpu, n: nat)
    requires CutStart(c0) && n <= 200
    ensures ThinAt(CutFetch, c0, n) == c0.regs
    decreases n
  {
    hide CutFetch, CutWord, DeadAt, Effect, WordAt, PcAt;
    if n > 0 {
      CutThin(c0, n - 1);
      CutDead(n - 1);
      CutWordAt(n - 1);
      if n - 1 != 199 { NoEffect(n - 1, PcAt(0, n - 1), c0.regs); }
    }
  }

  lemma NoEffect(n: nat, pc: bv32, p: Regs)
    requires n < 199
    ensures Effect(CutWord(n), pc, p) == p
  {
  }

  /** The run does not stop and leaves nowhere before the end. */
  lemma CutRuns(c0: Cpu, n: nat)
    requires CutStart(c0) && n <= 200
    ensures !StopsInside(CutFetch, c0, 200) && !Branched(CutFetch, c0, n)
  {
    hide CutFetch, Chain, Stops, CutStart, WordAt;
    CutChain(c0, 200);
    if n > 0 { CutChain(c0, n - 1); }
  }

  /** The block compiled as a whole.  Its code leaves at the cut with the interpreter's pc, but
      with the old value in $8, where the interpreter has 1. */
  method CutExample(ghost m0: Machine, ghost c0: Cpu) returns (code: seq<Word>, slots: SlotMap)
    requires AtHome(m0, c0.regs, ALL) && CutStart(c0)
    ensures SlotsFit(CutFetch, 0, slots) && Complete(CutFetch, 0, slots, 200)
    ensures var o, c := RunFrom(code, 0, m0), Chain(CutFetch, c0, 200);
            o.Left? && Ld(o.m, CpuPc) == c.pc == PcAt(0, 200) &&
            c.regs.r[8] == 1 && HeldAt(o.m, 8) == c0.regs.r[8] != 1
  {
    hide *;
    var ok, words;
    CutStarts(c0);
    code, ok, slots, words := CompileBlock(CutFetch, 0, m0, c0);
    CutLength(slots, words);
    CutExit(code, slots, m0, c0);
  }

  lemma CutStarts(c0: Cpu)
    requires CutStart(c0)
    ensures c0.pc == 0 && c0.branch == 0
  {
  }

  lemma CutExit(code: seq<Word>, slots: SlotMap, m0: Machine, c0: Cpu)
    requires CutStart(c0) && (!Reuses(CutFetch, 0, slots, 200) ==> Follows(code, CutFetch, slots, m0, c0, 200))
    ensures var o, c := RunFrom(code, 0, m0), Chain(CutFetch, c0, 200);
            o.Left? && Ld(o.m, CpuPc) == c.pc == PcAt(0, 200) &&
            c.regs.r[8] == 1 && HeldAt(o.m, 8) == c0.regs.r[8] != 1
  {
    hide Faithful, RunFrom, StopsInside, Branched, Reuses, Known, ThinAt, CutFetch, PcAt, Straight, Fixed, Charged, Chain;
    CutKnown(slots);
    CutRuns(c0, 0);
    var x :| LeavesWell(code, CutFetch, slots, m0, c0, x) && x.n <= 200 && (x.n == 200 || Branched(CutFetch, c0, x.n));
    CutRuns(c0, x.n);
    FaithfulParts(CutFetch, slots, m0, c0, x);
    CutChain(c0, 200);
    CutThin(c0, 200);
    assert 8 in ALL && HeldAt(x.m, 8) == c0.regs.r[8];
  }
}
