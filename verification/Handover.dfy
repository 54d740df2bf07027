/** What follows from a compiled block: which registers its exits hand over, when that is all
    of them, how blocks compose, and which blocks are free of stale scratch registers. */
module Handover {
  import opened Mips
  import opened Psx
  import opened Native
  import opened Tracking
  import opened Slots
  import opened BlockScan
  import opened Interpreter
  import opened Exits
  import opened Instructions
  import opened Branches
  import opened Plan
  import opened Compile
  import opened SuperBlock
  import Dce

  // ---- Registers at an exit ------------------------------------------------------------

  lemma FaithfulParts(fetch: bv32 -> Word, slots: SlotMap, m0: Machine, c0: Cpu, x: Exit)
    requires Faithful(fetch, slots, m0, c0, x)
    ensures x.n > 0 && Straight(fetch, c0, x.n)
    ensures x.c == Chain(fetch, c0, x.n) && x.c.cycles == c0.cycles + x.cycles && x.c.branch == 0
    ensures AtHome(x.m, ThinAt(fetch, c0, x.n), Known(fetch, c0.pc, slots, x.n))
    ensures Ld(x.m, CpuPc) == x.c.pc && x.cycles < MAX_CYCLES
    ensures Fixed(x.m) == Fixed(m0).(s2 := Charged(Fixed(m0).s2, x.cycles as bv32))
    ensures x.dest == Dispatch || x.dest == ExitTo(x.m, x.c.pc)
  {
    hide AtHome, Charged, Chain, Fixed, ThinAt, Known, Straight;
  }

  lemma SameAtHome(m: Machine, p: Regs, q: Regs, known: set<Reg>, live: set<Reg>)
    requires AtHome(m, p, known) && live <= known
    ensures AtHome(m, q, live) <==> Dce.SameRegs(p, q, live)
  {
    if AtHome(m, q, live) {
      forall r: Reg | r in live ensures p.r[r] == q.r[r] {
        if r != 0 { assert HeldAt(m, r) == p.r[r] == q.r[r]; }
      }
    }
    if Dce.SameRegs(p, q, live) {
      forall r: Reg | r != 0 && r in live ensures HeldAt(m, r) == q.r[r] {
        assert HeldAt(m, r) == p.r[r];
      }
    }
  }

  /** An exit hands the interpreter's registers over, as far as they are known, exactly where
      skipping the dead words has made no difference. */
  lemma HandOverIsExact(fetch: bv32 -> Word, slots: SlotMap, m0: Machine, c0: Cpu, x: Exit, live: set<Reg>)
    requires Faithful(fetch, slots, m0, c0, x) && live <= Known(fetch, c0.pc, slots, x.n)
    ensures AtHome(x.m, x.c.regs, live) <==> Dce.SameRegs(ThinAt(fetch, c0, x.n), x.c.regs, live)
  {
    hide AtHome, Dce.SameRegs, ThinAt, Known, Faithful;
    FaithfulParts(fetch, slots, m0, c0, x);
    SameAtHome(x.m, ThinAt(fetch, c0, x.n), x.c.regs, Known(fetch, c0.pc, slots, x.n), live);
  }

  /** It hands over every register that liveness leaves to the code after it. */
  lemma LiveHandOver(fetch: bv32 -> Word, slots: SlotMap, m0: Machine, c0: Cpu, x: Exit)
    requires Faithful(fetch, slots, m0, c0, x) && Accepted(fetch, c0.pc, slots, x.n) && c0.regs.r[0] == 0
    ensures AtHome(x.m, x.c.regs, LiveOut(fetch, c0.pc, x.n))
  {
    hide AtHome, Dce.SameRegs, Thin, Known, Faithful, LiveOut, Accepted, Regular, Straight;
    FaithfulParts(fetch, slots, m0, c0, x);
    AcceptedIsRegular(fetch, c0.pc, slots, x.n);
    LiveIsKnown(fetch, c0.pc, slots, x.n);
    ThinFollows(fetch, c0, x.n);
    HandOverIsExact(fetch, slots, m0, c0, x, LiveOut(fetch, c0.pc, x.n));
  }

  // ---- When that is all of them --------------------------------------------------------------

  lemma {:induction false} BranchState(fetch: bv32 -> Word, c0: Cpu, n: nat)
    requires c0.branch == 0 && Straight(fetch, c0, n)
    ensures Chain(fetch, c0, n).branch == 0 ||
            (n > 0 && Chain(fetch, c0, n).branch == 2 && IsBranch(WordAt(fetch, c0.pc, n - 1)))
    decreases n
  {
    hide IsBranch, WordAt, PcAt, Exec, Jumps, JumpTarget, LinkOf, Traps, IsPsxWord, IsAluWord, Add, CycleCost;
    if n > 0 {
      BranchState(fetch, c0, n - 1);
      var c, w := Chain(fetch, c0, n - 1), WordAt(fetch, c0.pc, n - 1);
      assert c.pc == PcAt(c0.pc, n - 1) && !Stops(w, c);
      WordIs(fetch, c0.pc, n - 1);
      AluIsNoBranch(w);
    }
  }

  /** An exit from a branch before the end comes after a delay slot, where all are live. */
  lemma BranchedIsFull(fetch: bv32 -> Word, c0: Cpu, n: nat)
    requires c0.branch == 0 && Straight(fetch, c0, n) && Branched(fetch, c0, n)
    ensures LiveOut(fetch, c0.pc, n) == ALL
  {
    hide IsBranch, WordAt, Chain, LiveBefore, Stops;
    assert Straight(fetch, c0, n - 1);
    BranchState(fetch, c0, n - 1);
  }

  /** At the end of a block shorter than a full super-block all registers are live. */
  lemma EndIsFull(fetch: bv32 -> Word, base: bv32, slots: SlotMap, n: nat)
    requires Ends(fetch, base, slots, n) && n < MAX_SUPER_INSNS
    ensures LiveOut(fetch, base, n) == ALL
  {
    hide IsBranch, WordAt, RunTime, StartOf, Depth, InSlot, BlockAt;
    if !AfterSlot(fetch, base, n) {
      var s := StartOf(fetch, base, n);
      BlockWord(fetch, base, s, 0);
      LivePast(BlockAt(fetch, base, s), n - s);
    }
  }

  /** So the exits of such a block hand over everything. */
  lemma FullHandOver(fetch: bv32 -> Word, slots: SlotMap, m0: Machine, c0: Cpu, words: nat, x: Exit)
    requires Complete(fetch, c0.pc, slots, words) && words < MAX_SUPER_INSNS
    requires Faithful(fetch, slots, m0, c0, x) && x.n <= words && (x.n == words || Branched(fetch, c0, x.n))
    requires c0.branch == 0 && c0.regs.r[0] == 0
    ensures AtHome(x.m, x.c.regs, ALL)
  {
    hide AtHome, Faithful, LiveOut, Ends, Branched, Straight, Declined;
    FaithfulParts(fetch, slots, m0, c0, x);
    LiveHandOver(fetch, slots, m0, c0, x);
    if x.n == words { EndIsFull(fetch, c0.pc, slots, words); } else { BranchedIsFull(fetch, c0, x.n); }
  }

  /** No word of the last sub-block, cut at word n, is dead only because of words after the cut. */
  ghost predicate CutIsHarmless(fetch: bv32 -> Word, base: bv32, n: nat) {
    var s := StartOf(fetch, base, n);
    var block := BlockAt(fetch, base, s);
    n - s <= |block| && forall k :: 0 <= k < n - s && k in DeadSet(block) ==> k in DeadSet(block[..n - s])
  }

  /** Where the length limit cuts a sub-block, the exit still hands over everything if no word
      was dropped for the sake of words beyond the cut. */
  lemma HarmlessCut(fetch: bv32 -> Word, slots: SlotMap, m0: Machine, c0: Cpu, x: Exit)
    requires Faithful(fetch, slots, m0, c0, x) && Accepted(fetch, c0.pc, slots, x.n) && c0.regs.r[0] == 0
    requires CutIsHarmless(fetch, c0.pc, x.n)
    ensures Dce.SameRegs(ThinAt(fetch, c0, x.n), x.c.regs, ALL)
    ensures Known(fetch, c0.pc, slots, x.n) == ALL ==> AtHome(x.m, x.c.regs, ALL)
  {
    hide AtHome, Dce.SameRegs, ThinAt, Faithful, LiveOut, Accepted, Regular, Straight, Chain, CutIsHarmless, StartOf, CutLiveAt,
         Known, Charged, ExitTo, Fixed;
    FaithfulParts(fetch, slots, m0, c0, x);
    AcceptedIsRegular(fetch, c0.pc, slots, x.n);
    ThinToCut(fetch, c0, x.n, x.n - StartOf(fetch, c0.pc, x.n));
    CutLive(fetch, c0.pc, x.n);
    if Known(fetch, c0.pc, slots, x.n) == ALL { HandOverIsExact(fetch, slots, m0, c0, x, ALL); }
  }

  /** The registers live k words into the last sub-block if it is taken to end at word n. */
  function CutLiveAt(fetch: bv32 -> Word, base: bv32, n: nat, k: nat): set<Reg> {
    var s := StartOf(fetch, base, n);
    LiveFrom(BlockAt(fetch, base, s)[..if n - s <= |BlockAt(fetch, base, s)| then n - s else 0], k)
  }

  lemma CutLive(fetch: bv32 -> Word, base: bv32, n: nat)
    ensures CutLiveAt(fetch, base, n, n - StartOf(fetch, base, n)) == ALL
  {
    hide StartOf, BlockAt;
    var s := StartOf(fetch, base, n);
    var cut := BlockAt(fetch, base, s)[..if n - s <= |BlockAt(fetch, base, s)| then n - s else 0];
    LivePast(cut, n - s);
  }

  lemma {:induction false} ThinToCut(fetch: bv32 -> Word, c0: Cpu, n: nat, k: nat)
    requires Regular(fetch, c0.pc, n) && Straight(fetch, c0, n) && c0.regs.r[0] == 0 && CutIsHarmless(fetch, c0.pc, n)
    requires k <= n - StartOf(fetch, c0.pc, n)
    ensures var i := StartOf(fetch, c0.pc, n) + k;
            Dce.SameRegs(ThinAt(fetch, c0, i), Chain(fetch, c0, i).regs, CutLiveAt(fetch, c0.pc, n, k))
    decreases k
  {
    hide Dce.SameRegs, Effect, WordAt, PcAt, InFragment, Stops, Next, IsBranch, DceReads, DceDest, Dead, BlockAt, CutLiveAt,
         StartOf, CutIsHarmless, Regular, Straight, LiveBefore;
    var s := StartOf(fetch, c0.pc, n);
    if k == 0 {
      Shorter(fetch, c0, n, s);
      ThinFollows(fetch, c0, s);
      StartIsFull(fetch, c0.pc, n);
      if s == 0 { AllSame(c0.regs); }
      AllAre(CutLiveAt(fetch, c0.pc, n, 0));
      Dce.Narrow(ThinAt(fetch, c0, s), Chain(fetch, c0, s).regs, ALL, CutLiveAt(fetch, c0.pc, n, 0));
    } else {
      var i := s + k - 1;
      ThinToCut(fetch, c0, n, k - 1);
      Shorter(fetch, c0, n, i + 1);
      CutStep(fetch, c0, n, i);
    }
  }

  lemma Shorter(fetch: bv32 -> Word, c0: Cpu, n: nat, k: nat)
    requires k <= n && Regular(fetch, c0.pc, n) && Straight(fetch, c0, n)
    ensures Regular(fetch, c0.pc, k) && Straight(fetch, c0, k)
  {
    hide InFragment, InSlot, WordAt, Stops, Chain, PcAt;
  }

  /** At the start of a sub-block every register is live. */
  lemma {:induction false} StartIsFull(fetch: bv32 -> Word, base: bv32, n: nat)
    ensures var s := StartOf(fetch, base, n); StartOf(fetch, base, s) == s && (s == 0 || AfterSlot(fetch, base, s))
    decreases n
  {
    hide IsBranch, WordAt;
    if n > 0 && !AfterSlot(fetch, base, n) { StartIsFull(fetch, base, n - 1); }
  }

  lemma {:induction false} StartBetween(fetch: bv32 -> Word, base: bv32, n: nat, i: nat)
    requires StartOf(fetch, base, n) <= i <= n
    ensures StartOf(fetch, base, i) == StartOf(fetch, base, n)
    decreases n
  {
    hide IsBranch, WordAt;
    if i < n { StartBetween(fetch, base, n - 1, i); }
  }

  /** One word of the sub-block that is cut at word n. */
  lemma CutStep(fetch: bv32 -> Word, c0: Cpu, n: nat, i: nat)
    requires Regular(fetch, c0.pc, n) && Straight(fetch, c0, i + 1) && CutIsHarmless(fetch, c0.pc, n)
    requires StartOf(fetch, c0.pc, n) <= i < n
    requires var k := i - StartOf(fetch, c0.pc, n);
             Dce.SameRegs(ThinAt(fetch, c0, i), Chain(fetch, c0, i).regs, CutLiveAt(fetch, c0.pc, n, k))
    ensures var k := i - StartOf(fetch, c0.pc, n);
            Dce.SameRegs(ThinAt(fetch, c0, i + 1), Chain(fetch, c0, i + 1).regs, CutLiveAt(fetch, c0.pc, n, k + 1))
  {
    hide Dce.SameRegs, Effect, WordAt, PcAt, InFragment, Stops, Next, IsBranch, InSlot, DceReads, DceDest, Dead, BlockAt, Chain,
         StartOf, DeadSet, LiveFrom, Straight;
    var s := StartOf(fetch, c0.pc, n);
    var block, k, w, pc := BlockAt(fetch, c0.pc, s), i - s, WordAt(fetch, c0.pc, i), PcAt(c0.pc, i);
    var cut := block[..n - s];
    StartBetween(fetch, c0.pc, n, i);
    BlockWord(fetch, c0.pc, s, k);
    WordSuits(cut, k, w);
    ChainEffect(fetch, c0, i);
    var p, q, after := ThinAt(fetch, c0, i), Chain(fetch, c0, i).regs, CutLiveAt(fetch, c0.pc, n, k + 1);
    if k in DeadSet(cut) {
      DeadEffect(w, pc, p, q, after);
      DeadEffect(w, pc, Effect(w, pc, p), q, after);
    } else {
      EffectAligns(w, pc, p, q, CutLiveAt(fetch, c0.pc, n, k), after);
    }
  }

  // ---- What becomes of a register that the cut loses ---------------------------------------

  lemma {:induction false} StartInside(fetch: bv32 -> Word, base: bv32, s: nat, i: nat)
    requires StartOf(fetch, base, s) == s && (s == 0 || AfterSlot(fetch, base, s))
    requires Regular(fetch, base, i) && s <= i < s + |BlockAt(fetch, base, s)|
    ensures StartOf(fetch, base, i) == s
    decreases i
  {
    hide WordAt, IsBranch, InFragment, BlockAt;
    if i > s {
      RegularBefore(fetch, base, i - 1);
      StartInside(fetch, base, s, i - 1);
      if AfterSlot(fetch, base, i) && i - 2 >= s { SlotIsLast(fetch, base, s, i - 2 - s); }
    }
  }

  /** Where a sub-block ends every register is live. */
  lemma SubBlockEnd(fetch: bv32 -> Word, base: bv32, n: nat)
    requires var s := StartOf(fetch, base, n); Regular(fetch, base, s + |BlockAt(fetch, base, s)|)
    ensures var s := StartOf(fetch, base, n); LiveOut(fetch, base, s + |BlockAt(fetch, base, s)|) == ALL
  {
    hide WordAt, IsBranch, InFragment, BlockAt, AfterSlot, InSlot;
    var s := StartOf(fetch, base, n);
    var block := BlockAt(fetch, base, s);
    var end := s + |block|;
    StartIsFull(fetch, base, n);
    if !AfterSlot(fetch, base, end) && |block| > 0 {
      RegularBefore(fetch, base, end - 1);
      StartInside(fetch, base, s, end - 1);
      LivePast(block, |block|);
    } else if |block| == 0 {
      LivePast(block, 0);
    }
  }

  lemma {:induction false} PcJoins(pc: bv32, n: nat, k: nat)
    ensures PcAt(PcAt(pc, n), k) == PcAt(pc, n + k)
    decreases k
  {
    hide Add;
    if k > 0 { PcJoins(pc, n, k - 1); }
  }

  /** The interpreter goes the same way with other registers that decide alike. */
  lemma NextOnlyRegs(w: Word, c: Cpu, q: Regs)
    requires InFragment(w)
    requires IsBranch(w) ==>
      Jumps(w, q) == Jumps(w, c.regs) && JumpTarget(w, q, Add(c.pc, 4)) == JumpTarget(w, c.regs, Add(c.pc, 4))
    ensures Next(w, c.(regs := q)) == Next(w, c).(regs := Effect(w, c.pc, q))
  {
    hide Next, IsPsxWord, IsAluWord, IsBranch, Jumps, JumpTarget, Effect, Add;
    if IsAluWord(w) { AluOnlyRegs(w, c, q); } else { BranchOnlyRegs(w, c, q); }
  }

  lemma AluOnlyRegs(w: Word, c: Cpu, q: Regs)
    requires InFragment(w) && IsAluWord(w)
    ensures Next(w, c.(regs := q)) == Next(w, c).(regs := Effect(w, c.pc, q))
  {
    hide Exec, IsAluWord, IsPsxWord, CycleCost, Add;
  }

  lemma BranchOnlyRegs(w: Word, c: Cpu, q: Regs)
    requires InFragment(w) && !IsAluWord(w)
    requires Jumps(w, q) == Jumps(w, c.regs) && JumpTarget(w, q, Add(c.pc, 4)) == JumpTarget(w, c.regs, Add(c.pc, 4))
    ensures Next(w, c.(regs := q)) == Next(w, c).(regs := Effect(w, c.pc, q))
  {
    hide *;
    BranchNext(w, c);
    BranchNext(w, c.(regs := q));
    SettledRegs(w, c, c.regs, q, Effect(w, c.pc, q));
  }

  /** A branch in the interpreter: all but the registers is the same for all that decide alike. */
  lemma BranchNext(w: Word, c: Cpu)
    requires InFragment(w) && !IsAluWord(w)
    ensures Next(w, c) == Settle(PastBranch(w, c, c.regs)).(regs := Effect(w, c.pc, c.regs))
  {
    hide IsPsxWord, IsAluWord, IsBranch, Jumps, JumpTarget, LinkOf, CycleCost, Write, Add;
    AddEight(c.pc);
  }

  /** c past the branch w, deciding by q. */
  function PastBranch(w: Word, c: Cpu, q: Regs): Cpu
    requires InFragment(w) && !IsAluWord(w)
  {
    var next := Add(c.pc, 4);
    var c1 := c.(pc := next, cycles := c.cycles + CycleCost(w));
    if Jumps(w, q) then c1.(branch := 1, target := JumpTarget(w, q, next)) else c1
  }

  lemma SettledRegs(w: Word, c: Cpu, p: Regs, q: Regs, z: Regs)
    requires InFragment(w) && !IsAluWord(w)
    requires Jumps(w, q) == Jumps(w, p) && JumpTarget(w, q, Add(c.pc, 4)) == JumpTarget(w, p, Add(c.pc, 4))
    ensures Settle(PastBranch(w, c.(regs := q), q)).(regs := z) == Settle(PastBranch(w, c, p)).(regs := z)
  {
    hide *;
    PastAlike(w, c, p, q);
    SettleAlike(PastBranch(w, c.(regs := q), q), PastBranch(w, c, p), z);
  }

  /** a and b differ in their registers only. */
  predicate Alike(a: Cpu, b: Cpu) {
    a.pc == b.pc && a.target == b.target && a.branch == b.branch && a.cycles == b.cycles
  }

  lemma PastAlike(w: Word, c: Cpu, p: Regs, q: Regs)
    requires InFragment(w) && !IsAluWord(w)
    requires Jumps(w, q) == Jumps(w, p) && JumpTarget(w, q, Add(c.pc, 4)) == JumpTarget(w, p, Add(c.pc, 4))
    ensures Alike(PastBranch(w, c.(regs := q), q), PastBranch(w, c, p))
  {
    hide IsPsxWord, IsAluWord, IsBranch, Jumps, JumpTarget, CycleCost, Add;
  }

  lemma SettleAlike(a: Cpu, b: Cpu, z: Regs)
    requires Alike(a, b)
    ensures Settle(a).(regs := z) == Settle(b).(regs := z)
  {
  }

  lemma NextAligns(w: Word, c: Cpu, q: Regs, live: set<Reg>, after: set<Reg>, dead: bool)
    requires InFragment(w) && Suits(w, dead, live, after) && Dce.SameRegs(q, c.regs, live)
    ensures var c', d := Next(w, c), Next(w, c.(regs := q));
            d == c'.(regs := d.regs) && Dce.SameRegs(d.regs, c'.regs, after)
  {
    hide Dce.SameRegs, Effect, Next, IsPsxWord, IsAluWord, IsBranch, Jumps, JumpTarget, Add, DceReads, DceDest, Dead;
    NextEffect(w, c);
    if dead {
      BranchNotDead(w, after, live);
      DeadEffect(w, c.pc, q, c.regs, after);
      DeadEffect(w, c.pc, Effect(w, c.pc, q), c.regs, after);
    } else {
      EffectAligns(w, c.pc, q, c.regs, live, after);
    }
    NextOnlyRegs(w, c, q);
  }

  /** One instruction of the interpreter that does not stop it. */
  lemma ChainNext(fetch: bv32 -> Word, c0: Cpu, n: nat, w: Word)
    requires Straight(fetch, c0, n + 1) && w == WordAt(fetch, c0.pc, n)
    ensures var c := Chain(fetch, c0, n);
            c.pc == PcAt(c0.pc, n) && InFragment(w) && Chain(fetch, c0, n + 1) == Next(w, c)
  {
    hide WordAt, PcAt, Next, InFragment;
    WordIs(fetch, c0.pc, n);
    assert Chain(fetch, c0, n).pc == PcAt(c0.pc, n) && !Stops(w, Chain(fetch, c0, n));
  }

  /** The interpreter run from word n on with other registers: as far as it is not stopped, it
      stays alike in all that is live. */
  lemma {:induction false} RunsAlike(fetch: bv32 -> Word, c0: Cpu, n: nat, q: Regs, i: nat)
    requires n <= i && Regular(fetch, c0.pc, i) && Straight(fetch, c0, i) && Chain(fetch, c0, n).pc == PcAt(c0.pc, n)
    requires Dce.SameRegs(q, Chain(fetch, c0, n).regs, LiveOut(fetch, c0.pc, n))
    requires Straight(fetch, Chain(fetch, c0, n).(regs := q), i - n)
    ensures var c, d := Chain(fetch, c0, i), Chain(fetch, Chain(fetch, c0, n).(regs := q), i - n);
            d == c.(regs := d.regs) && Dce.SameRegs(d.regs, c.regs, LiveOut(fetch, c0.pc, i))
    decreases i
  {
    hide Dce.SameRegs, WordAt, PcAt, LiveOut, LiveBefore, InFragment, Stops, Next, IsBranch, InSlot, Suits, DeadAt, Regular,
         Straight, Chain;
    var c1 := Chain(fetch, c0, n).(regs := q);
    if i > n {
      var k := i - 1 - n;
      RegularBefore(fetch, c0.pc, i - 1);
      StraightShorter(fetch, c0, i, i - 1);
      StraightShorter(fetch, c1, k + 1, k);
      RunsAlike(fetch, c0, n, q, i - 1);
      var w := WordAt(fetch, c0.pc, i - 1);
      SameWord(fetch, c0.pc, n, k);
      ChainNext(fetch, c0, i - 1, w);
      ChainNext(fetch, c1, k, w);
      LiveStep(fetch, c0.pc, i - 1);
      var c, d := Chain(fetch, c0, i - 1), Chain(fetch, c1, k);
      Dce.Narrow(d.regs, c.regs, LiveOut(fetch, c0.pc, i - 1), LiveBefore(fetch, c0.pc, i - 1));
      NextAligns(w, c, d.regs, LiveBefore(fetch, c0.pc, i - 1), LiveOut(fetch, c0.pc, i), DeadAt(fetch, c0.pc, i - 1));
    } else {
      NoInstruction(fetch, c1);
    }
  }

  lemma NoInstruction(fetch: bv32 -> Word, c: Cpu)
    ensures Chain(fetch, c, 0) == c
  {
  }

  lemma SameWord(fetch: bv32 -> Word, pc: bv32, n: nat, k: nat)
    ensures WordAt(fetch, PcAt(pc, n), k) == WordAt(fetch, pc, n + k)
  {
    hide PcAt;
    PcJoins(pc, n, k);
  }

  lemma StraightShorter(fetch: bv32 -> Word, c: Cpu, n: nat, k: nat)
    requires k <= n && Straight(fetch, c, n)
    ensures Straight(fetch, c, k)
  {
    hide Stops, Chain;
  }

  /** A register that the cut at word n loses is written before it is read: whatever it holds,
      the words up to the end of the sub-block lead to the interpreter's own state, unless one
      of them stops a run. */
  lemma CutHeals(fetch: bv32 -> Word, c0: Cpu, n: nat, q: Regs)
    requires var s := StartOf(fetch, c0.pc, n);
             var end := s + |BlockAt(fetch, c0.pc, s)|;
             n <= end && Regular(fetch, c0.pc, end) && Straight(fetch, c0, end) &&
             Straight(fetch, Chain(fetch, c0, n).(regs := q), end - n)
    requires Chain(fetch, c0, n).pc == PcAt(c0.pc, n)
    requires Dce.SameRegs(q, Chain(fetch, c0, n).regs, LiveOut(fetch, c0.pc, n))
    ensures var s := StartOf(fetch, c0.pc, n);
            var end := s + |BlockAt(fetch, c0.pc, s)|;
            Chain(fetch, Chain(fetch, c0, n).(regs := q), end - n) == Chain(fetch, c0, end)
  {
    hide Dce.SameRegs, BlockAt, LiveOut, Regular, Straight, Chain, PcAt, StartOf;
    var s := StartOf(fetch, c0.pc, n);
    var end := s + |BlockAt(fetch, c0.pc, s)|;
    RunsAlike(fetch, c0, n, q, end);
    SubBlockEnd(fetch, c0.pc, n);
    AllAlike(Chain(fetch, Chain(fetch, c0, n).(regs := q), end - n).regs, Chain(fetch, c0, end).regs);
  }

  lemma AllAlike(p: Regs, q: Regs)
    requires Dce.SameRegs(p, q, ALL)
    ensures p == q
  {
    assert forall r: Reg :: r in ALL;
    assert p.r == q.r;
  }

  // ---- From block to block -----------------------------------------------------------------

  /** A linked block may be entered where a faithful exit leaves; the exit goes there
      unless the cycles are spent. */
  lemma ExitIsEntry(fetch: bv32 -> Word, slots: SlotMap, m0: Machine, c0: Cpu, x: Exit)
    requires Faithful(fetch, slots, m0, c0, x) && Accepted(fetch, c0.pc, slots, x.n) && c0.regs.r[0] == 0
    requires LiveOut(fetch, c0.pc, x.n) == ALL
    ensures AtHome(x.m, x.c.regs, ALL) && x.c.branch == 0 && Ld(x.m, CpuPc) == x.c.pc
    ensures x.dest.LinkTo? ==> x.dest.pc == x.c.pc && !Spent(x.m.gpr[S2])
    ensures x.dest == Abort ==> Spent(x.m.gpr[S2])
  {
    hide AtHome, Faithful, Chain, Straight, LiveOut, Accepted;
    FaithfulParts(fetch, slots, m0, c0, x);
    LiveHandOver(fetch, slots, m0, c0, x);
  }

  /** One block of a run through several. */
  datatype Hop = Hop(slots: SlotMap, exit: Exit)

  /** Each block is entered with the machine and the interpreter that the one before left. */
  ghost predicate Linked(fetch: bv32 -> Word, m0: Machine, c0: Cpu, hops: seq<Hop>)
    decreases |hops|
  {
    hops == [] ||
    (Faithful(fetch, hops[0].slots, m0, c0, hops[0].exit) &&
     Linked(fetch, hops[0].exit.m, hops[0].exit.c, hops[1..]))
  }

  function Executed(hops: seq<Hop>): nat {
    if hops == [] then 0 else hops[0].exit.n + Executed(hops[1..])
  }

  function CyclesOf(hops: seq<Hop>): nat {
    if hops == [] then 0 else hops[0].exit.cycles + CyclesOf(hops[1..])
  }

  /** The cycle counter after all of them. */
  function ChargedAll(s2: bv32, hops: seq<Hop>): bv32
    decreases |hops|
  {
    if hops == [] then s2 else ChargedAll(Charged(s2, LowWord(hops[0].exit.cycles)), hops[1..])
  }

  function LowWord(n: nat): bv32 { (n % 0x1_0000_0000) as bv32 }

  /** However many blocks run one after the other, the interpreter has executed their
      instructions in one go, and both cycle counts add up. */
  lemma {:induction false} LinkedRun(fetch: bv32 -> Word, m0: Machine, c0: Cpu, hops: seq<Hop>)
    requires hops != [] && Linked(fetch, m0, c0, hops)
    ensures var x := hops[|hops| - 1].exit;
            x.c == Chain(fetch, c0, Executed(hops)) && x.c.cycles == c0.cycles + CyclesOf(hops) &&
            Ld(x.m, CpuPc) == x.c.pc && Fixed(x.m) == Fixed(m0).(s2 := ChargedAll(Fixed(m0).s2, hops))
    decreases |hops|
  {
    hide AtHome, Faithful, Chain, Charged, Fixed, Straight, ThinAt, Known, ExitTo;
    var x, rest := hops[0].exit, hops[1..];
    FaithfulParts(fetch, hops[0].slots, m0, c0, x);
    if rest == [] {
      assert x.n + Executed(rest) == x.n;
    } else {
      LinkedRun(fetch, x.m, x.c, rest);
      ChainJoins(fetch, c0, x.n, Executed(rest));
      assert rest[|rest| - 1] == hops[|hops| - 1];
    }
  }

  // ---- Blocks without stale scratch registers ---------------------------------------------------

  /** Which registers have a home is a matter of the first sub-block alone: the pinned ones, and
      those named twice in it with fewer than eight ahead of them. */
  lemma HomeByRank(fetch: bv32 -> Word, base: bv32, slots: SlotMap, r: Reg)
    requires slots.Valid() && SlotsFit(fetch, base, slots)
    ensures var uses := UsesOf(BlockAt(fetch, base, 0));
            !Plain(slots.Homes(), r) <==>
            r == 0 || Pinned(r) != 0 || (Score(uses, r) >= 2 && |Preceding(uses, r)| < SLOTS)
  {
    hide slots.Valid, Score, Preceding, UsesOf, IsAssignment;
    slots.HomesValid();
    SlotByRank(UsesOf(BlockAt(fetch, base, 0)), slots, r);
  }

  /** The unpinned registers that the block names at least twice. */
  ghost function Busy(block: seq<Word>): set<Reg> {
    set r: Reg | Score(UsesOf(block), r) >= 2
  }

  /** A block needs eight registers at most: all that it names are pinned or named at least
      twice in its first sub-block, and there are no more than eight of the latter.  Then no
      scratch register is ever stale. */
  lemma FewRegisters(fetch: bv32 -> Word, base: bv32, slots: SlotMap, n: nat)
    requires slots.Valid() && SlotsFit(fetch, base, slots) && |Busy(BlockAt(fetch, base, 0))| <= SLOTS
    requires forall i, r: Reg :: 0 <= i < n && r in Accesses(WordAt(fetch, base, i)) ==>
      r == 0 || Pinned(r) != 0 || r in Busy(BlockAt(fetch, base, 0))
    ensures HomedBlock(slots.Homes(), fetch, base, n) && !Reuses(fetch, base, slots, n)
  {
    hide slots.Valid, slots.Homes, WordAt, Accesses, SlotsFit, Walk, BlockAt, Score, UsesOf;
    var block := BlockAt(fetch, base, 0);
    forall i, r: Reg | 0 <= i < n && r in Accesses(WordAt(fetch, base, i)) ensures !Plain(slots.Homes(), r) {
      if r in Busy(block) { FewAhead(UsesOf(block), r, Busy(block)); }
      HomeByRank(fetch, base, slots, r);
    }
    HomedNeverReuses(fetch, base, slots, n);
  }

  lemma FewAhead(uses: UseCounts, r: Reg, busy: set<Reg>)
    requires busy == (set q: Reg | Score(uses, q) >= 2) && r in busy
    ensures |Preceding(uses, r)| < |busy|
  {
    hide Score;
    forall q: Reg | Beats(uses, q, r) ensures q in busy - {r} { }
    Subset(Preceding(uses, r), busy - {r});
  }
}
