/** What compile_block does with the words of a block before any code runs: the sub-blocks,
    the dead words, the register tables word by word, and where it stops.  All of it is a
    function of the words and of the slots assigned, so a caller can work it out beforehand.

    Beside it stands what the emitted code leaves in the registers: `Thin`, the run that
    skips dead words, and `Known`, the registers in which its result can be relied on. */
module Plan {
  import opened Mips
  import opened Psx
  import opened Tracking
  import opened Slots
  import opened BlockScan
  import opened Interpreter
  import opened Exits
  import opened Instructions
  import opened Branches
  import Dce

  const MAX_CONTINUATIONS := 3
  const MAX_SUPER_INSNS := 200

  /** The address of the n-th word after pc. */
  function PcAt(pc: bv32, n: nat): bv32 {
    if n == 0 then pc else Add(PcAt(pc, n - 1), 4)
  }

  function WordAt(fetch: bv32 -> Word, base: bv32, n: nat): Word {
    fetch(PcAt(base, n))
  }

  // ---- Sub-blocks --------------------------------------------------------------------

  predicate InSlot(fetch: bv32 -> Word, base: bv32, n: nat) {
    n >= 1 && IsBranch(WordAt(fetch, base, n - 1))
  }

  /** Word n comes right after a delay slot. */
  predicate AfterSlot(fetch: bv32 -> Word, base: bv32, n: nat) {
    n >= 2 && IsBranch(WordAt(fetch, base, n - 2))
  }

  /** The first word of the sub-block that word n is in. */
  function StartOf(fetch: bv32 -> Word, base: bv32, n: nat): (s: nat)
    ensures s <= n
  {
    if n == 0 || AfterSlot(fetch, base, n) then n else StartOf(fetch, base, n - 1)
  }

  /** How many branches the path has gone past before that sub-block. */
  function Depth(fetch: bv32 -> Word, base: bv32, n: nat): nat {
    if n == 0 then 0 else Depth(fetch, base, n - 1) + if AfterSlot(fetch, base, n) then 1 else 0
  }

  function WordsFrom(fetch: bv32 -> Word, base: bv32, n: nat): seq<Word> {
    seq(SCAN_MAX, k requires 0 <= k < SCAN_MAX => WordAt(fetch, base, n + k))
  }

  /** The words that block_scan takes from word s on. */
  function BlockAt(fetch: bv32 -> Word, base: bv32, s: nat): seq<Word> {
    WordsFrom(fetch, base, s)[..Extent(WordsFrom(fetch, base, s), SCAN_MAX, 0)]
  }

  predicate DeadAt(fetch: bv32 -> Word, base: bv32, n: nat) {
    var s := StartOf(fetch, base, n);
    n - s in DeadSet(BlockAt(fetch, base, s))
  }

  function LiveFrom(block: seq<Word>, k: nat): set<Reg> {
    if k <= |block| then LiveAt(block, k) else ALL
  }

  /** The registers that liveness lets the first n words leave behind. */
  function LiveOut(fetch: bv32 -> Word, base: bv32, n: nat): set<Reg> {
    if AfterSlot(fetch, base, n) then ALL else LiveBefore(fetch, base, n)
  }

  function LiveBefore(fetch: bv32 -> Word, base: bv32, n: nat): set<Reg> {
    var s := StartOf(fetch, base, n);
    LiveFrom(BlockAt(fetch, base, s), n - s)
  }

  // ---- Slots -----------------------------------------------------------------------------

  function UsesOf(block: seq<Word>): UseCounts {
    seq(32, r requires 0 <= r < 32 => Capped(Uses(block, |block|, r)))
  }

  /** The slots are those of the registers used most in the first sub-block. */
  ghost predicate SlotsFit(fetch: bv32 -> Word, base: bv32, slots: SlotMap) {
    IsAssignment(UsesOf(BlockAt(fetch, base, 0)), slots)
  }

  /** Every register that w names has a home. */
  ghost predicate HomedWord(home: HomeMap, w: Word) {
    forall r: Reg :: r in Accesses(w) ==> !Plain(home, r)
  }

  /** So has every register that the first n words from base name. */
  ghost predicate HomedBlock(home: HomeMap, fetch: bv32 -> Word, base: bv32, n: nat) {
    forall i :: 0 <= i < n ==> HomedWord(home, WordAt(fetch, base, i))
  }

  // ---- Register tables ----------------------------------------------------------------------

  ghost function WriteFirstSet(block: seq<Word>): set<Reg> {
    set r: Reg | WriteFirst(block, |block|, r)
  }

  /** The tables after one word at pc. */
  function AfterWord(v: View, w: Word, pc: bv32, dead: bool): (v': View)
    ensures Succeeds(v, v')
  {
    if dead then v.Forget(DceDest(w))
    else if !InFragment(w) then v
    else if IsAluWord(w) then After(v, w)
    else AfterBranch(v, w, pc)
  }

  /** The tables after the first n words. */
  ghost function Walk(fetch: bv32 -> Word, base: bv32, slots: SlotMap, n: nat): (v: View)
    ensures v.home == slots.Homes()
  {
    if n == 0 then Entered(slots, WriteFirstSet(BlockAt(fetch, base, 0)))
    else
      AfterWord(Walk(fetch, base, slots, n - 1), WordAt(fetch, base, n - 1), PcAt(base, n - 1), DeadAt(fetch, base, n - 1))
  }

  /** Among the first n words one reads a stale scratch register. */
  ghost predicate Reuses(fetch: bv32 -> Word, base: bv32, slots: SlotMap, n: nat) {
    Walk(fetch, base, slots, n).misread
  }

  /** Word k is a branch that is decided at run time. */
  ghost predicate RunTime(fetch: bv32 -> Word, base: bv32, slots: SlotMap, k: nat) {
    var w := WordAt(fetch, base, k);
    w.I? && IsBranch(w) && !IsFolded(Walk(fetch, base, slots, k), w)
  }

  /** The super-block ends after n words: with a jump, a branch beyond the continuations, or
      where the sub-block or the super-block is full. */
  ghost predicate Ends(fetch: bv32 -> Word, base: bv32, slots: SlotMap, n: nat) {
    if AfterSlot(fetch, base, n) then
      !RunTime(fetch, base, slots, n - 2) || Depth(fetch, base, n) > MAX_CONTINUATIONS || n >= MAX_SUPER_INSNS
    else
      n > 0 && !InSlot(fetch, base, n) &&
      (n - StartOf(fetch, base, n) >= SCAN_MAX || n >= MAX_SUPER_INSNS)
  }

  /** It ends nowhere before n. */
  ghost predicate GoesOn(fetch: bv32 -> Word, base: bv32, slots: SlotMap, n: nat) {
    forall i :: 0 < i < n ==> !Ends(fetch, base, slots, i)
  }

  /** Why a block is not compiled here: word n is an instruction outside the fragment, a
      branch in the delay slot of another, or an ADD, SUB or ADDI whose operands are constants
      that overflow, where every run that comes to it ends in an exception. */
  ghost predicate Declined(fetch: bv32 -> Word, base: bv32, slots: SlotMap, n: nat) {
    var w := WordAt(fetch, base, n);
    !InFragment(w) || (InSlot(fetch, base, n) && IsBranch(w)) ||
    (!DeadAt(fetch, base, n) && KnownOverflow(Walk(fetch, base, slots, n), w))
  }

  ghost predicate Accepted(fetch: bv32 -> Word, base: bv32, slots: SlotMap, n: nat) {
    forall i :: 0 <= i < n ==> !Declined(fetch, base, slots, i)
  }

  /** The block is n words long. */
  ghost predicate Complete(fetch: bv32 -> Word, base: bv32, slots: SlotMap, n: nat) {
    Accepted(fetch, base, slots, n) && Ends(fetch, base, slots, n) && GoesOn(fetch, base, slots, n)
  }

  /** The first word declined comes before the block ends. */
  ghost predicate Refused(fetch: bv32 -> Word, base: bv32, slots: SlotMap, n: nat) {
    Declined(fetch, base, slots, n) && Accepted(fetch, base, slots, n) && GoesOn(fetch, base, slots, n + 1)
  }

  // ---- Running along the words ------------------------------------------------------------

  /** The interpreter's first n instructions are the words from its pc on, in order, and
      none of them stops it. */
  ghost predicate Straight(fetch: bv32 -> Word, c0: Cpu, n: nat) {
    forall j :: 0 <= j < n ==>
      Chain(fetch, c0, j).pc == PcAt(c0.pc, j) && !Stops(WordAt(fetch, c0.pc, j), Chain(fetch, c0, j))
  }

  /** Among its first n instructions, all of them words in order, the interpreter comes to
      one that stops it. */
  ghost predicate StopsInside(fetch: bv32 -> Word, c0: Cpu, n: nat) {
    exists i :: 0 <= i < n && StopsAt(fetch, c0, i)
  }

  ghost predicate StopsAt(fetch: bv32 -> Word, c0: Cpu, i: nat) {
    Straight(fetch, c0, i) && Chain(fetch, c0, i).pc == PcAt(c0.pc, i) &&
    Stops(WordAt(fetch, c0.pc, i), Chain(fetch, c0, i))
  }

  /** The n-th instruction is the delay slot of a branch that the interpreter takes. */
  ghost predicate Branched(fetch: bv32 -> Word, c0: Cpu, n: nat) {
    n > 0 && Chain(fetch, c0, n - 1).branch == 2
  }

  /** What w at pc does to the registers. */
  function Effect(w: Word, pc: bv32, p: Regs): Regs {
    if !InFragment(w) then p
    else if IsAluWord(w) then Exec(w, p)
    else Write(p, LinkOf(w), Add(pc, 8))
  }

  /** The registers after the first n words when dead ones are skipped. */
  function Thin(fetch: bv32 -> Word, base: bv32, n: nat, p: Regs): Regs {
    if n == 0 then p
    else
      var q := Thin(fetch, base, n - 1, p);
      if DeadAt(fetch, base, n - 1) then q else Effect(WordAt(fetch, base, n - 1), PcAt(base, n - 1), q)
  }

  /** The same from the interpreter's state c0. */
  function ThinAt(fetch: bv32 -> Word, c0: Cpu, n: nat): Regs {
    Thin(fetch, c0.pc, n, c0.regs)
  }

  /** A dead word takes the pending constant of its destination along, and nothing then says
      what is in the register. */
  ghost function Known(fetch: bv32 -> Word, base: bv32, slots: SlotMap, n: nat): set<Reg> {
    if n == 0 then ALL
    else
      var before, d := Known(fetch, base, slots, n - 1), DceDest(WordAt(fetch, base, n - 1));
      if !DeadAt(fetch, base, n - 1) then before + {d}
      else if Walk(fetch, base, slots, n - 1).vregs[d].Lazy() then before - {d}
      else before
  }

  // ---- Liveness along the words -----------------------------------------------------------

  /** Every word is in the fragment, and no delay slot holds a branch. */
  ghost predicate Regular(fetch: bv32 -> Word, base: bv32, n: nat) {
    forall i :: 0 <= i < n ==>
      InFragment(WordAt(fetch, base, i)) && !(InSlot(fetch, base, i) && IsBranch(WordAt(fetch, base, i)))
  }

  lemma AcceptedIsRegular(fetch: bv32 -> Word, base: bv32, slots: SlotMap, n: nat)
    requires Accepted(fetch, base, slots, n)
    ensures Regular(fetch, base, n)
  {
    hide WordAt, InSlot, DeadAt, KnownOverflow, Walk, InFragment;
    forall i | 0 <= i < n
      ensures InFragment(WordAt(fetch, base, i)) && !(InSlot(fetch, base, i) && IsBranch(WordAt(fetch, base, i)))
    {
      assert !Declined(fetch, base, slots, i);
    }
  }

  /** w suits what is live before and after it. */
  ghost predicate Suits(w: Word, dead: bool, before: set<Reg>, after: set<Reg>) {
    if dead then Dead(w, after) && before == after
    else after - {DceDest(w)} <= before && DceReads(w) <= before
  }

  lemma WordSuits(block: seq<Word>, k: nat, w: Word)
    requires k < |block| ==> block[k] == w
    ensures Suits(w, k in DeadSet(block), LiveFrom(block, k), LiveFrom(block, k + 1))
  {
    hide LiveAt, Dead;
    if k < |block| {
      LiveAtStep(block, k);
      BeforeSuits(w, LiveAt(block, k + 1));
    } else if k == |block| {
      LiveAtEnd(block);
    }
  }

  lemma BeforeSuits(w: Word, after: set<Reg>)
    ensures Suits(w, Dead(w, after), Before(w, after), after)
  {
  }

  /** Nothing of a sub-block follows the delay slot of its branch. */
  lemma SlotIsLast(fetch: bv32 -> Word, base: bv32, s: nat, k: nat)
    requires IsBranch(WordAt(fetch, base, s + k))
    ensures |BlockAt(fetch, base, s)| <= k + 2
  {
    hide WordAt, IsBranch, IsTrap;
    var ws := WordsFrom(fetch, base, s);
    if k < SCAN_MAX {
      assert ws[k] == WordAt(fetch, base, s + k);
      BranchBounds(ws, 0, k);
    }
  }

  lemma {:induction false} BranchBounds(ws: seq<Word>, i: nat, k: nat)
    requires |ws| == SCAN_MAX && i <= k < SCAN_MAX && IsBranch(ws[k])
    ensures Extent(ws, SCAN_MAX, i) <= k + 2
    decreases SCAN_MAX - i
  {
    hide IsBranch, IsTrap;
    if i < k { BranchBounds(ws, i + 1, k); }
  }

  /** Liveness fits together at every word, across sub-blocks too. */
  lemma LiveStep(fetch: bv32 -> Word, base: bv32, n: nat)
    requires Regular(fetch, base, n + 1)
    ensures Suits(WordAt(fetch, base, n), DeadAt(fetch, base, n), LiveBefore(fetch, base, n), LiveOut(fetch, base, n + 1))
    ensures LiveBefore(fetch, base, n) <= LiveOut(fetch, base, n)
    ensures IsBranch(WordAt(fetch, base, n)) ==> !DeadAt(fetch, base, n)
  {
    hide WordAt, IsBranch, InFragment, Suits, LiveFrom, DeadSet, BlockAt;
    var s := StartOf(fetch, base, n);
    var block, k, w := BlockAt(fetch, base, s), n - s, WordAt(fetch, base, n);
    BlockWord(fetch, base, s, k);
    WordSuits(block, k, w);
    if AfterSlot(fetch, base, n + 1) {
      assert !(InSlot(fetch, base, n) && IsBranch(WordAt(fetch, base, n)));
      PastSlot(fetch, base, n);
    }
    BranchNotDead(w, LiveFrom(block, k + 1), LiveFrom(block, k));
  }

  lemma BlockWord(fetch: bv32 -> Word, base: bv32, s: nat, k: nat)
    ensures |BlockAt(fetch, base, s)| <= SCAN_MAX
    ensures k < |BlockAt(fetch, base, s)| ==> BlockAt(fetch, base, s)[k] == WordAt(fetch, base, s + k)
  {
    hide WordAt, Extent;
  }

  /** After a delay slot nothing of its sub-block is left. */
  lemma PastSlot(fetch: bv32 -> Word, base: bv32, n: nat)
    requires Regular(fetch, base, n + 1) && AfterSlot(fetch, base, n + 1)
    ensures var s := StartOf(fetch, base, n); LiveFrom(BlockAt(fetch, base, s), n + 1 - s) == ALL
  {
    hide WordAt, IsBranch, InFragment, BlockAt;
    var s := StartOf(fetch, base, n);
    assert IsBranch(WordAt(fetch, base, n - 1)) && InSlot(fetch, base, n);
    NotBoth(fetch, base, n);
    SlotIsLast(fetch, base, s, n - 1 - s);
    LivePast(BlockAt(fetch, base, s), n + 1 - s);
  }

  /** Two words in a row are not both branches. */
  lemma NotBoth(fetch: bv32 -> Word, base: bv32, n: nat)
    requires Regular(fetch, base, n) && InSlot(fetch, base, n)
    ensures !AfterSlot(fetch, base, n) && StartOf(fetch, base, n) < n
  {
    hide WordAt, IsBranch, InFragment;
    var m := n - 1;
    assert InFragment(WordAt(fetch, base, m));
  }

  lemma LivePast(block: seq<Word>, k: nat)
    requires |block| <= k
    ensures LiveFrom(block, k) == ALL
  {
    if k == |block| { LiveAtEnd(block); }
  }

  lemma BranchNotDead(w: Word, after: set<Reg>, before: set<Reg>)
    ensures IsBranch(w) ==> !Dead(w, after)
    ensures IsBranch(w) ==> !Suits(w, true, before, after)
  {
  }

  // ---- The thin run and the interpreter ------------------------------------------------------

  /** A word does the same to registers that are alike where it matters. */
  lemma EffectAligns(w: Word, pc: bv32, p: Regs, q: Regs, live: set<Reg>, after: set<Reg>)
    requires InFragment(w) && Dce.SameRegs(p, q, live) && DceReads(w) <= live && after - {DceDest(w)} <= live
    ensures Dce.SameRegs(Effect(w, pc, p), Effect(w, pc, q), after)
    ensures IsAluWord(w) ==> Traps(w, p) == Traps(w, q)
    ensures IsBranch(w) ==> Jumps(w, p) == Jumps(w, q) && JumpTarget(w, p, Add(pc, 4)) == JumpTarget(w, q, Add(pc, 4))
  {
    hide Dce.SameRegs, IsPsxWord, IsAluWord, IsBranch, Exec, Traps, Jumps, JumpTarget, DceReads, DceDest, Add;
    if IsAluWord(w) {
      AluIsNoBranch(w);
      Dce.AluAligns(w, p, q, live, after);
    } else {
      Dce.BranchAligns(w, pc, p, q, live, after);
    }
  }

  lemma AluIsNoBranch(w: Word)
    ensures IsAluWord(w) ==> !IsBranch(w)
  {
  }

  /** A dead word changes a register that does not matter. */
  lemma DeadEffect(w: Word, pc: bv32, p: Regs, q: Regs, live: set<Reg>)
    requires InFragment(w) && Dead(w, live) && Dce.SameRegs(p, q, live)
    ensures Dce.SameRegs(Effect(w, pc, p), q, live) && Dce.SameRegs(p, Effect(w, pc, q), live)
  {
    hide Dce.SameRegs, Exec, IsPsxWord, IsAluWord, IsBranch, DceDest, DcePure;
    BranchNotDead(w, live, live);
    var x := Dce.ExecWrites(w, p);
    var y := Dce.ExecWrites(w, q);
    Dce.WriteDead(p, q, live, DceDest(w), x);
    Dce.WriteDead(p, q, live, DceDest(w), y);
  }

  /** The interpreter's registers after the n-th word, if nothing stops it. */
  lemma ChainEffect(fetch: bv32 -> Word, c0: Cpu, n: nat)
    requires Straight(fetch, c0, n + 1)
    ensures Straight(fetch, c0, n)
    ensures InFragment(WordAt(fetch, c0.pc, n))
    ensures Chain(fetch, c0, n + 1).regs == Effect(WordAt(fetch, c0.pc, n), PcAt(c0.pc, n), Chain(fetch, c0, n).regs)
  {
    hide WordAt, PcAt, Traps, Exec, IsPsxWord, IsAluWord, IsBranch, LinkOf, Jumps, JumpTarget, Add;
    var c, w := Chain(fetch, c0, n), WordAt(fetch, c0.pc, n);
    assert c.pc == PcAt(c0.pc, n) && !Stops(w, c);
    assert fetch(c.pc) == w by { WordIs(fetch, c0.pc, n); }
    NextEffect(w, c);
  }

  lemma WordIs(fetch: bv32 -> Word, base: bv32, n: nat)
    ensures WordAt(fetch, base, n) == fetch(PcAt(base, n))
  {
  }

  lemma NextEffect(w: Word, c: Cpu)
    requires InFragment(w)
    ensures Next(w, c).regs == Effect(w, c.pc, c.regs)
  {
    hide Exec, Jumps, JumpTarget, IsPsxWord, IsAluWord, IsBranch, LinkOf;
    AddEight(c.pc);
  }

  lemma AddEight(pc: bv32)
    ensures Add(Add(pc, 4), 4) == Add(pc, 8)
  {
  }

  /** The thin run has the interpreter's registers wherever liveness asks for them. */
  lemma {:induction false} ThinFollows(fetch: bv32 -> Word, c0: Cpu, n: nat)
    requires Regular(fetch, c0.pc, n) && Straight(fetch, c0, n) && c0.regs.r[0] == 0
    ensures Dce.SameRegs(Thin(fetch, c0.pc, n, c0.regs), Chain(fetch, c0, n).regs, LiveOut(fetch, c0.pc, n))
    decreases n
  {
    hide Dce.SameRegs, Effect, WordAt, PcAt, DeadAt, LiveOut, LiveBefore, InFragment, Stops, Next, IsBranch, InSlot, DceReads,
         DceDest, Dead;
    if n == 0 {
      Dce.Narrow(c0.regs, c0.regs, ALL, LiveOut(fetch, c0.pc, 0)) by { AllSame(c0.regs); AllAre(LiveOut(fetch, c0.pc, 0)); }
    } else {
      var w, pc := WordAt(fetch, c0.pc, n - 1), PcAt(c0.pc, n - 1);
      var p, q := Chain(fetch, c0, n - 1).regs, Thin(fetch, c0.pc, n - 1, c0.regs);
      var before, after := LiveBefore(fetch, c0.pc, n - 1), LiveOut(fetch, c0.pc, n);
      ChainEffect(fetch, c0, n - 1);
      ThinFollows(fetch, c0, n - 1);
      LiveStep(fetch, c0.pc, n - 1);
      Dce.Narrow(q, p, LiveOut(fetch, c0.pc, n - 1), before);
      if DeadAt(fetch, c0.pc, n - 1) {
        DeadEffect(w, pc, q, p, after);
      } else {
        EffectAligns(w, pc, q, p, before, after);
      }
    }
  }

  lemma AllSame(p: Regs)
    requires p.r[0] == 0
    ensures Dce.SameRegs(p, p, ALL)
  {
  }

  lemma AllAre(live: set<Reg>)
    ensures live <= ALL
  {
  }

  /** What is live is known. */
  lemma {:induction false} LiveIsKnown(fetch: bv32 -> Word, base: bv32, slots: SlotMap, n: nat)
    requires Regular(fetch, base, n)
    ensures LiveOut(fetch, base, n) <= Known(fetch, base, slots, n)
    decreases n
  {
    hide WordAt, DeadAt, LiveOut, LiveBefore, InFragment, IsBranch, InSlot, DceReads, DceDest, DcePure, Walk;
    if n == 0 {
      AllAre(LiveOut(fetch, base, 0));
    } else {
      LiveIsKnown(fetch, base, slots, n - 1);
      LiveStep(fetch, base, n - 1);
    }
  }

  /** With no constant dropped all registers are known. */
  lemma KnownOnce(fetch: bv32 -> Word, base: bv32, slots: SlotMap, n: nat)
    requires forall i :: 0 <= i < n && DeadAt(fetch, base, i) ==>
      !Walk(fetch, base, slots, i).vregs[DceDest(WordAt(fetch, base, i))].Lazy()
    ensures Known(fetch, base, slots, n) == ALL
    decreases n
  {
    hide WordAt, DeadAt, DceDest, Walk;
    if n > 0 {
      KnownOnce(fetch, base, slots, n - 1);
      assert DceDest(WordAt(fetch, base, n - 1)) in ALL;
    }
  }

  /** So what is known before a word suffices to translate it. */
  lemma KnownCovers(fetch: bv32 -> Word, base: bv32, slots: SlotMap, n: nat)
    requires Regular(fetch, base, n + 1) && !DeadAt(fetch, base, n)
    ensures var w := WordAt(fetch, base, n);
            var before, after := Known(fetch, base, slots, n), Known(fetch, base, slots, n + 1);
            (IsAluWord(w) ==> Covers(before, w, after)) && (IsBranch(w) ==> CoversBranch(before, w, after))
  {
    hide WordAt, DeadAt, LiveOut, LiveBefore, IsPsxWord, IsAluWord, IsBranch, InSlot, DceReads, DceDest, Walk, Reads, Target, LinkOf;
    var w := WordAt(fetch, base, n);
    assert InFragment(w);
    LiveStep(fetch, base, n);
    LiveIsKnown(fetch, base, slots, n);
    SameOperands(w);
  }

  lemma SameOperands(w: Word)
    requires IsPsxWord(w)
    ensures IsAluWord(w) ==> Reads(w) - {0} <= DceReads(w) && Target(w) == DceDest(w)
    ensures IsBranch(w) ==> LinkOf(w) == DceDest(w)
  {
  }

  // ---- One word further ---------------------------------------------------------------------

  lemma RegularNext(fetch: bv32 -> Word, base: bv32, slots: SlotMap, n: nat)
    requires Accepted(fetch, base, slots, n) && InFragment(WordAt(fetch, base, n))
    requires !(InSlot(fetch, base, n) && IsBranch(WordAt(fetch, base, n)))
    ensures Regular(fetch, base, n) && Regular(fetch, base, n + 1)
  {
    hide WordAt, InSlot, InFragment, Declined;
    AcceptedIsRegular(fetch, base, slots, n);
  }

  /** The thin run and the interpreter see the same at a word that is not dead. */
  lemma ThinJudges(fetch: bv32 -> Word, c0: Cpu, n: nat)
    requires Regular(fetch, c0.pc, n + 1) && Straight(fetch, c0, n) && c0.regs.r[0] == 0 && !DeadAt(fetch, c0.pc, n)
    ensures var w, next := WordAt(fetch, c0.pc, n), Add(PcAt(c0.pc, n), 4);
            var p, q := ThinAt(fetch, c0, n), Chain(fetch, c0, n).regs;
            (IsAluWord(w) ==> Traps(w, p) == Traps(w, q)) &&
            (IsBranch(w) ==> Jumps(w, p) == Jumps(w, q) && JumpTarget(w, p, next) == JumpTarget(w, q, next))
  {
    hide Dce.SameRegs, WordAt, PcAt, DeadAt, LiveOut, LiveBefore, IsPsxWord, IsAluWord, IsBranch, InSlot, DceReads, DceDest, Add,
         Traps, Jumps, JumpTarget, Straight, Thin;
    var w := WordAt(fetch, c0.pc, n);
    assert InFragment(w);
    RegularBefore(fetch, c0.pc, n);
    ThinFollows(fetch, c0, n);
    LiveStep(fetch, c0.pc, n);
    var p, q, before := ThinAt(fetch, c0, n), Chain(fetch, c0, n).regs, LiveBefore(fetch, c0.pc, n);
    Dce.Narrow(p, q, LiveOut(fetch, c0.pc, n), before);
    EffectAligns(w, PcAt(c0.pc, n), p, q, before, LiveOut(fetch, c0.pc, n + 1));
  }

  lemma RegularBefore(fetch: bv32 -> Word, base: bv32, n: nat)
    requires Regular(fetch, base, n + 1)
    ensures Regular(fetch, base, n)
  {
    hide InFragment, InSlot, WordAt;
  }

  /** A register instruction comes next. */
  lemma AluPlan(fetch: bv32 -> Word, c0: Cpu, slots: SlotMap, n: nat)
    requires Accepted(fetch, c0.pc, slots, n) && c0.regs.r[0] == 0
    requires InFragment(WordAt(fetch, c0.pc, n)) && IsAluWord(WordAt(fetch, c0.pc, n))
    ensures var w, known := WordAt(fetch, c0.pc, n), Known(fetch, c0.pc, slots, n);
            var d, known' := DceDest(w), Known(fetch, c0.pc, slots, n + 1);
            if DeadAt(fetch, c0.pc, n) then
              known' == if Walk(fetch, c0.pc, slots, n).vregs[d].Lazy() then known - {d} else known
            else Covers(known, w, known') && (Straight(fetch, c0, n + 1) ==> !Traps(w, ThinAt(fetch, c0, n)))
    ensures !DeadAt(fetch, c0.pc, n) && KnownOverflow(Walk(fetch, c0.pc, slots, n), WordAt(fetch, c0.pc, n)) <==>
            Declined(fetch, c0.pc, slots, n)
  {
    hide WordAt, DeadAt, IsPsxWord, IsAluWord, IsBranch, InSlot, DceDest, Traps, Covers, Accepted, Walk, KnownOverflow, Thin,
         PcAt;
    AluIsNoBranch(WordAt(fetch, c0.pc, n));
    RegularNext(fetch, c0.pc, slots, n);
    if !DeadAt(fetch, c0.pc, n) {
      KnownCovers(fetch, c0.pc, slots, n);
      if Straight(fetch, c0, n + 1) {
        ThinJudges(fetch, c0, n);
        assert !Stops(WordAt(fetch, c0.pc, n), Chain(fetch, c0, n));
      }
    }
  }

  /** A branch comes next. */
  lemma BranchPlan(fetch: bv32 -> Word, c0: Cpu, slots: SlotMap, n: nat)
    requires Accepted(fetch, c0.pc, slots, n) && c0.regs.r[0] == 0 && !InSlot(fetch, c0.pc, n)
    requires InFragment(WordAt(fetch, c0.pc, n)) && IsBranch(WordAt(fetch, c0.pc, n))
    ensures !Declined(fetch, c0.pc, slots, n) && !DeadAt(fetch, c0.pc, n)
    ensures CoversBranch(Known(fetch, c0.pc, slots, n), WordAt(fetch, c0.pc, n), Known(fetch, c0.pc, slots, n + 1))
    ensures Straight(fetch, c0, n) ==>
            var w, next := WordAt(fetch, c0.pc, n), Add(PcAt(c0.pc, n), 4);
            var p, q := ThinAt(fetch, c0, n), Chain(fetch, c0, n).regs;
            Jumps(w, p) == Jumps(w, q) && JumpTarget(w, p, next) == JumpTarget(w, q, next)
  {
    hide WordAt, DeadAt, IsPsxWord, IsAluWord, IsBranch, InSlot, DceDest, CoversBranch, Accepted, Walk, KnownOverflow, Thin,
         PcAt, Jumps, JumpTarget, Add, Straight, Known;
    RegularNext(fetch, c0.pc, slots, n);
    LiveStep(fetch, c0.pc, n);
    KnownCovers(fetch, c0.pc, slots, n);
    BranchKnowsNoOverflow(Walk(fetch, c0.pc, slots, n), WordAt(fetch, c0.pc, n));
    if Straight(fetch, c0, n) { ThinJudges(fetch, c0, n); }
  }

  lemma BranchKnowsNoOverflow(v: View, w: Word)
    requires IsBranch(w)
    ensures !KnownOverflow(v, w)
  {
  }

  /** The plan moves on by one word that is neither declined nor beyond the end. */
  lemma PlanStep(fetch: bv32 -> Word, c0: Cpu, slots: SlotMap, n: nat)
    requires Accepted(fetch, c0.pc, slots, n) && GoesOn(fetch, c0.pc, slots, n)
    requires !Declined(fetch, c0.pc, slots, n) && !Ends(fetch, c0.pc, slots, n)
    ensures Accepted(fetch, c0.pc, slots, n + 1) && GoesOn(fetch, c0.pc, slots, n + 1)
    ensures var w, pc, dead := WordAt(fetch, c0.pc, n), PcAt(c0.pc, n), DeadAt(fetch, c0.pc, n);
            Walk(fetch, c0.pc, slots, n + 1) == AfterWord(Walk(fetch, c0.pc, slots, n), w, pc, dead) &&
            ThinAt(fetch, c0, n + 1) == if dead then ThinAt(fetch, c0, n) else Effect(w, pc, ThinAt(fetch, c0, n))
  {
    hide WordAt, PcAt, DeadAt, AfterWord, Effect, Declined, Ends;
  }

  /** Where the plan begins. */
  lemma PlanStarts(fetch: bv32 -> Word, c0: Cpu, slots: SlotMap)
    ensures Walk(fetch, c0.pc, slots, 0) == Entered(slots, WriteFirstSet(BlockAt(fetch, c0.pc, 0)))
    ensures Accepted(fetch, c0.pc, slots, 0) && GoesOn(fetch, c0.pc, slots, 0) && !Ends(fetch, c0.pc, slots, 0)
    ensures ThinAt(fetch, c0, 0) == c0.regs && Known(fetch, c0.pc, slots, 0) == ALL
    ensures Straight(fetch, c0, 0) && Chain(fetch, c0, 0) == c0 && PcAt(c0.pc, 0) == c0.pc
    ensures !InSlot(fetch, c0.pc, 0) && StartOf(fetch, c0.pc, 0) == 0 && Depth(fetch, c0.pc, 0) == 0
  {
    hide Entered, WriteFirstSet, BlockAt;
  }

  /** Words and slots leave one outcome only: a block of one length, or one word that refuses it. */
  lemma OneOutcome(fetch: bv32 -> Word, base: bv32, slots: SlotMap, n: nat, k: nat)
    requires Complete(fetch, base, slots, n) || Refused(fetch, base, slots, n)
    requires Complete(fetch, base, slots, k) || Refused(fetch, base, slots, k)
    ensures n == k && (Complete(fetch, base, slots, n) <==> Complete(fetch, base, slots, k))
    ensures !(Complete(fetch, base, slots, n) && Refused(fetch, base, slots, k))
  {
    hide Ends, Declined;
    NoEndAtOnce(fetch, base, slots);
  }

  lemma NoEndAtOnce(fetch: bv32 -> Word, base: bv32, slots: SlotMap)
    ensures !Ends(fetch, base, slots, 0)
  {
  }

  // ---- Where the path stands after one more word ----------------------------------------------

  lemma PastBranch(fetch: bv32 -> Word, base: bv32, slots: SlotMap, n: nat)
    requires IsBranch(WordAt(fetch, base, n)) && !InSlot(fetch, base, n)
    ensures InSlot(fetch, base, n + 1) && !Ends(fetch, base, slots, n + 1)
    ensures StartOf(fetch, base, n + 1) == StartOf(fetch, base, n) && Depth(fetch, base, n + 1) == Depth(fetch, base, n)
  {
    hide WordAt, IsBranch;
  }

  lemma PastDelaySlot(fetch: bv32 -> Word, base: bv32, n: nat)
    requires InSlot(fetch, base, n) && !IsBranch(WordAt(fetch, base, n))
    ensures AfterSlot(fetch, base, n + 1) && !InSlot(fetch, base, n + 1)
    ensures StartOf(fetch, base, n + 1) == n + 1 && Depth(fetch, base, n + 1) == Depth(fetch, base, n) + 1
  {
    hide WordAt, IsBranch;
  }

  lemma PastOrdinary(fetch: bv32 -> Word, base: bv32, slots: SlotMap, n: nat)
    requires !InSlot(fetch, base, n) && !IsBranch(WordAt(fetch, base, n))
    ensures !InSlot(fetch, base, n + 1) && !RunTime(fetch, base, slots, n)
    ensures StartOf(fetch, base, n + 1) == StartOf(fetch, base, n) && Depth(fetch, base, n + 1) == Depth(fetch, base, n)
    ensures Ends(fetch, base, slots, n + 1) <==>
            n + 1 - StartOf(fetch, base, n + 1) >= SCAN_MAX || n + 1 >= MAX_SUPER_INSNS
  {
    hide WordAt, IsBranch;
  }

  // ---- Homes and stale registers ----------------------------------------------------------------

  /** While all registers have homes nothing is cached, so nothing can go stale. */
  lemma StaysQuiet(v: View, w: Word, pc: bv32, dead: bool)
    requires v.Quiet() && HomedWord(v.home, w) && v.home[0] == 0
    ensures AfterWord(v, w, pc, dead).Quiet()
  {
    hide HomedWord, After, AfterBranch;
    if InFragment(w) && !dead {
      if IsAluWord(w) {
        AluHomes(v.home, w);
        AluStaysQuiet(v, w);
      } else {
        BranchHomes(v.home, w);
        BranchStaysQuiet(v, w, pc);
      }
    }
  }

  lemma {:induction false} HomedNeverReuses(fetch: bv32 -> Word, base: bv32, slots: SlotMap, n: nat)
    requires slots.Valid() && HomedBlock(slots.Homes(), fetch, base, n)
    ensures Walk(fetch, base, slots, n).Quiet() && !Reuses(fetch, base, slots, n)
    decreases n
  {
    hide WordAt, PcAt, DeadAt, AfterWord, HomedWord, slots.Valid, slots.Homes;
    slots.HomesValid();
    if n > 0 {
      HomedNeverReuses(fetch, base, slots, n - 1);
      assert HomedWord(slots.Homes(), WordAt(fetch, base, n - 1));
      StaysQuiet(Walk(fetch, base, slots, n - 1), WordAt(fetch, base, n - 1), PcAt(base, n - 1), DeadAt(fetch, base, n - 1));
    }
  }

  /** The registers that the translation of w names all have homes. */
  ghost predicate Homed(home: HomeMap, w: Word) {
    !Plain(home, Target(w)) && forall r: Reg :: r in Reads(w) ==> !Plain(home, r)
  }

  lemma AluHomes(home: HomeMap, w: Word)
    requires HomedWord(home, w) && IsPsxWord(w) && IsAluWord(w)
    ensures Homed(home, w)
  {
  }

  lemma AluStaysQuiet(v: View, w: Word)
    requires v.Quiet() && IsAluWord(w) && Homed(v.home, w)
    ensures After(v, w).Quiet()
  {
    hide Shift, Alu, AluImm, v.Used, v.Copied, v.Synced, v.AsVar, v.FieldRead, v.Deferred;
    if w.rs in Reads(w) { assert !Plain(v.home, w.rs); }
    if w.R? && w.rt in Reads(w) { assert !Plain(v.home, w.rt); }
  }

  lemma BranchHomes(home: HomeMap, w: Word)
    requires HomedWord(home, w) && InFragment(w) && !IsAluWord(w)
    ensures forall r: Reg :: r in DceReads(w) ==> !Plain(home, r)
  {
  }

  lemma BranchStaysQuiet(v: View, w: Word, pc: bv32)
    requires v.Quiet() && IsPsxWord(w) && IsBranch(w)
    requires forall r: Reg :: r in DceReads(w) ==> !Plain(v.home, r)
    ensures AfterBranch(v, w, pc).Quiet()
  {
    hide Add, v.Copied, v.Linked;
    if !w.J? && w.rs in DceReads(w) { assert !Plain(v.home, w.rs); }
    if w.I? && w.rt in DceReads(w) { assert !Plain(v.home, w.rt); }
  }
}
