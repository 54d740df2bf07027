/** Leaving a block: lazy constants and dirty slots go home, the cycles are charged,
    and control passes to the next block, to the abort trampoline or to the dispatcher. */
module Exits {
  import opened Mips
  import opened Psx
  import opened Native
  import opened Tracking
  import opened Slots
  import opened Emission

  const PINNED: set<Reg> := {28, 29, 30, 31}

  // ---- Between blocks ------------------------------------------------------------

  /** Between blocks four registers are in S4-S7 and all others in cpu.regs[]. */
  function HeldAt(m: Machine, r: Reg): bv32 {
    if Pinned(r) != 0 then m.gpr[Pinned(r)] else Ld(m, CpuReg(r))
  }

  ghost predicate AtHome(m: Machine, p: Regs, live: set<Reg>) {
    p.r[0] == 0 && m.gpr[0] == 0 && Ld(m, CpuHi) == p.hi && Ld(m, CpuLo) == p.lo &&
    forall r: Reg :: r != 0 && r in live ==> HeldAt(m, r) == p.r[r]
  }

  function EntryView(slots: SlotMap): View {
    View(slots.Homes(), seq(32, _ => VAR), {}, PINNED, PINNED, -1, -1, false, false, false)
  }

  /** The tables after dyn_load_slots: slots that the block writes before reading stay empty. */
  function Entered(slots: SlotMap, writeFirst: set<Reg>): (v: View)
    ensures v.home == slots.Homes() && v.Quiet()
  {
    EntryView(slots).(loaded := PINNED + Slotted(slots, SLOTS, writeFirst))
  }

  /** The registers in the first n slots, apart from those in writeFirst. */
  function Slotted(slots: SlotMap, n: nat, writeFirst: set<Reg>): set<Reg> {
    set r: Reg | 0 <= slots.psxSlot[r] < n && r !in writeFirst
  }

  lemma EntryAgrees(slots: SlotMap, m: Machine, p: Regs, live: set<Reg>)
    requires slots.Valid() && AtHome(m, p, live)
    ensures Agrees(EntryView(slots), m, p, live)
  {
    hide slots.Valid;
    slots.HomesValid();
    var v := EntryView(slots);
    forall r: Reg | r != 0 && r in live ensures v.Tracks(m, r, p.r[r]) {
      assert HeldAt(m, r) == p.r[r];
    }
  }

  lemma EntryShape(slots: SlotMap)
    requires slots.Valid()
    ensures EntryView(slots).Shape()
  {
    hide slots.Valid;
    slots.HomesValid();
  }

  /** With no lazy constant and no dirty slot left, every register is at home. */
  lemma FlushedIsHome(v: View, slots: SlotMap, m: Machine, p: Regs, live: set<Reg>)
    requires slots.Valid() && v.home == slots.Homes() && Agrees(v, m, p, live)
    requires PINNED <= v.loaded && v.dirty == PINNED && forall r: Reg :: !v.vregs[r].Lazy()
    ensures AtHome(m, p, live)
  {
    hide slots.Valid;
    slots.HomesValid();
    forall r: Reg | r != 0 && r in live ensures HeldAt(m, r) == p.r[r] {
      assert v.Tracks(m, r, p.r[r]);
    }
  }

  /** Two machines that are alike in everything kept between blocks. */
  ghost predicate SameHome(m: Machine, m': Machine) {
    m'.gpr[0] == m.gpr[0] && (forall r: Reg :: 20 <= r <= 23 ==> m'.gpr[r] == m.gpr[r]) &&
    forall l: Loc :: l != CpuPc ==> Ld(m', l) == Ld(m, l)
  }

  lemma SameHomeKeeps(m: Machine, m': Machine, p: Regs, live: set<Reg>)
    requires AtHome(m, p, live) && SameHome(m, m')
    ensures AtHome(m', p, live)
  {
    forall r: Reg | r != 0 && r in live ensures HeldAt(m', r) == p.r[r] {
      assert HeldAt(m, r) == p.r[r];
    }
  }

  /** dyn_load_slots. */
  method LoadSlots(e: Emitter, slots: SlotMap, writeFirst: set<Reg>, ghost p: Regs, ghost live: set<Reg>)
    requires e.Ok() && e.Matches(p, live) && slots.Valid() && e.st == EntryView(slots)
    modifies e`code, e`mach, e`st
    ensures e.Ok() && e.Extends() && e.Matches(p, live)
    ensures e.st == Entered(slots, writeFirst)
  {
    hide Agrees, Falls, ReservedOf, e.st.Shape, slots.Valid, slots.Homes;
    for i := 0 to SLOTS
      invariant e.Ok() && e.Extends() && e.Matches(p, live)
      invariant e.st == old(e.st).(loaded := PINNED + Slotted(slots, i, writeFirst))
    {
      var r := slots.slotPsx[i];
      SlotOwner(slots, i);
      SlottedStep(slots, i, writeFirst);
      if r >= 0 && r !in writeFirst { e.FillHome(r, p, live); }
    }
  }

  lemma SlottedStep(slots: SlotMap, i: nat, writeFirst: set<Reg>)
    requires slots.Valid() && i < SLOTS
    ensures var r := slots.slotPsx[i];
            Slotted(slots, i + 1, writeFirst) ==
              Slotted(slots, i, writeFirst) + (if r >= 0 && r !in writeFirst then {r} else {})
    ensures slots.slotPsx[i] >= 0 ==> slots.slotPsx[i] !in Slotted(slots, i, writeFirst) + PINNED
  {
    var r := slots.slotPsx[i];
    forall q: Reg ensures slots.psxSlot[q] == i <==> r == q { }
  }

  // ---- Flushing --------------------------------------------------------------------

  /** flush_dirty_consts. */
  method FlushConsts(e: Emitter, ghost p: Regs, ghost live: set<Reg>)
    requires e.Ok() && e.Matches(p, live)
    modifies e`code, e`mach, e`st
    ensures e.Ok() && e.Extends() && e.Matches(p, live) && e.st.misread == old(e.st.misread)
    ensures forall r: Reg :: !e.st.vregs[r].Lazy()
  {
    hide Agrees, Falls, ReservedOf, e.st.Shape;
    for r := 0 to 32
      invariant e.Ok() && e.Extends() && e.Matches(p, live) && e.st.misread == old(e.st.misread)
      invariant forall q: Reg :: q < r ==> !e.st.vregs[q].Lazy()
    {
      NotMasked(e.st, r);
      if r in e.st.mask && e.st.vregs[r].isConst && e.st.vregs[r].isDirty {
        e.StoreLazy(r, p, live);
      }
    }
    ghost var before := e.st;
    e.st := e.st.(mask := {});
    EmptyMask(before, e.mach, p, live);
  }

  lemma NotMasked(v: View, r: Reg)
    requires v.Shape()
    ensures r !in v.mask ==> !v.vregs[r].Lazy()
  {
  }

  lemma EmptyMask(v: View, m: Machine, p: Regs, live: set<Reg>)
    requires v.Shape() && forall r: Reg :: !v.vregs[r].Lazy()
    ensures v.(mask := {}).Shape()
    ensures Agrees(v, m, p, live) ==> Agrees(v.(mask := {}), m, p, live)
  {
    var v' := v.(mask := {});
    if Agrees(v, m, p, live) {
      forall r: Reg | r != 0 && r in live ensures v'.Tracks(m, r, p.r[r]) {
        assert v.Tracks(m, r, p.r[r]);
      }
    }
  }

  /** dyn_flush_dirty_slots. */
  method FlushSlots(e: Emitter, slots: SlotMap, ghost p: Regs, ghost live: set<Reg>)
    requires e.Ok() && e.Matches(p, live) && slots.Valid() && e.st.home == slots.Homes()
    modifies e`code, e`mach, e`st
    ensures e.Ok() && e.Extends() && e.Matches(p, live)
    ensures e.st == old(e.st).(dirty := PINNED)
  {
    hide Agrees, Falls, ReservedOf, e.st.Shape, slots.Valid, slots.Homes;
    for i := 0 to SLOTS
      invariant e.Ok() && e.Extends() && e.Matches(p, live) && e.st == old(e.st)
      invariant forall r: Reg :: 0 <= slots.psxSlot[r] < i && r in e.st.dirty ==>
        Ld(e.mach, CpuReg(r)) == e.mach.gpr[e.st.home[r]]
    {
      var r := slots.slotPsx[i];
      SlotOwner(slots, i);
      if r >= 0 && r in e.st.dirty { FlushSlot(e, i, r, p, live); }
    }
    ghost var before := e.st;
    e.st := e.st.(dirty := PINNED);
    SlotsClean(before, slots, e.mach, p, live);
  }

  /** Stores the home of r, which is slot i. */
  method FlushSlot(e: Emitter, i: int, r: Reg, ghost p: Regs, ghost live: set<Reg>)
    requires e.Ok() && e.Matches(p, live) && 0 <= i < SLOTS && e.st.home[r] == T0 + i && r in e.st.dirty
    modifies e`code, e`mach
    ensures e.Ok() && e.Extends() && e.Matches(p, live)
    ensures e.mach == Store(old(e.mach), CpuReg(r), old(e.mach.gpr[T0 + i]))
  {
    hide Agrees, Falls, ReservedOf, e.st.Shape;
    if e.Following() { StaleStored(e.st, e.mach, p, live, r, e.mach.gpr[e.st.home[r]]); }
    e.EmitSw(T0 + i, CpuReg(r));
  }

  /** Slot i belongs to one register, and T0 + i is its home. */
  lemma SlotOwner(slots: SlotMap, i: int)
    requires slots.Valid() && 0 <= i < SLOTS
    ensures slots.slotPsx[i] >= 0 ==> slots.Homes()[slots.slotPsx[i]] == T0 + i && slots.slotPsx[i] != 0
    ensures forall r: Reg :: slots.psxSlot[r] == i ==> slots.slotPsx[i] == r
  {
    slots.HomesValid();
  }

  lemma SlotsClean(v: View, slots: SlotMap, m: Machine, p: Regs, live: set<Reg>)
    requires v.Shape() && slots.Valid() && v.home == slots.Homes()
    requires forall r: Reg :: slots.psxSlot[r] >= 0 && r in v.dirty ==> Ld(m, CpuReg(r)) == m.gpr[v.home[r]]
    ensures v.(dirty := PINNED).Shape()
    ensures Agrees(v, m, p, live) ==> Agrees(v.(dirty := PINNED), m, p, live)
  {
    hide slots.Valid;
    slots.HomesValid();
    var v' := v.(dirty := PINNED);
    if Agrees(v, m, p, live) {
      forall r: Reg | r != 0 && r in live ensures v'.Tracks(m, r, p.r[r]) {
        assert v.Tracks(m, r, p.r[r]);
      }
    }
  }

  /** Everything goes home. */
  method Flush(e: Emitter, slots: SlotMap, ghost p: Regs, ghost live: set<Reg>)
    requires e.Ok() && e.Matches(p, live) && slots.Valid() && e.st.home == slots.Homes()
    modifies e`code, e`mach, e`st
    ensures e.Ok() && e.Extends() && e.st.misread == old(e.st.misread)
    ensures e.Following() ==> AtHome(e.mach, p, live)
  {
    hide Agrees, Falls, ReservedOf, e.st.Shape, slots.Valid, slots.Homes, AtHome;
    FlushConsts(e, p, live);
    FlushSlots(e, slots, p, live);
    PinnedLoaded(e.st, slots);
    if e.Following() { FlushedIsHome(e.st, slots, e.mach, p, live); }
  }

  lemma PinnedLoaded(v: View, slots: SlotMap)
    requires v.Shape() && slots.Valid() && v.home == slots.Homes()
    ensures PINNED <= v.loaded
  {
    hide slots.Valid;
    slots.HomesValid();
  }

  // ---- Charging cycles and leaving ----------------------------------------------------

  /** Emits a word that may write the engine's own registers. */
  method EmitRaw(e: Emitter, w: Word)
    requires e.Linked() && !IsControl(w)
    modifies e`code, e`mach
    ensures e.Linked() && e.code == old(e.code) + [w] && e.mach == Step(w, old(e.mach))
  {
    hide Falls, Step;
    if !e.taken { FallsStep(e.code, w, e.start, e.startMach, e.mach); }
    e.code := e.code + [w];
    e.mach := Step(w, e.mach);
  }

  /** The most cycles one immediate can charge. */
  const MAX_CHARGE: bv32 := 0x8000

  function ChargeWord(cycles: bv32): Word { I(0x09, S2, S2, Lo16(Sub(0, cycles))) }

  /** s2 after cycles have been deducted, as ADDIU of the negated count leaves it. */
  function Charged(s2: bv32, cycles: bv32): bv32 { Add(s2, Sub(0, cycles)) }

  lemma ChargeWordCharges(m: Machine, cycles: bv32)
    requires cycles < MAX_CHARGE
    ensures Step(ChargeWord(cycles), m) == Set(m, S2, Charged(m.gpr[S2], cycles))
    ensures Charged(m.gpr[S2], cycles) == m.gpr[S2] - cycles
  {
    hide Add, Sub, SignExt, Lo16, AluImm;
    NegativeRange(cycles);
    SignedLow(Sub(0, cycles));
    AddiuAdds(m.gpr[S2], Lo16(Sub(0, cycles)));
    AddNegated(m.gpr[S2], cycles);
  }

  lemma AddNegated(x: bv32, y: bv32)
    ensures Add(x, Sub(0, y)) == x - y
  {
  }

  lemma AddiuAdds(x: bv32, imm: bv16)
    ensures AluImm(0x09, x, imm) == Add(x, SignExt(imm))
  {
    hide SignExt;
  }

  lemma NegativeRange(cycles: bv32)
    requires cycles < MAX_CHARGE
    ensures Sub(0, cycles) == 0 || 0xFFFF_8000 <= Sub(0, cycles)
  {
  }

  lemma SignedLow(y: bv32)
    requires y == 0 || 0xFFFF_8000 <= y
    ensures SignExt(Lo16(y)) == y
  {
  }

  predicate Spent(v: bv32) { v == 0 || Negative(v) }

  /** Where a block that ran out of cycles goes instead of its successor. */
  function ExitTo(m: Machine, target: bv32): Dest {
    if Spent(m.gpr[S2]) then Abort else LinkTo(target)
  }

  /** The last six words of a block exit; T8 holds the target. */
  function LeaveWords(target: bv32): seq<Word> {
    [Br(0x06, S2, 0, 2), Sw(T8, CpuPc), Goto(LinkTo(target)), NOP, Goto(Abort), NOP]
  }

  lemma LeaveRuns(code: seq<Word>, k: nat, m: Machine, target: bv32)
    requires k + 6 == |code| && code[k..] == LeaveWords(target) && m.gpr[T8] == target
    ensures RunFrom(code, k, m) == Left(ExitTo(m, target), Store(m, CpuPc, target))
  {
    var ws := LeaveWords(target);
    forall i | 0 <= i < 6 ensures code[k + i] == ws[i] {
      assert code[k..][i] == ws[i];
    }
    NopStep(m);
    var m' := Store(m, CpuPc, target);
    NopStep(m');
    assert Step(Sw(T8, CpuPc), m) == m';
    assert RunFrom(code, k + 4, m') == Left(Abort, m');
    if Spent(m.gpr[S2]) {
      assert RunFrom(code, k + 3, m') == RunFrom(code, k + 4, m');
    } else {
      assert RunFrom(code, k + 2, m') == Left(LinkTo(target), m');
    }
  }

  /** The reserved state without the two words that branches write. */
  function Fixed(m: Machine): Reserved { ReservedOf(m).(cond := 0, pc := 0) }

  /** What a block exit leaves behind: registers at home, the cycles charged, cpu.pc. */
  ghost predicate HandsOver(m: Machine, m': Machine, cycles: bv32, p: Regs, live: set<Reg>, pc: bv32) {
    AtHome(m', p, live) && Ld(m', CpuPc) == pc &&
    Fixed(m') == Fixed(m).(s2 := Charged(Fixed(m).s2, cycles))
  }

  lemma ChargedAtHome(m: Machine, m1: Machine, cycles: bv32, p: Regs, live: set<Reg>, pc: bv32)
    requires AtHome(m1, p, live) && Fixed(m1) == Fixed(m)
    ensures HandsOver(m, Store(Set(Set(m1, S2, Charged(m1.gpr[S2], cycles)), T8, pc), CpuPc, pc), cycles, p, live, pc)
  {
    var m' := Store(Set(Set(m1, S2, Charged(m1.gpr[S2], cycles)), T8, pc), CpuPc, pc);
    assert SameHome(m1, m');
    SameHomeKeeps(m1, m', p, live);
  }

  /** Words appended after k do not change how the run gets to k. */
  lemma RunsInto(a: seq<Word>, b: seq<Word>, pc: nat, m: Machine, k: nat, m': Machine)
    requires pc <= k == |a| < |b| && a <= b && Falls(a, pc, m, k, m')
    ensures RunFrom(b, pc, m) == RunFrom(b, k, m')
  {
    hide Falls;
    assert forall i :: 0 <= i < k ==> a[i] == b[i];
    FallsPatched(a, b, pc, m, k, m');
    FallsRuns(b, pc, m, k, m');
  }

  /** emit_branch_epilogue, for a block without calls into C. */
  method BranchEpilogue(e: Emitter, slots: SlotMap, cycles: bv32, target: bv32, ghost p: Regs, ghost live: set<Reg>)
    returns (ghost m': Machine)
    requires e.Ok() && e.Matches(p, live) && slots.Valid() && e.st.home == slots.Homes() && cycles < MAX_CHARGE
    modifies e
    ensures e.Ok() && old(e.code) <= e.code && e.st.home == old(e.st.home) && e.taken
    ensures old(e.Following()) ==>
      RunFrom(e.code, old(|e.code|), old(e.mach)) == Left(ExitTo(m', target), m') &&
      HandsOver(old(e.mach), m', cycles, p, live, target)
  {
    hide Agrees, Falls, ReservedOf, e.st.Shape, slots.Valid, slots.Homes, AtHome, RunFrom, HandsOver, Charged;
    e.start := |e.code|;
    e.startMach := e.mach;
    FallsHere(e.code, e.mach);
    Flush(e, slots, p, live);
    ghost var m1 := e.mach;
    m' := ChargeAndLeave(e, cycles, target);
    if old(e.Following()) { ChargedAtHome(old(e.mach), m1, cycles, p, live, target); }
  }

  /** Charges the cycles, loads the target and leaves. */
  method ChargeAndLeave(e: Emitter, cycles: bv32, target: bv32) returns (ghost m': Machine)
    requires e.Linked() && e.mach.gpr[0] == 0 && cycles < MAX_CHARGE
    modifies e`code, e`mach, e`taken
    ensures e.Linked() && e.mach.gpr[0] == 0 && old(e.code) <= e.code && e.taken
    ensures var m1 := old(e.mach);
            m' == Store(Set(Set(m1, S2, Charged(m1.gpr[S2], cycles)), T8, target), CpuPc, target)
    ensures !old(e.taken) ==> RunFrom(e.code, e.start, e.startMach) == Left(ExitTo(m', target), m')
  {
    hide Falls, ReservedOf, RunFrom, Step, Charged, LeaveWords;
    ChargeWordCharges(e.mach, cycles);
    EmitRaw(e, ChargeWord(cycles));
    e.LoadImm32(T8, target);
    ghost var a, m2 := e.code, e.mach;
    e.code := e.code + LeaveWords(target);
    m' := Store(m2, CpuPc, target);
    if !e.taken { LeaveAfter(a, e.code, e.start, e.startMach, m2, target); }
    e.taken := true;
  }

  lemma FallsHere(code: seq<Word>, m: Machine)
    ensures Falls(code, |code|, m, |code|, m)
  {
  }

  lemma LeaveAfter(a: seq<Word>, b: seq<Word>, start: nat, m: Machine, m2: Machine, target: bv32)
    requires start <= |a| && Falls(a, start, m, |a|, m2) && b == a + LeaveWords(target) && m2.gpr[T8] == target
    ensures RunFrom(b, start, m) == Left(ExitTo(m2, target), Store(m2, CpuPc, target))
    ensures ExitTo(Store(m2, CpuPc, target), target) == ExitTo(m2, target)
  {
    hide Falls, RunFrom;
    RunsInto(a, b, start, m, |a|, m2);
    LeaveRuns(b, |a|, m2, target);
  }

  // ---- Register jumps ----------------------------------------------------------------------

  /** The jump to a guessed target, checked against T8; the cycles are charged in the
      delay slot of the check. */
  function GuessWords(guess: bv32, cycles: bv32): seq<Word> {
    [Br(0x05, T8, AT, 7), ChargeWord(cycles), Br(0x06, S2, 0, 2), NOP, Goto(LinkTo(guess)), NOP,
     Goto(Abort), NOP, Goto(Dispatch), NOP]
  }

  lemma GuessRuns(code: seq<Word>, k: nat, m: Machine, guess: bv32, cycles: bv32)
    requires k + 10 == |code| && code[k..] == GuessWords(guess, cycles) && cycles < MAX_CHARGE
    requires m.gpr[T8] == guess == m.gpr[AT]
    ensures var m' := Set(m, S2, Charged(m.gpr[S2], cycles));
            RunFrom(code, k, m) == Left(ExitTo(m', guess), m')
  {
    hide ChargeWord, Charged;
    var ws := GuessWords(guess, cycles);
    forall i | 0 <= i < 10 ensures code[k + i] == ws[i] {
      assert code[k..][i] == ws[i];
    }
    var m' := Set(m, S2, Charged(m.gpr[S2], cycles));
    ChargeWordCharges(m, cycles);
    NopStep(m');
    assert RunFrom(code, k, m) == RunFrom(code, k + 2, m');
    assert RunFrom(code, k + 6, m') == Left(Abort, m');
    if Spent(m'.gpr[S2]) {
      assert RunFrom(code, k + 5, m') == RunFrom(code, k + 6, m');
    } else {
      assert RunFrom(code, k + 4, m') == Left(LinkTo(guess), m');
    }
  }

  lemma DispatchRuns(code: seq<Word>, k: nat, m: Machine)
    requires k + 2 == |code| && code[k] == Goto(Dispatch) && code[k + 1] == NOP
    ensures RunFrom(code, k, m) == Left(Dispatch, m)
  {
    NopStep(m);
  }

  /** The exit after JR or JALR; cpu.pc holds the target.  A guess is the constant that
      the compiler knows the jump register to hold. */
  method RegisterExit(e: Emitter, slots: SlotMap, cycles: bv32, guessed: bool, guess: bv32,
                      ghost p: Regs, ghost live: set<Reg>)
    returns (ghost m': Machine)
    requires e.Ok() && e.Matches(p, live) && slots.Valid() && e.st.home == slots.Homes() && cycles < MAX_CHARGE
    requires guessed && e.Following() ==> guess == Ld(e.mach, CpuPc)
    modifies e
    ensures e.Ok() && old(e.code) <= e.code && e.st.home == old(e.st.home) && e.taken
    ensures old(e.Following()) ==>
      var pc := old(Ld(e.mach, CpuPc));
      RunFrom(e.code, old(|e.code|), old(e.mach)) == Left(if guessed then ExitTo(m', pc) else Dispatch, m') &&
      HandsOver(old(e.mach), m', cycles, p, live, pc)
  {
    hide Agrees, Falls, ReservedOf, e.st.Shape, slots.Valid, slots.Homes, AtHome, RunFrom, HandsOver, Charged;
    e.start := |e.code|;
    e.startMach := e.mach;
    FallsHere(e.code, e.mach);
    Flush(e, slots, p, live);
    ghost var m1 := e.mach;
    SamePc(old(e.mach), m1);
    e.EmitLw(T8, CpuPc);
    if guessed { m' := LeaveGuessed(e, cycles, guess); } else { m' := LeaveDispatched(e, cycles); }
    if old(e.Following()) { JumpedAtHome(old(e.mach), m1, m', cycles, p, live); }
  }

  lemma SamePc(m: Machine, m1: Machine)
    requires ReservedOf(m1) == ReservedOf(m)
    ensures Ld(m1, CpuPc) == Ld(m, CpuPc)
  {
    assert ReservedOf(m1).pc == ReservedOf(m).pc;
  }

  lemma JumpedAtHome(m: Machine, m1: Machine, m': Machine, cycles: bv32, p: Regs, live: set<Reg>)
    requires AtHome(m1, p, live) && Fixed(m1) == Fixed(m) && m'.gpr[S2] == Charged(m1.gpr[S2], cycles)
    requires m'.mem == m1.mem && forall r: Reg :: r !in {S2, T8, AT} ==> m'.gpr[r] == m1.gpr[r]
    ensures HandsOver(m, m', cycles, p, live, Ld(m1, CpuPc))
  {
    hide AtHome, Charged, Add, Sub;
    assert SameHome(m1, m');
    SameHomeKeeps(m1, m', p, live);
  }

  method LeaveGuessed(e: Emitter, cycles: bv32, guess: bv32) returns (ghost m': Machine)
    requires e.Linked() && e.mach.gpr[0] == 0 && cycles < MAX_CHARGE
    modifies e`code, e`mach, e`taken
    ensures e.Linked() && e.mach.gpr[0] == 0 && old(e.code) <= e.code && e.taken
    ensures m' == (var m1 := Set(old(e.mach), AT, guess); Set(m1, S2, Charged(m1.gpr[S2], cycles)))
    ensures !old(e.taken) && old(e.mach).gpr[T8] == guess ==>
      RunFrom(e.code, e.start, e.startMach) == Left(ExitTo(m', guess), m')
  {
    hide Falls, ReservedOf, RunFrom, Step, Charged, GuessWords;
    ghost var g := e.mach.gpr[T8];
    e.LoadImm32(AT, guess);
    ghost var a, m2 := e.code, e.mach;
    e.code := e.code + GuessWords(guess, cycles);
    m' := Set(m2, S2, Charged(m2.gpr[S2], cycles));
    if !e.taken && g == guess { GuessAfter(a, e.code, e.start, e.startMach, m2, guess, cycles); }
    e.taken := true;
  }

  lemma GuessAfter(a: seq<Word>, b: seq<Word>, start: nat, m: Machine, m2: Machine, guess: bv32, cycles: bv32)
    requires start <= |a| && Falls(a, start, m, |a|, m2) && b == a + GuessWords(guess, cycles)
    requires m2.gpr[T8] == guess == m2.gpr[AT] && cycles < MAX_CHARGE
    ensures var m' := Set(m2, S2, Charged(m2.gpr[S2], cycles));
            RunFrom(b, start, m) == Left(ExitTo(m', guess), m')
  {
    hide Falls, RunFrom;
    RunsInto(a, b, start, m, |a|, m2);
    GuessRuns(b, |a|, m2, guess, cycles);
  }

  method LeaveDispatched(e: Emitter, cycles: bv32) returns (ghost m': Machine)
    requires e.Linked() && e.mach.gpr[0] == 0 && cycles < MAX_CHARGE
    modifies e`code, e`mach, e`taken
    ensures e.Linked() && e.mach.gpr[0] == 0 && old(e.code) <= e.code && e.taken
    ensures m' == Set(old(e.mach), S2, Charged(old(e.mach.gpr[S2]), cycles))
    ensures !old(e.taken) ==> RunFrom(e.code, e.start, e.startMach) == Left(Dispatch, m')
  {
    hide Falls, ReservedOf, RunFrom, Step, Charged;
    ChargeWordCharges(e.mach, cycles);
    EmitRaw(e, ChargeWord(cycles));
    ghost var a := e.code;
    e.code := e.code + [Goto(Dispatch), NOP];
    m' := e.mach;
    if !e.taken {
      RunsInto(a, e.code, e.start, e.startMach, |a|, m');
      DispatchRuns(e.code, |a|, m');
    }
    e.taken := true;
  }
}
