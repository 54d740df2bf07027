/** Branches and jumps: constant folding, the condition saved across the delay slot,
    the return address, and the target of register jumps. */
module Branches {
  import opened Numbers
  import opened Mips
  import opened Psx
  import opened Native
  import opened Tracking
  import opened BlockScan
  import opened Interpreter
  import opened Emission
  import opened Exits
  import opened Instructions

  const COND: Loc := Frame(72)

  /** What the delay slot is followed by: a fixed target, a run-time condition, or a
      register jump whose target is in cpu.pc. */
  datatype Pending = Nothing | Always(target: bv32) | Cond(target: bv32) | Through(guess: Guess)

  datatype Guess = NoGuess | Guess(pc: bv32)

  /** mark_vreg_const followed by emit_materialize_psx_imm. */
  method Link(e: Emitter, r: Reg, x: bv32, ghost p: Regs, ghost live: set<Reg>)
    requires e.Ok() && e.Matches(p, live - {r})
    modifies e`code, e`mach, e`st
    ensures e.Ok() && e.Extends() && e.Matches(Write(p, r, x), live)
    ensures e.mach.gpr[T8] == old(e.mach.gpr[T8]) && e.mach.gpr[T9] == old(e.mach.gpr[T9])
    ensures e.st == old(e.st).Linked(r, x)
  {
    hide Agrees, Falls, ReservedOf, e.st.Shape;
    e.st.HomeFacts(r);
    if r == 0 {
      if e.Following() { AgreesZero(e.st, e.mach, p, live); }
      return;
    }
    if e.st.home[r] != 0 { LinkHome(e, r, x, p, live); } else { LinkPlain(e, r, x, p, live); }
  }

  method LinkHome(e: Emitter, r: Reg, x: bv32, ghost p: Regs, ghost live: set<Reg>)
    requires e.Ok() && e.Matches(p, live - {r}) && r != 0 && e.st.home[r] != 0
    modifies e`code, e`mach, e`st
    ensures e.Ok() && e.Extends() && e.Matches(Write(p, r, x), live)
    ensures e.mach == Set(old(e.mach), e.st.home[r], x) && e.st == old(e.st).Know(r, x).Written(r)
  {
    hide Agrees, Falls, ReservedOf, e.st.Shape;
    e.st.HomeFacts(r);
    if e.Following() { KnownHome(e.st, e.mach, p, live, r, x); }
    e.LoadImm32(e.st.home[r], x);
    e.st := e.st.Know(r, x).Written(r);
  }

  method LinkPlain(e: Emitter, r: Reg, x: bv32, ghost p: Regs, ghost live: set<Reg>)
    requires e.Ok() && e.Matches(p, live - {r}) && Plain(e.st.home, r)
    modifies e`code, e`mach, e`st
    ensures e.Ok() && e.Extends() && e.Matches(Write(p, r, x), live)
    ensures e.mach.gpr == Set(old(e.mach), AT, x).gpr && e.st == old(e.st).Know(r, x).DropPsx(r)
  {
    hide Agrees, Falls, ReservedOf, e.st.Shape;
    if e.Following() { KnownPlain(e.st, e.mach, p, live, r, x); }
    e.LoadImm32(AT, x);
    e.EmitSw(AT, CpuReg(r));
    e.st := e.st.Know(r, x).DropPsx(r);
  }

  // ---- Conditions ----------------------------------------------------------------------

  /** The branch is decided at compile time. */
  predicate IsFolded(v: View, w: Word)
    requires IsBranch(w)
  {
    w.J? || (w.I? && IsConst(v, w.rs) && (w.op == 0x04 || w.op == 0x05 ==> IsConst(v, w.rt)))
  }

  /** Its outcome for constant operands a and b. */
  predicate FoldsTo(w: Word, a: bv32, b: bv32)
    requires w.I?
  {
    if w.op == 0x04 then a == b
    else if w.op == 0x05 then a != b
    else if w.op == 0x06 then !Positive(a)
    else if w.op == 0x07 then Positive(a)
    else (w.rt % 2 == 0) == Negative(a)
  }

  /** What the emitted comparison leaves in AT. */
  function CondWord(w: Word, a: bv32, b: bv32): bv32
    requires w.I?
  {
    if w.op == 0x04 then AluImm(0x0B, Alu(0x26, a, b), 1)
    else if w.op == 0x05 then Alu(0x26, a, b)
    else if w.op == 0x06 then AluImm(0x0A, a, 1)
    else if w.op == 0x07 then Alu(0x2A, 0, a)
    else if w.rt % 2 == 0 then Alu(0x2A, a, 0)
    else AluImm(0x0E, Alu(0x2A, a, 0), 1)
  }

  lemma CondWordDecides(w: Word, a: bv32, b: bv32)
    requires w.I?
    ensures CondWord(w, a, b) != 0 <==> FoldsTo(w, a, b)
  {
    EqualWord(a, b);
    SignWords(a);
  }

  lemma EqualWord(a: bv32, b: bv32)
    ensures AluImm(0x0B, Alu(0x26, a, b), 1) != 0 <==> a == b
    ensures Alu(0x26, a, b) != 0 <==> a != b
  {
    hide Below, Xor, Alu, AluImm, Flag;
    WordXor(a, b);
    XorEqual(a, b);
    WordBelowOne(Xor(a, b));
    BelowOne(Xor(a, b));
    FlagFlips(Below(Xor(a, b), 1));
  }

  lemma WordXor(a: bv32, b: bv32)
    ensures Alu(0x26, a, b) == Xor(a, b)
  {
    hide Xor;
  }

  lemma WordBelowOne(a: bv32)
    ensures AluImm(0x0B, a, 1) == Flag(Below(a, 1))
  {
    hide Below, Flag, SignExt;
    SmallImmediates();
  }

  lemma XorEqual(a: bv32, b: bv32)
    ensures Xor(a, b) == 0 <==> a == b
  {
  }

  lemma SmallImmediates()
    ensures SignExt(1) == 1 && ZeroExt(1) == 1
  {
  }

  lemma BelowOne(a: bv32)
    ensures Below(a, 1) <==> a == 0
  {
    hide Value;
    SmallValues();
    if Value(a) == 0 { ValueInjective(a, 0); }
  }

  lemma SignWords(a: bv32)
    ensures AluImm(0x0A, a, 1) != 0 <==> !Positive(a)
    ensures Alu(0x2A, 0, a) != 0 <==> Positive(a)
    ensures Alu(0x2A, a, 0) != 0 <==> Negative(a)
    ensures AluImm(0x0E, Alu(0x2A, a, 0), 1) != 0 <==> !Negative(a)
  {
    hide SignedLess, Negative;
    SignCompares(a);
    SmallImmediates();
    FlagFlips(SignedLess(a, 0));
  }

  lemma FlagFlips(b: bool)
    ensures Flag(b) ^ 1 != 0 <==> !b
    ensures Flag(b) != 0 <==> b
  {
  }

  /** Comparison with 0 and 1 is a test of the sign. */
  lemma SignCompares(a: bv32)
    ensures SignedLess(a, 0) <==> Negative(a)
    ensures SignedLess(0, a) <==> Positive(a)
    ensures SignedLess(a, 1) <==> !Positive(a)
  {
    hide Signed;
    SmallValues();
    NegativeBit(a);
    if Signed(a) == 0 { SignedInjective(a, 0); }
  }

  lemma SetTwice(m: Machine, d: Reg, x: bv32, y: bv32)
    ensures Set(Set(m, d, x), d, y) == Set(m, d, y)
  {
    if d != 0 { assert m.gpr[d := x][d := y] == m.gpr[d := y]; }
  }

  /** AT := AT op imm, after AT := x. */
  method AdjustAt(e: Emitter, op: int, imm: bv16, ghost m: Machine, ghost x: bv32)
    requires e.Linked() && e.mach.gpr[0] == 0 && e.mach == Set(m, AT, x)
    modifies e`code, e`mach
    ensures e.Linked() && e.mach.gpr[0] == 0 && e.Extends()
    ensures e.mach == Set(m, AT, AluImm(op, x, imm))
  {
    hide Falls, ReservedOf, AluImm;
    e.Emit(I(op, AT, AT, imm));
    SetTwice(m, AT, x, AluImm(op, x, imm));
  }

  /** Puts the condition in AT from T8 and T9. */
  method Compare(e: Emitter, w: Word)
    requires w.I? && IsBranch(w) && e.Linked() && e.mach.gpr[0] == 0
    modifies e`code, e`mach
    ensures e.Linked() && e.mach.gpr[0] == 0 && e.Extends()
    ensures e.mach == Set(old(e.mach), AT, CondWord(w, old(e.mach.gpr[T8]), old(e.mach.gpr[T9])))
  {
    hide Falls, ReservedOf, Alu, AluImm, Set;
    ghost var m := e.mach;
    if w.op == 0x04 || w.op == 0x05 {
      e.EmitR(0x26, T8, T9, AT);
      if w.op == 0x04 { AdjustAt(e, 0x0B, 1, m, Alu(0x26, m.gpr[T8], m.gpr[T9])); }
    } else if w.op == 0x06 {
      e.Emit(I(0x0A, T8, AT, 1));
    } else if w.op == 0x07 {
      e.EmitR(0x2A, 0, T8, AT);
    } else {
      e.EmitR(0x2A, T8, 0, AT);
      if w.rt % 2 == 1 { AdjustAt(e, 0x0E, 1, m, Alu(0x2A, m.gpr[T8], 0)); }
    }
  }

  /** Words that write the saved condition or cpu.pc. */
  method EmitSwAside(e: Emitter, rt: Reg, at: Loc, ghost p: Regs, ghost live: set<Reg>)
    requires e.Ok() && e.Matches(p, live) && (at == COND || at == CpuPc)
    modifies e`code, e`mach
    ensures e.Ok() && e.Matches(p, live) && old(e.code) <= e.code
    ensures e.mach == Store(old(e.mach), at, old(e.mach.gpr[rt])) && Fixed(e.mach) == old(Fixed(e.mach))
    ensures at == COND ==> Ld(e.mach, CpuPc) == old(Ld(e.mach, CpuPc))
  {
    hide Agrees, Falls, e.st.Shape;
    if e.Following() { AsideStored(e.st, e.mach, p, live, at, e.mach.gpr[rt]); }
    EmitRaw(e, Sw(rt, at));
  }

  // ---- The three kinds of branch ----------------------------------------------------------

  /** What is tracked before w suffices for w and for what follows. */
  ghost predicate CoversBranch(before: set<Reg>, w: Word, live: set<Reg>) {
    live - {LinkOf(w)} <= before && forall r: Reg :: r in DceReads(w) ==> r in before
  }

  /** A branch decided at compile time: only the return address is left to do. */
  method EmitFolded(e: Emitter, w: Word, pc: bv32, ghost p: Regs, ghost before: set<Reg>, ghost live: set<Reg>)
    returns (target: bv32)
    requires IsPsxWord(w) && IsBranch(w) && IsFolded(e.st, w)
    requires e.Ok() && e.Matches(p, before) && CoversBranch(before, w, live)
    modifies e`code, e`mach, e`st
    ensures e.Ok() && e.Extends() && e.Matches(Write(p, LinkOf(w), Add(pc, 8)), live)
    ensures e.st == old(e.st).Linked(LinkOf(w), Add(pc, 8))
    ensures e.Following() ==>
      target == if Jumps(w, p) then JumpTarget(w, p, Add(pc, 4)) else Add(pc, 8)
  {
    hide Agrees, Falls, ReservedOf, e.st.Shape, Add, e.st.Linked;
    if w.J? {
      target := RegionTarget(Add(pc, 4), w.target);
    } else {
      if e.Following() { FoldedOutcome(e, w, p, before); }
      target := if FoldsTo(w, ConstOf(e.st, w.rs), ConstOf(e.st, w.rt)) then Add(Add(pc, 4), Offset(w)) else Add(pc, 8);
    }
    if e.Following() { Weaken(e.st, e.mach, p, before, live - {LinkOf(w)}); }
    Link(e, LinkOf(w), Add(pc, 8), p, live);
  }

  lemma FoldedOutcome(e: Emitter, w: Word, p: Regs, before: set<Reg>)
    requires w.I? && IsPsxWord(w) && IsBranch(w) && IsFolded(e.st, w)
    requires e.Following() && e.Matches(p, before) && forall r: Reg :: r in DceReads(w) ==> r in before
    ensures FoldsTo(w, ConstOf(e.st, w.rs), ConstOf(e.st, w.rt)) == Jumps(w, p)
  {
    hide Agrees;
    ConstIsValue(e, p, before, w.rs);
    if w.op == 0x04 || w.op == 0x05 { ConstIsValue(e, p, before, w.rt); }
  }

  /** The register tables after the operands of a branch have been fetched. */
  function Compared(v: View, w: Word): (v': View)
    requires w.I?
    ensures Succeeds(v, v')
  {
    if w.op == 0x04 || w.op == 0x05 then v.Copied(T8, w.rs).Copied(T9, w.rt) else v.Copied(T8, w.rs)
  }

  /** The register tables after a branch at pc, before its delay slot. */
  function AfterBranch(v: View, w: Word, pc: bv32): (v': View)
    requires IsPsxWord(w) && IsBranch(w)
    ensures Succeeds(v, v')
  {
    var v1 := if IsRegisterJump(w) then v.Copied(T8, w.rs) else if IsFolded(v, w) then v else Compared(v, w);
    v1.Linked(LinkOf(w), Add(pc, 8))
  }

  /** A branch decided at run time: the condition is saved in the frame. */
  method EmitConditional(e: Emitter, w: Word, pc: bv32, ghost p: Regs, ghost before: set<Reg>, ghost live: set<Reg>)
    requires w.I? && IsPsxWord(w) && IsBranch(w)
    requires e.Ok() && e.Matches(p, before) && CoversBranch(before, w, live)
    modifies e`code, e`mach, e`st
    ensures e.Ok() && old(e.code) <= e.code && e.st == Compared(old(e.st), w).Linked(LinkOf(w), Add(pc, 8))
    ensures Fixed(e.mach) == old(Fixed(e.mach))
    ensures e.Matches(Write(p, LinkOf(w), Add(pc, 8)), live)
    ensures e.Following() ==> (Ld(e.mach, COND) != 0 <==> Jumps(w, p))
  {
    hide Agrees, Falls, ReservedOf, e.st.Shape, Add, CondWord, FoldsTo, e.st.Linked, Compared;
    LoadOperands(e, w, p, before);
    if e.Following() { Weaken(e.st, e.mach, p, before, live - {LinkOf(w)}); }
    Link(e, LinkOf(w), Add(pc, 8), p, live);
    SaveCondition(e, w, Jumps(w, p), Write(p, LinkOf(w), Add(pc, 8)), live);
  }

  /** Compares T8 and T9 and stores the outcome in the frame. */
  method SaveCondition(e: Emitter, w: Word, ghost jumps: bool, ghost p: Regs, ghost live: set<Reg>)
    requires w.I? && IsPsxWord(w) && IsBranch(w) && e.Ok() && e.Matches(p, live)
    requires e.Following() ==> FoldsTo(w, e.mach.gpr[T8], e.mach.gpr[T9]) == jumps
    modifies e`code, e`mach
    ensures e.Ok() && e.Matches(p, live) && old(e.code) <= e.code && Fixed(e.mach) == old(Fixed(e.mach))
    ensures e.Following() ==> (Ld(e.mach, COND) != 0 <==> jumps)
  {
    hide Agrees, Falls, ReservedOf, e.st.Shape, CondWord, FoldsTo;
    ghost var m := e.mach;
    Compare(e, w);
    CondWordDecides(w, m.gpr[T8], m.gpr[T9]);
    if e.Following() { AtSet(e.st, m, p, live, CondWord(w, m.gpr[T8], m.gpr[T9])); }
    EmitSwAside(e, AT, COND, p, live);
  }

  /** Brings the operands into T8 and, for BEQ and BNE, T9. */
  method LoadOperands(e: Emitter, w: Word, ghost p: Regs, ghost before: set<Reg>)
    requires w.I? && IsPsxWord(w) && IsBranch(w)
    requires e.Ok() && e.Matches(p, before) && forall r: Reg :: r in DceReads(w) ==> r in before
    modifies e`code, e`mach, e`st
    ensures e.Ok() && e.Extends() && e.Matches(p, before) && e.st == Compared(old(e.st), w)
    ensures e.Following() ==> FoldsTo(w, e.mach.gpr[T8], e.mach.gpr[T9]) == Jumps(w, p)
  {
    hide Agrees, Falls, ReservedOf, e.st.Shape, e.st.Copied;
    e.LoadPsxReg(T8, w.rs, p, before);
    if w.op == 0x04 || w.op == 0x05 {
      e.st.HomeFacts(w.rt);
      e.LoadPsxReg(T9, w.rt, p, before);
    }
  }

  /** JR and JALR: the target goes to cpu.pc, the address of the jump to cpu.current_pc. */
  method EmitRegisterJump(e: Emitter, w: Word, pc: bv32, ghost p: Regs, ghost before: set<Reg>, ghost live: set<Reg>)
    returns (guess: Guess)
    requires IsPsxWord(w) && IsRegisterJump(w)
    requires e.Ok() && e.Matches(p, before) && CoversBranch(before, w, live)
    modifies e`code, e`mach, e`st
    ensures e.Ok() && old(e.code) <= e.code && e.st == old(e.st).Copied(T8, w.rs).Linked(LinkOf(w), Add(pc, 8))
    ensures Fixed(e.mach) == old(Fixed(e.mach))
    ensures e.Matches(Write(p, LinkOf(w), Add(pc, 8)), live)
    ensures e.Following() ==> Ld(e.mach, CpuPc) == p.r[w.rs] && (guess.Guess? ==> guess.pc == p.r[w.rs])
  {
    hide Agrees, Falls, ReservedOf, e.st.Shape, Add, e.st.Copied, e.st.Linked;
    SaveTarget(e, w, pc, p, before);
    guess := if w.fn == 0x08 && IsConst(e.st, w.rs) then Guess(ConstOf(e.st, w.rs)) else NoGuess;
    if e.Following() {
      if IsConst(e.st, w.rs) { ConstIsValue(e, p, before, w.rs); }
      Weaken(e.st, e.mach, p, before, live - {LinkOf(w)});
    }
    LinkKeepsPc(e, LinkOf(w), Add(pc, 8), p, live);
  }

  method SaveTarget(e: Emitter, w: Word, pc: bv32, ghost p: Regs, ghost before: set<Reg>)
    requires IsPsxWord(w) && IsRegisterJump(w)
    requires e.Ok() && e.Matches(p, before) && (w.rs == 0 || w.rs in before)
    modifies e`code, e`mach, e`st
    ensures e.Ok() && old(e.code) <= e.code && e.st == old(e.st).Copied(T8, w.rs)
    ensures Fixed(e.mach) == old(Fixed(e.mach)) && e.Matches(p, before)
    ensures e.Following() ==> Ld(e.mach, CpuPc) == p.r[w.rs]
  {
    hide Agrees, Falls, ReservedOf, e.st.Shape, Add, e.st.Copied;
    e.LoadPsxReg(T8, w.rs, p, before);
    EmitSwAside(e, T8, CpuPc, p, before);
    SaveCurrentPc(e, pc, p, before);
  }

  method SaveCurrentPc(e: Emitter, pc: bv32, ghost p: Regs, ghost live: set<Reg>)
    requires e.Ok() && e.Matches(p, live)
    modifies e`code, e`mach
    ensures e.Ok() && e.Extends() && e.Matches(p, live) && Ld(e.mach, CpuPc) == old(Ld(e.mach, CpuPc))
  {
    hide Agrees, Falls, ReservedOf, e.st.Shape;
    if e.Following() {
      AtSet(e.st, e.mach, p, live, pc);
      AsideStored(e.st, Set(e.mach, AT, pc), p, live, CpuCurrentPc, pc);
    }
    e.LoadImm32(AT, pc);
    e.EmitSw(AT, CpuCurrentPc);
  }

  method LinkKeepsPc(e: Emitter, r: Reg, x: bv32, ghost p: Regs, ghost live: set<Reg>)
    requires e.Ok() && e.Matches(p, live - {r})
    modifies e`code, e`mach, e`st
    ensures e.Ok() && e.Extends() && e.Matches(Write(p, r, x), live) && e.st == old(e.st).Linked(r, x)
    ensures Ld(e.mach, CpuPc) == old(Ld(e.mach, CpuPc))
  {
    hide Agrees, Falls, e.st.Shape, e.st.Linked;
    Link(e, r, x, p, live);
    assert ReservedOf(e.mach).pc == old(ReservedOf(e.mach)).pc;
  }
}
