/** The constants in the register tables are the registers' values, word by word. */
module Constants {
  import opened Mips
  import opened Psx
  import opened Tracking
  import opened Slots
  import opened BlockScan
  import opened Interpreter
  import opened Exits
  import opened Instructions
  import opened Branches
  import opened Plan
  import Dce

  /** What the tables hold as constants is what the registers hold. */
  ghost predicate ConstsHold(v: View, p: Regs) {
    p.r[0] == 0 && forall r: Reg :: v.vregs[r].isConst ==> v.vregs[r].value == p.r[r]
  }

  lemma OperandHolds(v: View, p: Regs, r: Reg)
    requires ConstsHold(v, p) && IsConst(v, r)
    ensures ConstOf(v, r) == p.r[r]
  {
  }

  /** Register r is computed at run time, and the other constants stay. */
  lemma ComputedHold(v: View, v2: View, v': View, p: Regs, r: Reg, x: bv32)
    requires v.Shape() && ConstsHold(v, p) && SameConsts(v.AsVar(r), v2) && v'.vregs == v2.vregs
    ensures ConstsHold(v', Write(p, r, x))
  {
  }

  lemma FieldReadHold(v: View, p: Regs, r: Reg, x: bv32)
    requires v.Shape() && ConstsHold(v, p)
    ensures ConstsHold(v.FieldRead(r), Write(p, r, x))
  {
    hide ConstsHold, v.Shape, v.AsVar;
    ComputedHold(v, v.AsVar(r), v.FieldRead(r), p, r, x);
  }

  lemma DeferredHold(v: View, p: Regs, r: Reg, x: bv32)
    requires ConstsHold(v, p)
    ensures ConstsHold(v.Deferred(r, x), Write(p, r, x))
  {
  }

  lemma SameHold(v: View, v': View, p: Regs, p': Regs)
    requires ConstsHold(v, p) && SameConsts(v, v') && p'.r == p.r
    ensures ConstsHold(v', p')
  {
  }

  lemma AluHolds(v: View, w: Word, p: Regs)
    requires v.Shape() && ConstsHold(v, p) && IsAluWord(w)
    ensures ConstsHold(After(v, w), Exec(w, p))
  {
    hide Shift, Alu, AluImm, ProductHi, ProductLo, DivHi, DivLo, ConstsHold, v.Shape, v.Used, v.Copied, v.Synced, v.AsVar,
         v.FieldRead, v.Deferred, v.DropAll;
    if w == NOP {
      SameHold(v, v, p, Exec(w, p));
    } else if w.I? {
      ImmHolds(v, w, p);
    } else {
      RegHolds(v, w, p);
    }
  }

  lemma ImmHolds(v: View, w: Word, p: Regs)
    requires v.Shape() && ConstsHold(v, p) && IsAluWord(w) && w.I?
    ensures ConstsHold(After(v, w), Exec(w, p))
  {
    hide AluImm, ConstsHold, ZeroExt, v.Shape, v.Used, v.Synced, v.AsVar, v.Deferred, v.DropAll;
    if w.op == 0x0F { LuiHolds(v, w, p); } else { OneHolds(v, w, p); }
  }

  lemma OneHolds(v: View, w: Word, p: Regs)
    requires v.Shape() && ConstsHold(v, p) && IsAluWord(w) && w.I? && w.op != 0x0F
    ensures ConstsHold(After(v, w), Exec(w, p))
  {
    hide AluImm, ConstsHold, ZeroExt, v.Shape, v.Used, v.Synced, v.AsVar, v.Deferred, v.DropAll;
    var x := AluImm(w.op, p.r[w.rs], w.imm);
    if IsConst(v, w.rs) {
      OperandHolds(v, p, w.rs);
      DeferredHold(v, p, w.rt, x);
    } else {
      ComputedHold(v, v.AsVar(w.rt).Used(w.rs, T8), After(v, w), p, w.rt, x);
    }
  }

  lemma LuiHolds(v: View, w: Word, p: Regs)
    requires ConstsHold(v, p) && w.I? && w.op == 0x0F
    ensures ConstsHold(v.Deferred(w.rt, ZeroExt(w.imm) << 16), Exec(w, p))
  {
    hide ConstsHold, ZeroExt, AluImm, v.Deferred;
    LuiValue(p.r[w.rs], w.imm);
    DeferredHold(v, p, w.rt, AluImm(0x0F, p.r[w.rs], w.imm));
  }

  lemma LuiValue(a: bv32, imm: bv16)
    ensures AluImm(0x0F, a, imm) == ZeroExt(imm) << 16
  {
  }

  lemma RegHolds(v: View, w: Word, p: Regs)
    requires v.Shape() && ConstsHold(v, p) && IsAluWord(w) && w.R? && w != NOP
    ensures ConstsHold(After(v, w), Exec(w, p))
  {
    hide Shift, Alu, ProductHi, ProductLo, DivHi, DivLo, ConstsHold, v.Shape, v.Used, v.Copied, v.Synced, v.AsVar,
         v.FieldRead, v.Deferred, v.DropAll, Fetched;
    if w.fn == 0x11 || w.fn == 0x13 || 0x18 <= w.fn <= 0x1B {
      SameHold(v, After(v, w), p, Exec(w, p));
    } else if w.fn == 0x10 || w.fn == 0x12 {
      FieldReadHold(v, p, w.rd, if w.fn == 0x10 then p.hi else p.lo);
    } else if IsShift(w.fn) {
      ShiftHolds(v, w, p);
    } else {
      TwoHold(v, w, p);
    }
  }

  lemma ShiftHolds(v: View, w: Word, p: Regs)
    requires v.Shape() && ConstsHold(v, p) && w.R? && IsShift(w.fn)
    ensures ConstsHold(AfterShift(v, w), Write(p, w.rd, Shift(w.fn, p.r[w.rt], w.sa)))
  {
    hide Shift, ConstsHold, v.Shape, v.Used, v.Synced, v.AsVar, v.Deferred;
    var x := Shift(w.fn, p.r[w.rt], w.sa);
    if IsConst(v, w.rt) {
      OperandHolds(v, p, w.rt);
      DeferredHold(v, p, w.rd, x);
    } else {
      ComputedHold(v, v.AsVar(w.rd).Used(w.rt, T8), AfterShift(v, w), p, w.rd, x);
    }
  }

  /** Instructions with two operands. */
  lemma TwoHold(v: View, w: Word, p: Regs)
    requires v.Shape() && ConstsHold(v, p) && IsAluWord(w) && w.R? && !IsShift(w.fn)
    requires w.fn < 0x10 || w.fn > 0x1B
    ensures ConstsHold(After(v, w), Exec(w, p))
  {
    hide Alu, ConstsHold, v.Shape, v.Synced, v.AsVar, v.Deferred, v.DropAll, Fetched;
    var x := Alu(w.fn, p.r[w.rs], p.r[w.rt]);
    if IsConst(v, w.rs) && IsConst(v, w.rt) && !IsShiftVar(w.fn) {
      OperandHolds(v, p, w.rs);
      OperandHolds(v, p, w.rt);
      DeferredHold(v, p, w.rd, x);
    } else if IsShiftVar(w.fn) {
      ComputedHold(v, Fetched(v, w.rd, w.rt, w.rs), After(v, w), p, w.rd, x);
    } else {
      ComputedHold(v, Fetched(v, w.rd, w.rs, w.rt), After(v, w), p, w.rd, x);
    }
  }

  lemma BranchHolds(v: View, w: Word, pc: bv32, p: Regs)
    requires v.Shape() && ConstsHold(v, p) && IsPsxWord(w) && IsBranch(w)
    ensures ConstsHold(AfterBranch(v, w, pc), Write(p, LinkOf(w), Add(pc, 8)))
  {
    hide ConstsHold, v.Shape, v.Copied, v.Linked, Add, LinkOf;
    var v1 := if IsRegisterJump(w) then v.Copied(T8, w.rs) else if IsFolded(v, w) then v else Compared(v, w);
    SameHold(v, v1, p, p);
    LinkHolds(v1, p, LinkOf(w), Add(pc, 8));
  }

  lemma LinkHolds(v: View, p: Regs, r: Reg, x: bv32)
    requires ConstsHold(v, p)
    ensures ConstsHold(v.Linked(r, x), Write(p, r, x))
  {
  }

  lemma ForgetHolds(v: View, p: Regs, r: Reg)
    requires ConstsHold(v, p)
    ensures ConstsHold(v.Forget(r), p)
  {
  }

  lemma WordHolds(v: View, w: Word, pc: bv32, dead: bool, p: Regs)
    requires v.Shape() && ConstsHold(v, p) && (!dead ==> InFragment(w))
    ensures ConstsHold(AfterWord(v, w, pc, dead), if dead then p else Effect(w, pc, p))
  {
    hide ConstsHold, v.Shape, After, AfterBranch, IsPsxWord, IsAluWord, IsBranch, Exec, LinkOf, Add, DceDest;
    if dead { ForgetHolds(v, p, DceDest(w)); }
    else if IsAluWord(w) { AluHolds(v, w, p); }
    else { BranchHolds(v, w, pc, p); }
  }

  /** From entry on every constant in the tables is the value of its register. */
  lemma {:induction false} WalkHolds(fetch: bv32 -> Word, c0: Cpu, slots: SlotMap, n: nat)
    requires slots.Valid() && Regular(fetch, c0.pc, n) && c0.regs.r[0] == 0
    ensures Walk(fetch, c0.pc, slots, n).Shape() && ConstsHold(Walk(fetch, c0.pc, slots, n), ThinAt(fetch, c0, n))
    decreases n
  {
    hide ConstsHold, slots.Valid, slots.Homes, WordAt, PcAt, DeadAt, AfterWord, Effect, InFragment, IsBranch, InSlot;
    if n == 0 {
      EntryHolds(slots, WriteFirstSet(BlockAt(fetch, c0.pc, 0)), c0.regs);
    } else {
      var v, w, pc := Walk(fetch, c0.pc, slots, n - 1), WordAt(fetch, c0.pc, n - 1), PcAt(c0.pc, n - 1);
      var dead, p := DeadAt(fetch, c0.pc, n - 1), ThinAt(fetch, c0, n - 1);
      WalkHolds(fetch, c0, slots, n - 1);
      assert InFragment(w);
      WordHolds(v, w, pc, dead, p);
    }
  }

  lemma EntryHolds(slots: SlotMap, writeFirst: set<Reg>, p: Regs)
    requires slots.Valid() && p.r[0] == 0
    ensures Entered(slots, writeFirst).Shape() && ConstsHold(Entered(slots, writeFirst), p)
  {
    hide slots.Valid;
    EntryShape(slots);
  }

  lemma OverflowTraps(v: View, w: Word, p: Regs)
    requires ConstsHold(v, p) && KnownOverflow(v, w) && IsAluWord(w)
    ensures Traps(w, p)
  {
    hide ConstsHold, AddOverflows, SubOverflows, SignExt;
    OperandHolds(v, p, w.rs);
    if w.R? { OperandHolds(v, p, w.rt); }
  }

  /** Where a word of the fragment is declined because its constants overflow, the interpreter
      stops: no run goes beyond it. */
  lemma OverflowStops(fetch: bv32 -> Word, c0: Cpu, slots: SlotMap, n: nat)
    requires slots.Valid() && Accepted(fetch, c0.pc, slots, n) && c0.regs.r[0] == 0
    requires Straight(fetch, c0, n) && Chain(fetch, c0, n).pc == PcAt(c0.pc, n)
    requires var w := WordAt(fetch, c0.pc, n);
             InFragment(w) && !DeadAt(fetch, c0.pc, n) && KnownOverflow(Walk(fetch, c0.pc, slots, n), w)
    ensures StopsInside(fetch, c0, n + 1)
  {
    hide ConstsHold, slots.Valid, WordAt, PcAt, DeadAt, Walk, Accepted, Straight, Chain, IsPsxWord, IsBranch, IsAluWord, Thin,
         KnownOverflow, Traps, Jumps, JumpTarget, Add;
    var w := WordAt(fetch, c0.pc, n);
    OverflowIsAlu(Walk(fetch, c0.pc, slots, n), w);
    AluIsNoBranch(w);
    RegularNext(fetch, c0.pc, slots, n);
    WalkHolds(fetch, c0, slots, n);
    OverflowTraps(Walk(fetch, c0.pc, slots, n), w, ThinAt(fetch, c0, n));
    ThinJudges(fetch, c0, n);
    assert StopsAt(fetch, c0, n);
  }

  lemma OverflowIsAlu(v: View, w: Word)
    requires KnownOverflow(v, w) && InFragment(w)
    ensures IsAluWord(w)
  {
  }
}
