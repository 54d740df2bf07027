/** The register-tracking emitter: lazy constants, dynamic slots T0-T7, pinned
    registers S4-S7 and the T8/T9 scratch cache.

    The emitter carries ghost state beside its own: `mach` is the native machine
    that has executed everything emitted so far.  It starts as an arbitrary
    machine, so what the contracts say of it holds for every run of the code. */
module Emission {
  import opened Mips
  import opened Psx
  import opened Native
  import opened Tracking

  class Emitter {
    var code: seq<Word>
    var st: View

    ghost var mach: Machine
    /** Start of the current straight run, and the machine there. */
    ghost var start: nat
    ghost var startMach: Machine
    /** The run has left by an earlier branch and does not come here. */
    ghost var taken: bool

    constructor (v: View, ghost m: Machine)
      ensures code == [] && st == v && mach == m == startMach && start == 0 && !taken
    {
      code, st, mach, start, startMach, taken := [], v, m, 0, m, false;
    }

    // ---- Invariants --------------------------------------------------------

    /** The current machine is the one the emitted code produces. */
    ghost predicate Linked()
      reads this
    {
      start <= |code| && (!taken ==> Falls(code, start, startMach, |code|, mach))
    }

    ghost predicate Ok()
      reads this
    {
      st.Shape() && mach.gpr[0] == 0 && Linked()
    }

    /** The run comes here and has met no stale scratch register. */
    ghost predicate Following()
      reads this
    {
      !taken && !st.misread
    }

    ghost predicate Matches(p: Regs, live: set<Reg>)
      reads this
    {
      Following() ==> Agrees(st, mach, p, live)
    }

    /** What every emission step does to the rest: the code grows, the reserved state
        and the register homes stay, and a misreading is never forgotten. */
    twostate predicate Extends()
      reads this
    {
      old(code) <= code && ReservedOf(mach) == old(ReservedOf(mach)) &&
      Succeeds(old(st), st)
    }

    // ---- Emission ------------------------------------------------------------

    method Emit(w: Word)
      requires Linked() && mach.gpr[0] == 0 && !IsControl(w) && Keeps(w)
      modifies this`code, this`mach
      ensures code == old(code) + [w] && mach == Step(w, old(mach)) && Linked()
      ensures mach.gpr[0] == 0 && ReservedOf(mach) == old(ReservedOf(mach))
    {
      hide Falls, Step, ReservedOf;
      StepKeeps(w, mach);
      if !taken { FallsStep(code, w, start, startMach, mach); }
      code := code + [w];
      mach := Step(w, mach);
    }

    method EmitLw(rt: Reg, at: Loc)
      requires Linked() && mach.gpr[0] == 0 && Writable(rt)
      modifies this`code, this`mach
      ensures old(code) <= code && mach == Set(old(mach), rt, Ld(old(mach), at)) && Linked()
      ensures mach.gpr[0] == 0 && ReservedOf(mach) == old(ReservedOf(mach))
    {
      Emit(Lw(rt, at));
    }

    method EmitSw(rt: Reg, at: Loc)
      requires Linked() && mach.gpr[0] == 0 && at != Frame(72) && at != CpuPc
      modifies this`code, this`mach
      ensures old(code) <= code && mach == Store(old(mach), at, old(mach).gpr[rt]) && Linked()
      ensures mach.gpr[0] == 0 && ReservedOf(mach) == old(ReservedOf(mach))
    {
      Emit(Sw(rt, at));
    }

    method EmitR(fn: int, rs: Reg, rt: Reg, rd: Reg)
      requires Linked() && mach.gpr[0] == 0 && Writable(rd) && (IsAlu3(fn) || IsShiftVar(fn))
      modifies this`code, this`mach
      ensures old(code) <= code && Linked()
      ensures mach == Set(old(mach), rd, Alu(fn, old(mach).gpr[rs], old(mach).gpr[rt]))
      ensures mach.gpr[0] == 0 && ReservedOf(mach) == old(ReservedOf(mach))
    {
      hide ReservedOf, Falls, Alu;
      Emit(R(0, rs, rt, rd, 0, fn));
    }

    /** MOVZ rd, rs, rt: rd := rs when rt is zero. */
    method EmitMovz(rd: Reg, rs: Reg, rt: Reg)
      requires Linked() && mach.gpr[0] == 0 && Writable(rd)
      modifies this`code, this`mach
      ensures old(code) <= code && Linked()
      ensures var g := old(mach.gpr);
              mach == Set(old(mach), rd, if g[rt] == 0 then g[rs] else g[rd])
      ensures mach.gpr[0] == 0 && ReservedOf(mach) == old(ReservedOf(mach))
    {
      hide ReservedOf, Falls, Alu;
      Emit(R(0, rs, rt, rd, 0, 0x0A));
      assert old(mach.gpr)[rd := old(mach.gpr)[rd]] == old(mach.gpr);
    }

    method EmitShift(fn: int, rt: Reg, rd: Reg, sa: bv5)
      requires Linked() && mach.gpr[0] == 0 && Writable(rd) && IsShift(fn)
      modifies this`code, this`mach
      ensures old(code) <= code && Linked()
      ensures mach == Set(old(mach), rd, Shift(fn, old(mach.gpr[rt]), sa))
      ensures mach.gpr[0] == 0 && ReservedOf(mach) == old(ReservedOf(mach))
    {
      hide ReservedOf, Falls, Shift, Alu;
      Emit(R(0, 0, rt, rd, sa, fn));
    }

    method EmitNop()
      requires Linked() && mach.gpr[0] == 0
      modifies this`code
      ensures old(code) <= code && Linked()
    {
      hide Falls, Step;
      NopStep(mach);
      if !taken { FallsStep(code, NOP, start, startMach, mach); }
      code := code + [NOP];
    }

    method EmitMove(d: Reg, s: Reg)
      requires Linked() && mach.gpr[0] == 0 && Writable(d)
      modifies this`code, this`mach
      ensures old(code) <= code && mach == Set(old(mach), d, old(mach).gpr[s]) && Linked()
      ensures mach.gpr[0] == 0 && ReservedOf(mach) == old(ReservedOf(mach))
    {
      Emit(R(0, s, 0, d, 0, 0x21));
    }

    method LoadImm32(h: Reg, v: bv32)
      requires Linked() && mach.gpr[0] == 0 && h != 0 && Writable(h)
      modifies this`code, this`mach
      ensures old(code) <= code && mach == Set(old(mach), h, v) && Linked()
      ensures mach.gpr[0] == 0 && ReservedOf(mach) == old(ReservedOf(mach))
    {
      hide ReservedOf;
      if v == 0 {
        EmitMove(h, 0);
      } else if v & 0xFFFF_0000 == 0 {
        OriLoads(v);
        Emit(I(0x0D, 0, h, Lo16(v)));
      } else if 0xFFFF_8000 <= v {
        AddiuLoads(v);
        Emit(I(0x09, 0, h, Lo16(v)));
      } else if v & 0xFFFF == 0 {
        LuiOriLoads(v);
        Emit(I(0x0F, 0, h, Hi16(v)));
      } else {
        LuiOriLoads(v);
        Emit(I(0x0F, 0, h, Hi16(v)));
        Emit(I(0x0D, h, h, Lo16(v)));
      }
    }

    /** BLTZ AT to a cold path, and its empty delay slot.  The offset is patched later. */
    method EmitBltzAt()
      requires Linked()
      modifies this`code, this`taken
      ensures old(code) <= code && Linked()
      ensures taken == (old(taken) || Negative(mach.gpr[AT]))
    {
      ghost var w := Br(1, AT, 0, 0);
      if !taken {
        if Taken(w, mach) { taken := true; }
        else { FallsBranch(code, w, NOP, start, startMach, mach); }
      }
      code := code + [Br(1, AT, 0, 0), NOP];
    }

    // ---- Operands ----------------------------------------------------------------

    /** Writes the lazy constant of r to its home, or through scratch to cpu.regs[]. */
    method Materialize(r: Reg, scratch: Reg, ghost p: Regs, ghost live: set<Reg>) returns (h: Reg)
      requires Ok() && Matches(p, live) && st.vregs[r].Lazy()
      requires scratch == T8 || scratch == T9
      modifies this`code, this`mach, this`st
      ensures Ok() && Extends()
      ensures h == HomeOr(st.home, r, scratch)
      ensures mach.gpr == old(mach.gpr)[h := old(st.vregs[r].value)]
      ensures Matches(p, live) && st == old(st).Materialized(r, scratch)
    {
      hide Agrees, Holds, ReservedOf, Falls, st.Shape;
      st.HomeFacts(r);
      ghost var s0, m0 := st, mach;
      h := if st.home[r] != 0 then st.home[r] else scratch;
      LoadImm32(h, st.vregs[r].value);
      if st.home[r] != 0 {
        st := st.Clean(r).Written(r);
        if Following() { MaterializedHome(s0, m0, p, live, r); }
      } else {
        EmitSw(h, CpuReg(r));
        // the other scratch register may still hold the value r had before
        st := st.DropHw(h).Outdated(r);
        if Following() { MaterializedPlain(s0, m0, p, live, r, h, st); }
        st := st.Clean(r);
      }
    }

    /** Reads a register without a home through scratch, reusing a cached copy. */
    method ReadPlain(r: Reg, scratch: Reg, ghost p: Regs, ghost live: set<Reg>)
      requires Ok() && Matches(p, live) && Plain(st.home, r) && r in live && !st.vregs[r].Lazy()
      requires scratch == T8 || scratch == T9
      modifies this`code, this`mach, this`st
      ensures Ok() && Extends()
      ensures mach == if old(st).In(scratch) == r then old(mach) else Set(old(mach), scratch, Ld(old(mach), CpuReg(r)))
      ensures Matches(p, live) && (Following() ==> mach.gpr[scratch] == p.r[r])
      ensures st == old(st).Read(r, scratch)
    {
      hide Agrees, Holds, ReservedOf, Falls, st.Shape;
      st.HomeFacts(r);
      if Following() { AgreesAt(st, mach, p, live, r); }
      if st.In(scratch) != r {
        if Following() { ScratchFilled(st, mach, p, live, scratch, r); }
        EmitLw(scratch, CpuReg(r));
      } else {
        if Following() { ReadKeeps(st, mach, p, live, r, scratch); }
      }
      st := st.Read(r, scratch);
    }

    /** Loads a home that a write-before-read block skipped at entry. */
    method FillHome(r: Reg, ghost p: Regs, ghost live: set<Reg>)
      requires Ok() && Matches(p, live) && st.home[r] != 0
      modifies this`code, this`mach, this`st
      ensures Ok() && Extends()
      ensures forall x: Reg :: x != st.home[r] ==> mach.gpr[x] == old(mach.gpr[x])
      ensures Matches(p, live) && st == old(st).Loaded(r)
    {
      hide Agrees, Holds, ReservedOf, Falls, st.Shape;
      st.HomeFacts(r);
      if r !in st.loaded {
        if Following() { HomeFilled(st, mach, p, live, r); }
        EmitLw(st.home[r], CpuReg(r));
        st := st.Filled(r);
      }
    }

    /** emit_use_reg: brings register r into a native register and says which. */
    method UseReg(r: Reg, scratch: Reg, ghost p: Regs, ghost live: set<Reg>) returns (h: Reg)
      requires Ok() && Matches(p, live) && (r == 0 || r in live)
      requires scratch == T8 || scratch == T9
      modifies this`code, this`mach, this`st
      ensures Ok() && Extends()
      ensures h == HomeOr(st.home, r, scratch) && st == old(st).Used(r, scratch)
      ensures forall x: Reg :: x != h ==> mach.gpr[x] == old(mach.gpr[x])
      ensures Matches(p, live) && (Following() ==> mach.gpr[h] == p.r[r])
      ensures old(Plain(st.home, r) && !st.vregs[r].Lazy()) ==>
        mach == if old(st).In(scratch) == r then old(mach) else Set(old(mach), scratch, Ld(old(mach), CpuReg(r)))
    {
      hide Agrees, Holds, ReservedOf, Falls, st.Shape, st.Materialized, st.Read, st.Loaded;
      st.HomeFacts(r);
      if Following() { AgreesAt(st, mach, p, live, r); }
      if r == 0 { return 0; }
      if st.vregs[r].isConst && st.vregs[r].isDirty {
        h := Materialize(r, scratch, p, live);
      } else if st.home[r] != 0 {
        FillHome(r, p, live);
        h := st.home[r];
        if Following() { AgreesAt(st, mach, p, live, r); }
      } else {
        ReadPlain(r, scratch, p, live);
        h := scratch;
      }
    }

    /** emit_load_psx_reg: copies register r into scratch register h. */
    method LoadPsxReg(h: Reg, r: Reg, ghost p: Regs, ghost live: set<Reg>)
      requires Ok() && Matches(p, live) && (r == 0 || r in live) && (h == T8 || h == T9)
      modifies this`code, this`mach, this`st
      ensures Ok() && Extends()
      ensures st == old(st).Copied(h, r)
      ensures forall x: Reg :: x != h && x != st.home[r] ==> mach.gpr[x] == old(mach.gpr[x])
      ensures Matches(p, live) && (Following() ==> mach.gpr[h] == p.r[r])
    {
      hide Agrees, Holds, ReservedOf, Falls, st.Shape, st.Materialized, st.Read, st.Loaded;
      st.HomeFacts(r);
      if Following() { AgreesAt(st, mach, p, live, r); }
      if r == 0 {
        MoveToScratch(h, 0, p, live);
      } else if st.vregs[r].Lazy() {
        if st.home[r] != 0 { LoadLazy(h, r, p, live); } else { var _ := Materialize(r, h, p, live); }
      } else if st.home[r] != 0 {
        FillHome(r, p, live);
        if Following() { AgreesAt(st, mach, p, live, r); }
        MoveToScratch(h, st.home[r], p, live);
      } else {
        ReadPlain(r, h, p, live);
      }
    }

    /** Copies a native register into a scratch register, which then caches nothing. */
    method MoveToScratch(h: Reg, s: Reg, ghost p: Regs, ghost live: set<Reg>)
      requires Ok() && Matches(p, live) && (h == T8 || h == T9)
      modifies this`code, this`mach, this`st
      ensures Ok() && Extends()
      ensures mach == Set(old(mach), h, old(mach.gpr[s])) && st == old(st).DropHw(h)
      ensures Matches(p, live)
    {
      hide Agrees, Holds, ReservedOf, Falls, st.Shape;
      if Following() { ScratchDropped(st, mach, p, live, h, mach.gpr[s]); }
      EmitMove(h, s);
      st := st.DropHw(h);
    }

    /** The lazy-constant case of emit_load_psx_reg for a register with a home. */
    method LoadLazy(h: Reg, r: Reg, ghost p: Regs, ghost live: set<Reg>)
      requires Ok() && Matches(p, live) && st.vregs[r].Lazy() && st.home[r] != 0 && (h == T8 || h == T9)
      modifies this`code, this`mach, this`st
      ensures Ok() && Extends()
      ensures st == old(st).DropHw(h).Clean(r).Written(r)
      ensures mach.gpr == old(mach.gpr)[h := old(st.vregs[r].value)][st.home[r] := old(st.vregs[r].value)]
      ensures Matches(p, live)
    {
      hide Agrees, Holds, ReservedOf, Falls, st.Shape;
      st.HomeFacts(r);
      var x := st.vregs[r].value;
      if Following() { ScratchDropped(st, mach, p, live, h, x); }
      LoadImm32(h, x);
      st := st.DropHw(h);
      if Following() { MaterializedHome(st, mach, p, live, r); }
      EmitMove(st.home[r], h);
      st := st.Clean(r).Written(r);
    }

    /** Stores the lazy constant of r, through AT when r has no home. */
    method StoreLazy(r: Reg, ghost p: Regs, ghost live: set<Reg>)
      requires Ok() && Matches(p, live) && st.vregs[r].Lazy()
      modifies this`code, this`mach, this`st
      ensures Ok() && Extends()
      ensures Matches(p, live) && st == old(st).LazyStored(r)
    {
      hide Agrees, Holds, ReservedOf, Falls, st.Shape;
      st.HomeFacts(r);
      var x := st.vregs[r].value;
      if st.home[r] != 0 {
        if Following() { MaterializedHome(st, mach, p, live, r); }
        LoadImm32(st.home[r], x);
        st := st.Clean(r).Written(r);
      } else {
        if Following() { MaterializedPlain(st, mach, p, live, r, AT, st.DropPsx(r)); }
        LoadImm32(AT, x);
        EmitSw(AT, CpuReg(r));
        st := st.DropPsx(r).Clean(r);
      }
    }

    /** mark_vreg_var: register r is about to be computed at run time. */
    method MarkVar(r: Reg, ghost p: Regs, ghost live: set<Reg>)
      requires Ok() && Matches(p, live)
      modifies this`code, this`mach, this`st
      ensures Ok() && Extends()
      ensures Matches(p, live) && st == old(st).AsVar(r)
      ensures r == 0 || !old(st.vregs[r].Lazy()) ==> mach == old(mach)
    {
      hide Agrees, Holds, ReservedOf, Falls, st.Shape, st.LazyStored;
      st.HomeFacts(r);
      if r == 0 { return; }
      if st.vregs[r].Lazy() { StoreLazy(r, p, live); }
      if Following() { Forgotten(st, mach, p, live, r); }
      st := st.Forget(r);
    }

    /** mark_vreg_const_lazy: register r now has a constant that no code computes yet. */
    method MarkConstLazy(r: Reg, x: bv32, ghost p: Regs, ghost live: set<Reg>)
      requires Ok() && Matches(p, live - {r})
      modifies this`st
      ensures Ok() && Extends() && Matches(Write(p, r, x), live)
      ensures st == old(st).Deferred(r, x)
    {
      hide Agrees, Holds, Falls, st.Shape;
      if r == 0 {
        if Following() { AgreesZero(st, mach, p, live); }
        return;
      }
      if Following() { MadeLazy(st, mach, p, live, r, x); }
      st := st.Defer(r, x);
    }

    /** emit_dst_reg: where an instruction that writes r puts its result. */
    function DstReg(r: Reg): Reg
      reads this
    {
      if r == 0 then T8 else HomeOr(st.home, r, T8)
    }

    /** emit_sync_reg: register `DstReg(r)` has just received the result x. */
    method SyncReg(r: Reg, ghost m0: Machine, ghost x: bv32, ghost p: Regs, ghost live: set<Reg>)
      requires Ok() && mach == Set(m0, DstReg(r), x) && m0.gpr[0] == 0
      requires Following() ==> Agrees(st, m0, p, live - {r})
      requires !st.vregs[r].isConst
      modifies this`code, this`mach, this`st
      ensures Ok() && Extends()
      ensures Matches(Write(p, r, x), live)
      ensures st == old(st).Synced(r)
      ensures mach == if Plain(old(st.home), r) then Store(old(mach), CpuReg(r), x) else old(mach)
    {
      hide Agrees, Holds, ReservedOf, Falls, Store, Write, st.Shape, st.Synced;
      st.HomeFacts(r);
      if Following() { ResultSynced(st, m0, p, live, r, x); }
      if r != 0 && st.home[r] == 0 {
        TargetHolds(m0, T8, x);
        EmitSw(T8, CpuReg(r));
      }
      st := st.Synced(r);
    }

    /** emit_cpu_field_to_psx_reg: copies HI or LO into register r. */
    method FieldToPsxReg(at: Loc, r: Reg, ghost p: Regs, ghost live: set<Reg>)
      requires Ok() && Matches(p, live - {r}) && (at == CpuHi || at == CpuLo)
      modifies this`code, this`mach, this`st
      ensures Ok() && Extends()
      ensures Matches(Write(p, r, if at == CpuHi then p.hi else p.lo), live)
      ensures st == old(st).FieldRead(r)
    {
      hide Agrees, Holds, ReservedOf, Falls, st.Shape, st.AsVar;
      MarkVar(r, p, live - {r});
      st.HomeFacts(r);
      ghost var x := Ld(mach, at);
      if Following() { HiLoAt(st, mach, p, live - {r}); }
      if r == 0 {
        if Following() { AgreesZero(st, mach, p, live); }
      } else if st.home[r] != 0 {
        if Following() { HomeWritten(st, mach, p, live, r, x); }
        EmitLw(st.home[r], at);
        st := st.Written(r);
      } else {
        if Following() { AtSet(st, mach, p, live - {r}, x); }
        EmitLw(AT, at);
        StoreAt(r, p, live);
      }
    }

    /** AT goes to cpu.regs[r]. */
    method StoreAt(r: Reg, ghost p: Regs, ghost live: set<Reg>)
      requires Ok() && Plain(st.home, r) && !st.vregs[r].isConst && Matches(p, live - {r})
      modifies this`code, this`mach, this`st
      ensures Ok() && Extends() && Matches(Write(p, r, old(mach.gpr[AT])), live) && st == old(st).DropPsx(r)
    {
      hide Agrees, Holds, ReservedOf, Falls, st.Shape;
      if Following() { PlainWritten(st, mach, p, live, r, AT, st.DropPsx(r)); }
      EmitSw(AT, CpuReg(r));
      st := st.DropPsx(r);
    }
  }

  lemma TargetHolds(m: Machine, h: Reg, x: bv32)
    requires h != 0
    ensures Set(m, h, x).gpr[h] == x
  {
  }

  lemma OriLoads(v: bv32)
    requires v & 0xFFFF_0000 == 0
    ensures AluImm(0x0D, 0, Lo16(v)) == v
  {
  }

  lemma AddiuLoads(v: bv32)
    requires 0xFFFF_8000 <= v
    ensures AluImm(0x09, 0, Lo16(v)) == v
  {
  }

  lemma LuiOriLoads(v: bv32)
    ensures AluImm(0x0D, AluImm(0x0F, 0, Hi16(v)), Lo16(v)) == v
    ensures v & 0xFFFF == 0 ==> AluImm(0x0F, 0, Hi16(v)) == v
  {
  }
}
