/** Translation of single PSX instructions: constant folding, operand fetch,
    the native word, and write-back.

    In every method p is the interpreter's state before the instruction, `before`
    the registers that the emitted code so far keeps track of, and `live` those
    that matter afterwards. */
module Instructions {
  import opened Mips
  import opened Psx
  import opened Native
  import opened Tracking
  import opened Emission

  predicate IsConst(v: View, r: Reg) { r == 0 || v.vregs[r].isConst }

  function ConstOf(v: View, r: Reg): bv32 { if r == 0 then 0 else v.vregs[r].value }

  /** Registers an ALU word reads. */
  function Reads(w: Word): set<Reg> {
    if w.R? then
      if IsShift(w.fn) then {w.rt}
      else if w.fn == 0x10 || w.fn == 0x12 then {}
      else if w.fn == 0x11 || w.fn == 0x13 then {w.rs}
      else {w.rs, w.rt}
    else if w.I? && w.op != 0x0F then {w.rs}
    else {}
  }

  /** The register an ALU word writes; 0 stands for none. */
  function Target(w: Word): Reg {
    if w.I? then w.rt
    else if w.R? && w.fn != 0x11 && w.fn != 0x13 && !(0x18 <= w.fn <= 0x1B) then w.rd
    else 0
  }

  /** Everything w needs is tracked. */
  ghost predicate Covers(before: set<Reg>, w: Word, live: set<Reg>) {
    live - {Target(w)} <= before && forall r: Reg :: r in Reads(w) && r != 0 ==> r in before
  }

  /** An emitted constant is what the interpreter has. */
  lemma ConstIsValue(e: Emitter, p: Regs, live: set<Reg>, r: Reg)
    requires e.Following() && e.Matches(p, live) && (r == 0 || r in live) && IsConst(e.st, r)
    ensures ConstOf(e.st, r) == p.r[r]
  {
    AgreesAt(e.st, e.mach, p, live, r);
  }

  /** A result that only needs folding. */
  method Fold(e: Emitter, d: Reg, x: bv32, ghost p: Regs, ghost before: set<Reg>, ghost live: set<Reg>)
    requires e.Ok() && e.Matches(p, before) && live - {d} <= before
    modifies e`st
    ensures e.Ok() && e.Extends() && e.Matches(Write(p, d, x), live)
    ensures e.st == old(e.st).Deferred(d, x)
  {
    hide Agrees, Falls, e.st.Shape;
    if e.Following() { Weaken(e.st, e.mach, p, before, live - {d}); }
    e.MarkConstLazy(d, x, p, live);
  }

  /** Emits w, whose result x goes to register d, and writes it back. */
  method Finish(e: Emitter, w: Word, d: Reg, ghost x: bv32, ghost p: Regs, ghost before: set<Reg>, ghost live: set<Reg>)
    requires e.Ok() && e.Matches(p, before) && live - {d} <= before && !e.st.vregs[d].isConst
    requires !IsControl(w) && Keeps(w)
    requires Step(w, e.mach).mem == e.mach.mem && Step(w, e.mach) == Set(e.mach, e.DstReg(d), x)
    modifies e`code, e`mach, e`st
    ensures e.Ok() && e.Extends()
    ensures e.Matches(Write(p, d, x), live)
    ensures e.st == old(e.st).Synced(d)
    ensures e.mach == var m := Step(w, old(e.mach)); if Plain(e.st.home, d) then Store(m, CpuReg(d), x) else m
  {
    hide Agrees, Falls, ReservedOf, Step, e.st.Shape;
    if e.Following() { Weaken(e.st, e.mach, p, before, live - {d}); }
    ghost var m0 := e.mach;
    e.Emit(w);
    e.SyncReg(d, m0, x, p, live);
  }

  /** Fetching a second operand through T9 leaves the first alone. */
  lemma KeptOperand(v: View, a: Reg, b: Reg)
    requires v.Shape() && HomeOr(v.home, a, T8) == HomeOr(v.home, b, T9)
    ensures a == b
  {
  }

  /** Fetches operands a and b through T8 and T9. */
  method Operands(e: Emitter, a: Reg, b: Reg, ghost p: Regs, ghost before: set<Reg>) returns (s1: Reg, s2: Reg)
    requires e.Ok() && e.Matches(p, before) && (a == 0 || a in before) && (b == 0 || b in before)
    modifies e`code, e`mach, e`st
    ensures e.Ok() && e.Extends() && e.Matches(p, before)
    ensures e.st == old(e.st).Used(a, T8).Used(b, T9)
    ensures s1 == HomeOr(e.st.home, a, T8) && s2 == HomeOr(e.st.home, b, T9)
    ensures s1 !in {AT, T9} && s2 !in {AT, T8}
    ensures e.Following() ==> e.mach.gpr[s1] == p.r[a] && e.mach.gpr[s2] == p.r[b]
    ensures e.Following() && s1 == T8 ==> Ld(e.mach, CpuReg(a)) == p.r[a]
  {
    hide Agrees, Falls, ReservedOf, e.st.Shape, e.st.Used;
    s1 := e.UseReg(a, T8, p, before);
    s2 := e.UseReg(b, T9, p, before);
    if s1 == s2 { KeptOperand(e.st, a, b); }
    e.st.HomeFacts(a);
    e.st.HomeFacts(b);
    if e.Following() { AgreesAt(e.st, e.mach, p, before, a); }
  }

  function Fetched(v: View, d: Reg, a: Reg, b: Reg): (v': View)
    ensures Succeeds(v, v') && SameConsts(v.AsVar(d), v')
  {
    v.AsVar(d).Used(a, T8).Used(b, T9)
  }

  /** Marks d as computed at run time and fetches operands a and b. */
  method Fetch(e: Emitter, d: Reg, a: Reg, b: Reg, ghost p: Regs, ghost before: set<Reg>) returns (s1: Reg, s2: Reg)
    requires e.Ok() && e.Matches(p, before) && (a == 0 || a in before) && (b == 0 || b in before)
    modifies e`code, e`mach, e`st
    ensures e.Ok() && e.Extends() && e.Matches(p, before) && !e.st.vregs[d].isConst
    ensures e.st == Fetched(old(e.st), d, a, b)
    ensures s1 !in {AT, T9} && s2 !in {AT, T8}
    ensures e.Following() ==> e.mach.gpr[s1] == p.r[a] && e.mach.gpr[s2] == p.r[b]
  {
    hide Agrees, Falls, ReservedOf, e.st.Shape, e.st.Used, e.st.AsVar;
    e.MarkVar(d, p, before);
    s1, s2 := Operands(e, a, b, p, before);
  }

  function AfterShift(v: View, w: Word): (v': View)
    requires w.R?
    ensures Succeeds(v, v')
  {
    if IsConst(v, w.rt) then v.Deferred(w.rd, Shift(w.fn, ConstOf(v, w.rt), w.sa))
    else v.AsVar(w.rd).Used(w.rt, T8).Synced(w.rd)
  }

  /** A shift between registers without homes, neither of them a constant. */
  predicate PlainShift(v: View, w: Word) {
    w.R? && IsShift(w.fn) && !IsConst(v, w.rt) && !v.vregs[w.rd].isConst && v.home[w.rt] == 0 == v.home[w.rd]
  }

  /** What the code for it does: the operand comes from cpu.regs[], or from T8 if that is
      where the tables have it. */
  function ShiftEffect(v: View, m: Machine, w: Word): Machine
    requires w.R?
  {
    var m1 := if v.t8 == w.rt then m else Set(m, T8, Ld(m, CpuReg(w.rt)));
    var x := Shift(w.fn, m1.gpr[T8], w.sa);
    var m2 := Set(m1, T8, x);
    if w.rd == 0 then m2 else Store(m2, CpuReg(w.rd), x)
  }

  /** SLL, SRL, SRA. */
  method EmitShift(e: Emitter, w: Word, ghost p: Regs, ghost before: set<Reg>, ghost live: set<Reg>)
    requires w.R? && IsAluWord(w) && IsShift(w.fn)
    requires e.Ok() && e.Matches(p, before) && Covers(before, w, live)
    modifies e`code, e`mach, e`st
    ensures e.Ok() && e.Extends()
    ensures e.Matches(Exec(w, p), live)
    ensures e.st == AfterShift(old(e.st), w)
    ensures PlainShift(old(e.st), w) ==> e.mach == ShiftEffect(old(e.st), old(e.mach), w)
  {
    hide Agrees, Falls, ReservedOf, e.st.Shape, Shift, Alu, AluImm, e.st.Used, e.st.Synced, e.st.AsVar, e.st.Deferred;
    if IsConst(e.st, w.rt) {
      if e.Following() { ConstIsValue(e, p, before, w.rt); }
      Fold(e, w.rd, Shift(w.fn, ConstOf(e.st, w.rt), w.sa), p, before, live);
      return;
    }
    e.MarkVar(w.rd, p, before);
    var s := e.UseReg(w.rt, T8, p, before);
    var d := e.DstReg(w.rd);
    e.st.HomeFacts(w.rd);
    Finish(e, R(0, 0, s, d, w.sa, w.fn), w.rd, Shift(w.fn, e.mach.gpr[s], w.sa), p, before, live);
  }

  function AfterShiftVar(v: View, w: Word): (v': View)
    requires w.R?
    ensures Succeeds(v, v')
  {
    Fetched(v, w.rd, w.rt, w.rs).Synced(w.rd)
  }

  /** SLLV, SRLV, SRAV; never folded. */
  method EmitShiftVar(e: Emitter, w: Word, ghost p: Regs, ghost before: set<Reg>, ghost live: set<Reg>)
    requires w.R? && IsAluWord(w) && IsShiftVar(w.fn)
    requires e.Ok() && e.Matches(p, before) && Covers(before, w, live)
    modifies e`code, e`mach, e`st
    ensures e.Ok() && e.Extends()
    ensures e.Matches(Exec(w, p), live)
    ensures e.st == AfterShiftVar(old(e.st), w)
  {
    hide Agrees, Falls, ReservedOf, e.st.Shape, e.st.Synced, Fetched, Shift, Alu, AluImm;
    var s1, s2 := Fetch(e, w.rd, w.rt, w.rs, p, before);
    var d := e.DstReg(w.rd);
    e.st.HomeFacts(w.rd);
    Finish(e, R(0, s2, s1, d, 0, w.fn), w.rd, Alu(w.fn, e.mach.gpr[s2], e.mach.gpr[s1]), p, before, live);
  }

  function AfterAlu3(v: View, w: Word): (v': View)
    requires w.R?
    ensures Succeeds(v, v')
  {
    if IsConst(v, w.rs) && IsConst(v, w.rt) then v.Deferred(w.rd, Alu(w.fn, ConstOf(v, w.rs), ConstOf(v, w.rt)))
    else Fetched(v, w.rd, w.rs, w.rt).Synced(w.rd)
  }

  /** ADDU, SUBU, AND, OR, XOR, NOR, SLT, SLTU. */
  method EmitAlu3(e: Emitter, w: Word, ghost p: Regs, ghost before: set<Reg>, ghost live: set<Reg>)
    requires w.R? && IsAluWord(w) && IsAlu3(w.fn)
    requires e.Ok() && e.Matches(p, before) && Covers(before, w, live)
    modifies e`code, e`mach, e`st
    ensures e.Ok() && e.Extends()
    ensures e.Matches(Exec(w, p), live)
    ensures e.st == AfterAlu3(old(e.st), w)
  {
    hide Agrees, Falls, ReservedOf, e.st.Shape, e.st.Synced, e.st.Deferred, Fetched, Shift, Alu, AluImm;
    if IsConst(e.st, w.rs) && IsConst(e.st, w.rt) {
      if e.Following() {
        ConstIsValue(e, p, before, w.rs);
        ConstIsValue(e, p, before, w.rt);
      }
      Fold(e, w.rd, Alu(w.fn, ConstOf(e.st, w.rs), ConstOf(e.st, w.rt)), p, before, live);
      return;
    }
    ComputeAlu3(e, w, p, before, live);
  }

  /** The same with an operand that is known only at run time. */
  method ComputeAlu3(e: Emitter, w: Word, ghost p: Regs, ghost before: set<Reg>, ghost live: set<Reg>)
    requires w.R? && IsAlu3(w.fn)
    requires e.Ok() && e.Matches(p, before) && live - {w.rd} <= before
    requires (w.rs == 0 || w.rs in before) && (w.rt == 0 || w.rt in before)
    modifies e`code, e`mach, e`st
    ensures e.Ok() && e.Extends()
    ensures e.Matches(Write(p, w.rd, Alu(w.fn, p.r[w.rs], p.r[w.rt])), live)
    ensures e.st == Fetched(old(e.st), w.rd, w.rs, w.rt).Synced(w.rd)
  {
    hide Agrees, Falls, ReservedOf, e.st.Shape, e.st.Synced, Fetched, Shift, Alu;
    var s1, s2 := Fetch(e, w.rd, w.rs, w.rt, p, before);
    var d := e.DstReg(w.rd);
    e.st.HomeFacts(w.rd);
    Finish(e, R(0, s1, s2, d, 0, w.fn), w.rd, Alu(w.fn, e.mach.gpr[s1], e.mach.gpr[s2]), p, before, live);
  }

  function AfterAluImm(v: View, w: Word): (v': View)
    requires w.I?
    ensures Succeeds(v, v')
  {
    if IsConst(v, w.rs) then v.Deferred(w.rt, AluImm(w.op, ConstOf(v, w.rs), w.imm))
    else v.AsVar(w.rt).Used(w.rs, T8).Synced(w.rt)
  }

  /** ADDIU, SLTI, SLTIU, ANDI, ORI, XORI. */
  method EmitAluImm(e: Emitter, w: Word, ghost p: Regs, ghost before: set<Reg>, ghost live: set<Reg>)
    requires w.I? && 0x09 <= w.op <= 0x0E
    requires e.Ok() && e.Matches(p, before) && Covers(before, w, live)
    modifies e`code, e`mach, e`st
    ensures e.Ok() && e.Extends()
    ensures e.Matches(Exec(w, p), live)
    ensures e.st == AfterAluImm(old(e.st), w)
  {
    hide Agrees, Falls, ReservedOf, e.st.Shape, e.st.Synced, e.st.Used, e.st.AsVar, Shift, Alu, AluImm;
    if IsConst(e.st, w.rs) {
      if e.Following() { ConstIsValue(e, p, before, w.rs); }
      Fold(e, w.rt, AluImm(w.op, ConstOf(e.st, w.rs), w.imm), p, before, live);
      return;
    }
    e.MarkVar(w.rt, p, before);
    var s := e.UseReg(w.rs, T8, p, before);
    var d := e.DstReg(w.rt);
    e.st.HomeFacts(w.rt);
    Finish(e, I(w.op, s, d, w.imm), w.rt, AluImm(w.op, e.mach.gpr[s], w.imm), p, before, live);
  }

  /** LUI. */
  method EmitLui(e: Emitter, w: Word, ghost p: Regs, ghost before: set<Reg>, ghost live: set<Reg>)
    requires w.I? && w.op == 0x0F
    requires e.Ok() && e.Matches(p, before) && Covers(before, w, live)
    modifies e`st
    ensures e.Ok() && e.Extends()
    ensures e.Matches(Exec(w, p), live)
    ensures e.st == old(e.st).Deferred(w.rt, ZeroExt(w.imm) << 16)
  {
    hide Agrees, Falls, e.st.Shape;
    Fold(e, w.rt, ZeroExt(w.imm) << 16, p, before, live);
  }

  // ---- ADD, SUB, ADDI ------------------------------------------------------------

  predicate Overflows(sub: bool, a: bv32, b: bv32) {
    if sub then SubOverflows(a, b) else AddOverflows(a, b)
  }

  /** Stores the old value of d for the cold path when only its home holds it. */
  method SaveForColdPath(e: Emitter, d: Reg, ghost p: Regs, ghost before: set<Reg>)
    requires e.Ok() && e.Matches(p, before)
    modifies e`code, e`mach
    ensures e.Ok() && e.Extends() && e.Matches(p, before) && e.mach.gpr == old(e.mach.gpr)
  {
    hide Agrees, Falls, ReservedOf;
    if e.st.home[d] != 0 && d in e.st.dirty {
      if e.Following() { StaleStored(e.st, e.mach, p, before, d, e.mach.gpr[e.st.home[d]]); }
      e.EmitSw(e.st.home[d], CpuReg(d));
    }
  }

  /** d := s1 +/- s2, and a branch that is taken exactly on signed overflow. */
  method AddChecked(e: Emitter, sub: bool, s1: Reg, s2: Reg, d: Reg)
    requires e.Linked() && e.mach.gpr[0] == 0 && Writable(d) && d != 0 && d != AT && d != T9
    requires s1 != AT && s2 != AT
    modifies e`code, e`mach, e`taken
    ensures e.Linked() && e.mach.gpr[0] == 0 && e.Extends()
    ensures var a, b := old(e.mach.gpr[s1]), old(e.mach.gpr[s2]);
            e.mach.gpr[d] == Alu(if sub then 0x23 else 0x21, a, b) &&
            e.taken == (old(e.taken) || Overflows(sub, a, b))
    ensures forall r: Reg :: r !in {AT, T8, T9, d} ==> e.mach.gpr[r] == old(e.mach.gpr[r])
    ensures forall l: Loc :: l != Frame(76) ==> Ld(e.mach, l) == Ld(old(e.mach), l)
  {
    hide Falls, ReservedOf, Alu, Overflows, OverflowWord, Negative;
    ghost var a, b := e.mach.gpr[s1], e.mach.gpr[s2];
    e.EmitR(0x26, s1, s2, AT);
    e.EmitSw(s1, Frame(76));
    e.EmitR(if sub then 0x23 else 0x21, s1, s2, d);
    OverflowToAt(e, sub, d, a, b);
    OverflowBit(sub, a, b);
    e.EmitBltzAt();
  }

  /** What the check leaves in AT for operands a and b. */
  function OverflowWord(sub: bool, a: bv32, b: bv32): bv32 {
    if sub then Alu(0x24, Alu(0x26, a, b), Alu(0x26, Alu(0x23, a, b), a))
    else Alu(0x24, Alu(0x27, Alu(0x26, a, b), 0), Alu(0x26, Alu(0x21, a, b), a))
  }

  method OverflowToAt(e: Emitter, sub: bool, d: Reg, ghost a: bv32, ghost b: bv32)
    requires e.Linked() && e.mach.gpr[0] == 0 && Writable(d) && d != 0 && d != AT && d != T9
    requires e.mach.gpr[AT] == Alu(0x26, a, b) && e.mach.gpr[d] == Alu(if sub then 0x23 else 0x21, a, b)
    requires Ld(e.mach, Frame(76)) == a
    modifies e`code, e`mach
    ensures e.Linked() && e.mach.gpr[0] == 0 && e.Extends() && e.mach.mem == old(e.mach.mem)
    ensures e.mach.gpr[AT] == OverflowWord(sub, a, b) && e.mach.gpr[d] == old(e.mach.gpr[d])
    ensures forall r: Reg :: r !in {AT, T8, T9} ==> e.mach.gpr[r] == old(e.mach.gpr[r])
  {
    hide Falls, ReservedOf, Alu;
    var sr: Reg := if d == T8 then T9 else T8;
    e.EmitLw(sr, Frame(76));
    if sub { e.EmitNop(); } else { e.EmitR(0x27, AT, 0, AT); }
    CombineAt(e, d, sr);
  }

  method CombineAt(e: Emitter, d: Reg, sr: Reg)
    requires e.Linked() && e.mach.gpr[0] == 0 && d != AT && sr != d && (sr == T8 || sr == T9)
    modifies e`code, e`mach
    ensures e.Linked() && e.mach.gpr[0] == 0 && e.Extends() && e.mach.mem == old(e.mach.mem)
    ensures var g := old(e.mach.gpr);
            e.mach.gpr[AT] == Alu(0x24, g[AT], Alu(0x26, g[d], g[sr])) && e.mach.gpr[d] == g[d]
    ensures forall r: Reg :: r != AT && r != sr ==> e.mach.gpr[r] == old(e.mach.gpr[r])
  {
    hide Falls, ReservedOf, Alu;
    e.EmitR(0x26, d, sr, sr);
    e.EmitR(0x24, AT, sr, AT);
  }

  /** Its bit 31 is signed overflow. */
  lemma OverflowBit(sub: bool, a: bv32, b: bv32)
    ensures Negative(OverflowWord(sub, a, b)) == Overflows(sub, a, b)
  {
    hide Negative, And, Xor, Nor, Add, Sub;
    SignOfAnd(Xor(a, b), Xor(if sub then Sub(a, b) else Add(a, b), a));
  }

  lemma SignOfAnd(x: bv32, y: bv32)
    ensures Negative(And(x, y)) == (Negative(x) && Negative(y))
    ensures Negative(And(Nor(x, 0), y)) == (!Negative(x) && Negative(y))
  {
  }

  /** Apart from d, the overflow check only used scratch registers. */
  lemma OnlyScratch(v: View, m: Machine, p: Regs, live: set<Reg>, m': Machine, d: Reg)
    requires v.Shape() && Agrees(v, m, p, live) && m'.gpr[0] == 0 && d != 0
    requires forall r: Reg :: r !in {AT, T8, T9, d} ==> m'.gpr[r] == m.gpr[r]
    requires forall l: Loc :: l != Frame(76) ==> Ld(m', l) == Ld(m, l)
    ensures Agrees(v.DropAll(), Set(m', d, m.gpr[d]), p, live)
  {
    hide Agrees;
    var m1 := Set(m', d, m.gpr[d]);
    forall r: Reg ensures m1.gpr[v.home[r]] == m.gpr[v.home[r]] {
      v.HomeFacts(r);
    }
    HiLoAt(v, m, p, live);
    Alike(v, m, p, live, m1, p);
  }

  /** The common end of the checked additions. */
  method FinishChecked(e: Emitter, sub: bool, s1: Reg, s2: Reg, r: Reg, ghost a: bv32, ghost b: bv32,
                       ghost p: Regs, ghost before: set<Reg>, ghost live: set<Reg>)
    requires e.Ok() && e.Matches(p, before) && live - {r} <= before && !e.st.vregs[r].isConst
    requires s1 != AT && s2 != AT && a == e.mach.gpr[s1] && b == e.mach.gpr[s2]
    modifies e`code, e`mach, e`st, e`taken
    ensures e.Ok() && e.Extends()
    ensures e.taken == (old(e.taken) || Overflows(sub, a, b))
    ensures e.Matches(Write(p, r, Alu(if sub then 0x23 else 0x21, a, b)), live)
    ensures e.st == old(e.st).DropAll().Synced(r)
  {
    hide Agrees, Falls, ReservedOf, e.st.Shape, Alu, Overflows, e.st.Synced, e.st.DropAll;
    e.st.HomeFacts(r);
    ghost var m0 := e.mach;
    var d := e.DstReg(r);
    ghost var following := e.Following();
    if following { Weaken(e.st, e.mach, p, before, live - {r}); }
    AddChecked(e, sub, s1, s2, d);
    if following { OnlyScratch(e.st, m0, p, live - {r}, e.mach, d); }
    e.st := e.st.DropAll();
    ghost var m1 := Set(e.mach, d, m0.gpr[d]);
    assert m1.gpr[d := e.mach.gpr[d]] == e.mach.gpr;
    e.SyncReg(r, m1, e.mach.gpr[d], p, live);
  }

  /** An ADD, SUB or ADDI whose operands are constants that overflow. */
  predicate KnownOverflow(v: View, w: Word) {
    if w.R? then
      (w.fn == 0x20 || w.fn == 0x22) && IsConst(v, w.rs) && IsConst(v, w.rt) &&
      Overflows(w.fn == 0x22, ConstOf(v, w.rs), ConstOf(v, w.rt))
    else
      w.I? && w.op == 0x08 && IsConst(v, w.rs) && Overflows(false, ConstOf(v, w.rs), SignExt(w.imm))
  }

  function AfterAddSub(v: View, w: Word): (v': View)
    requires w.R?
    ensures Succeeds(v, v')
  {
    if IsConst(v, w.rs) && IsConst(v, w.rt) then
      v.Deferred(w.rd, Alu(w.fn, ConstOf(v, w.rs), ConstOf(v, w.rt)))
    else
      Fetched(v, w.rd, w.rs, w.rt).DropAll().Synced(w.rd)
  }

  /** Without a trap ADD and SUB are ADDU and SUBU. */
  lemma AddIsAddu(sub: bool, a: bv32, b: bv32)
    ensures Alu(if sub then 0x22 else 0x20, a, b) == Alu(if sub then 0x23 else 0x21, a, b)
  {
  }

  /** ADD and SUB.  False when constant operands overflow: the block then contains an
      unconditional exception, which is not modelled. */
  method EmitAddSub(e: Emitter, w: Word, ghost p: Regs, ghost before: set<Reg>, ghost live: set<Reg>) returns (ok: bool)
    requires w.R? && IsAluWord(w) && (w.fn == 0x20 || w.fn == 0x22)
    requires e.Ok() && e.Matches(p, before) && Covers(before, w, live)
    requires e.Following() ==> !Traps(w, p)
    modifies e`code, e`mach, e`st, e`taken
    ensures e.Ok() && e.Extends()
    ensures e.st.misread || e.taken == old(e.taken)
    ensures !ok <==> KnownOverflow(old(e.st), w)
    ensures ok ==> e.Matches(Exec(w, p), live) && e.st == AfterAddSub(old(e.st), w)
  {
    hide Agrees, Falls, ReservedOf, e.st.Shape, AddOverflows, SubOverflows, Alu, e.st.Synced, e.st.DropAll, e.st.Deferred,
         Fetched;
    var sub := w.fn == 0x22;
    AddIsAddu(sub, p.r[w.rs], p.r[w.rt]);
    if IsConst(e.st, w.rs) && IsConst(e.st, w.rt) {
      var a, b := ConstOf(e.st, w.rs), ConstOf(e.st, w.rt);
      if Overflows(sub, a, b) { return false; }
      if e.Following() {
        ConstIsValue(e, p, before, w.rs);
        ConstIsValue(e, p, before, w.rt);
      }
      Fold(e, w.rd, Alu(w.fn, a, b), p, before, live);
      return true;
    }
    var s1, s2 := Fetch(e, w.rd, w.rs, w.rt, p, before);
    SaveForColdPath(e, w.rd, p, before);
    e.st.HomeFacts(w.rs);
    e.st.HomeFacts(w.rt);
    FinishChecked(e, sub, s1, s2, w.rd, e.mach.gpr[s1], e.mach.gpr[s2], p, before, live);
    ok := true;
  }

  function AfterAddi(v: View, w: Word): (v': View)
    requires w.I?
    ensures Succeeds(v, v')
  {
    if IsConst(v, w.rs) then v.Deferred(w.rt, AluImm(w.op, ConstOf(v, w.rs), w.imm))
    else v.AsVar(w.rt).Used(w.rs, T8).DropAll().Synced(w.rt)
  }

  /** ADDI; the immediate goes through T9, whose cached copy is given up. */
  method EmitAddi(e: Emitter, w: Word, ghost p: Regs, ghost before: set<Reg>, ghost live: set<Reg>) returns (ok: bool)
    requires w.I? && w.op == 0x08
    requires e.Ok() && e.Matches(p, before) && Covers(before, w, live)
    requires e.Following() ==> !Traps(w, p)
    modifies e`code, e`mach, e`st, e`taken
    ensures e.Ok() && e.Extends()
    ensures e.st.misread || e.taken == old(e.taken)
    ensures !ok <==> KnownOverflow(old(e.st), w)
    ensures ok ==> e.Matches(Exec(w, p), live) && e.st == AfterAddi(old(e.st), w)
  {
    hide Agrees, Falls, ReservedOf, e.st.Shape, AddOverflows, SubOverflows, SignExt, AluImm, e.st.Synced, e.st.Used, e.st.AsVar;
    if IsConst(e.st, w.rs) {
      var a := ConstOf(e.st, w.rs);
      if AddOverflows(a, SignExt(w.imm)) { return false; }
      if e.Following() { ConstIsValue(e, p, before, w.rs); }
      AddiValue(a, w.imm);
      Fold(e, w.rt, Add(a, SignExt(w.imm)), p, before, live);
      return true;
    }
    var s1 := FetchAddi(e, w, p, before);
    AddiValue(e.mach.gpr[s1], w.imm);
    FinishChecked(e, false, s1, T9, w.rt, e.mach.gpr[s1], SignExt(w.imm), p, before, live);
    ok := true;
  }

  method FetchAddi(e: Emitter, w: Word, ghost p: Regs, ghost before: set<Reg>) returns (s1: Reg)
    requires w.I? && e.Ok() && e.Matches(p, before) && (w.rs == 0 || w.rs in before)
    modifies e`code, e`mach, e`st
    ensures e.Ok() && e.Extends() && e.Matches(p, before) && !e.st.vregs[w.rt].isConst
    ensures e.st == old(e.st).AsVar(w.rt).Used(w.rs, T8).DropHw(T9)
    ensures s1 != AT && e.mach.gpr[T9] == SignExt(w.imm)
    ensures e.Following() ==> e.mach.gpr[s1] == p.r[w.rs]
  {
    hide Agrees, Falls, ReservedOf, e.st.Shape, SignExt, e.st.AsVar, e.st.Used;
    e.MarkVar(w.rt, p, before);
    s1 := e.UseReg(w.rs, T8, p, before);
    SaveForColdPath(e, w.rt, p, before);
    e.st.HomeFacts(w.rs);
    ImmediateToT9(e, SignExt(w.imm), p, before);
  }

  /** T9 := x; what it cached is given up. */
  method ImmediateToT9(e: Emitter, x: bv32, ghost p: Regs, ghost before: set<Reg>)
    requires e.Ok() && e.Matches(p, before)
    modifies e`code, e`mach, e`st
    ensures e.Ok() && e.Extends() && e.Matches(p, before) && e.st == old(e.st).DropHw(T9)
    ensures e.mach.gpr == old(e.mach.gpr)[T9 := x]
  {
    hide Agrees, Falls, ReservedOf, e.st.Shape;
    if e.Following() { ScratchDropped(e.st, e.mach, p, before, T9, x); }
    e.LoadImm32(T9, x);
    e.st := e.st.DropHw(T9);
  }

  lemma AddiValue(a: bv32, imm: bv16)
    ensures AluImm(0x08, a, imm) == Add(a, SignExt(imm)) == Alu(0x21, a, SignExt(imm))
  {
    hide SignExt;
  }

  // ---- HI and LO -------------------------------------------------------------------

  function AfterMoveHiLo(v: View, w: Word): (v': View)
    requires w.R?
    ensures Succeeds(v, v')
  {
    if w.fn == 0x10 || w.fn == 0x12 then v.FieldRead(w.rd) else v.Copied(T8, w.rs)
  }

  /** MFHI, MFLO, MTHI, MTLO. */
  method EmitMoveHiLo(e: Emitter, w: Word, ghost p: Regs, ghost before: set<Reg>, ghost live: set<Reg>)
    requires w.R? && w.op == 0 && 0x10 <= w.fn <= 0x13
    requires e.Ok() && e.Matches(p, before) && Covers(before, w, live)
    modifies e`code, e`mach, e`st
    ensures e.Ok() && e.Extends()
    ensures e.Matches(Exec(w, p), live)
    ensures e.st == AfterMoveHiLo(old(e.st), w)
  {
    hide Agrees, Falls, ReservedOf, e.st.Shape, e.st.FieldRead, e.st.Copied, Alu;
    var at := if w.fn <= 0x11 then CpuHi else CpuLo;
    if w.fn == 0x10 || w.fn == 0x12 {
      if e.Following() { Weaken(e.st, e.mach, p, before, live - {w.rd}); }
      e.FieldToPsxReg(at, w.rd, p, live);
      return;
    }
    e.LoadPsxReg(T8, w.rs, p, before);
    if e.Following() {
      HiLoStored(e.st, e.mach, p, before, at, e.mach.gpr[T8]);
      Weaken(e.st, Store(e.mach, at, e.mach.gpr[T8]), Exec(w, p), before, live);
    }
    e.EmitSw(T8, at);
  }

  function AfterMult(v: View, w: Word): (v': View)
    requires w.R?
    ensures Succeeds(v, v')
  {
    v.Copied(T8, w.rs).Copied(T9, w.rt).DropAll()
  }

  /** MULT and MULTU; every other one uses the second multiply pipeline. */
  method EmitMult(e: Emitter, w: Word, second: bool, ghost p: Regs, ghost before: set<Reg>, ghost live: set<Reg>)
    requires w.R? && w.op == 0 && (w.fn == 0x18 || w.fn == 0x19)
    requires e.Ok() && e.Matches(p, before) && Covers(before, w, live)
    modifies e`code, e`mach, e`st
    ensures e.Ok() && e.Extends()
    ensures e.Matches(Exec(w, p), live)
    ensures e.st == AfterMult(old(e.st), w)
  {
    hide Agrees, Falls, ReservedOf, e.st.Shape, e.st.Copied, Alu, ProductHi, ProductLo;
    e.LoadPsxReg(T8, w.rs, p, before);
    e.LoadPsxReg(T9, w.rt, p, before);
    e.st.HomeFacts(w.rt);
    ghost var m0 := e.mach;
    var op := if second then 0x1C else 0;
    Multiply(e, op, w.fn);
    if e.Following() {
      HiLoComputed(e.st, m0, p, before, live, e.mach, ProductHi(w.fn == 0x18, m0.gpr[T8], m0.gpr[T9]),
                   ProductLo(m0.gpr[T8], m0.gpr[T9]));
    }
    e.st := e.st.DropAll();
  }

  /** Multiplies T8 by T9 and stores the product to HI and LO of the cpu structure. */
  method Multiply(e: Emitter, op: int, fn: int)
    requires e.Linked() && e.mach.gpr[0] == 0 && (fn == 0x18 || fn == 0x19) && (op == 0 || op == 0x1C)
    modifies e`code, e`mach
    ensures e.Linked() && e.mach.gpr[0] == 0 && e.Extends()
    ensures forall r: Reg :: r != T8 ==> e.mach.gpr[r] == old(e.mach.gpr[r])
    ensures var a, b := old(e.mach.gpr[T8]), old(e.mach.gpr[T9]);
            e.mach.mem == old(e.mach.mem)[CpuLo := ProductLo(a, b)][CpuHi := ProductHi(fn == 0x18, a, b)]
  {
    hide Falls, ReservedOf, Alu, ProductHi, ProductLo;
    e.Emit(R(op, T8, T9, 0, 0, fn));
    StoreHalf(e, op, 0x12, CpuLo);
    StoreHalf(e, op, 0x10, CpuHi);
  }

  /** Stores HI (10h) or LO (12h) of a multiply pipeline, through T8. */
  method StoreHalf(e: Emitter, op: int, fn: int, at: Loc)
    requires e.Linked() && e.mach.gpr[0] == 0 && (fn == 0x10 || fn == 0x12) && (at == CpuHi || at == CpuLo)
    modifies e`code, e`mach
    ensures e.Linked() && e.mach.gpr[0] == 0 && e.Extends()
    ensures var m := old(e.mach);
            var x := if op == 0x1C then (if fn == 0x10 then m.hi1 else m.lo1) else (if fn == 0x10 then m.hi else m.lo);
            e.mach == Store(Set(m, T8, x), at, x)
  {
    hide Falls, ReservedOf, Alu, Shift;
    e.Emit(R(op, 0, 0, T8, 0, fn));
    e.EmitSw(T8, at);
  }

  /** HI and LO hold a result and only scratch registers changed. */
  lemma HiLoComputed(v: View, m: Machine, p: Regs, before: set<Reg>, live: set<Reg>, m': Machine, hi: bv32, lo: bv32)
    requires v.Shape() && Agrees(v, m, p, before) && live - {0} <= before && m'.gpr[0] == 0
    requires forall r: Reg :: r !in {AT, T8, T9} ==> m'.gpr[r] == m.gpr[r]
    requires m'.mem == m.mem[CpuLo := lo][CpuHi := hi]
    ensures Agrees(v.DropAll(), m', p.(hi := hi, lo := lo), live)
  {
    hide Agrees;
    var p' := p.(hi := hi, lo := lo);
    Weaken(v, m, p, before, live);
    forall r: Reg ensures m'.gpr[v.home[r]] == m.gpr[v.home[r]] {
      v.HomeFacts(r);
    }
    Alike(v, m, p, live, m', p');
  }

  function AfterDiv(v: View, w: Word): (v': View)
    requires w.R?
    ensures Succeeds(v, v')
  {
    v.Used(w.rs, T8).Used(w.rt, T9).DropAll()
  }

  /** DIV and DIVU, with the native result replaced when the divisor is zero. */
  method EmitDiv(e: Emitter, w: Word, ghost p: Regs, ghost before: set<Reg>, ghost live: set<Reg>)
    requires w.R? && w.op == 0 && (w.fn == 0x1A || w.fn == 0x1B)
    requires e.Ok() && e.Matches(p, before) && Covers(before, w, live)
    modifies e`code, e`mach, e`st
    ensures e.Ok() && e.Extends()
    ensures e.Matches(Exec(w, p), live)
    ensures e.st == AfterDiv(old(e.st), w)
  {
    hide Agrees, Falls, ReservedOf, e.st.Shape, e.st.Used, Alu, DivLo, DivHi;
    var s1, s2 := Operands(e, w.rs, w.rt, p, before);
    ghost var m0 := e.mach;
    Divide(e, w.fn == 0x1A, s1, s2, w.rs);
    if e.Following() {
      HiLoComputed(e.st, m0, p, before, live, e.mach, DivHi(w.fn == 0x1A, p.r[w.rs], p.r[w.rt]),
                   DivLo(w.fn == 0x1A, p.r[w.rs], p.r[w.rt]));
    }
    e.st := e.st.DropAll();
  }

  method Divide(e: Emitter, signed: bool, s1: Reg, s2: Reg, rs: Reg)
    requires e.Linked() && e.mach.gpr[0] == 0
    requires s1 !in {AT, T9} && s2 !in {AT, T8}
    modifies e`code, e`mach
    ensures e.Linked() && e.mach.gpr[0] == 0 && e.Extends()
    ensures forall r: Reg :: r !in {AT, T8} ==> e.mach.gpr[r] == old(e.mach.gpr[r])
    ensures var a, b := old(e.mach.gpr[s1]), old(e.mach.gpr[s2]);
            (s1 == T8 ==> old(Ld(e.mach, CpuReg(rs))) == a) ==>
            e.mach.mem == old(e.mach.mem)[CpuLo := DivLo(signed, a, b)][CpuHi := DivHi(signed, a, b)]
  {
    hide Falls, ReservedOf, Alu, Shift, Quotient, Remainder, ZeroDivisorLo, DivLo, DivHi;
    ghost var a, b := e.mach.gpr[s1], e.mach.gpr[s2];
    EmitDivWord(e, signed, s1, s2);
    DivideByZeroLo(e, signed, s1);
    ZeroDivisorLoValue(signed, a);
    DivideLo(e, s2);
    DivideHi(e, s1, s2, rs);
    DivCases(signed, a, b);
  }

  lemma DivCases(signed: bool, a: bv32, b: bv32)
    ensures b != 0 ==> DivLo(signed, a, b) == Quotient(signed, a, b) && DivHi(signed, a, b) == Remainder(signed, a, b)
    ensures DivHi(signed, a, 0) == a
  {
  }

  method EmitDivWord(e: Emitter, signed: bool, s1: Reg, s2: Reg)
    requires e.Linked() && e.mach.gpr[0] == 0
    modifies e`code, e`mach
    ensures e.Linked() && e.Extends() && e.mach.gpr == old(e.mach.gpr) && e.mach.mem == old(e.mach.mem)
    ensures var a, b := e.mach.gpr[s1], e.mach.gpr[s2];
            b != 0 ==> e.mach.hi == Remainder(signed, a, b) && e.mach.lo == Quotient(signed, a, b)
  {
    hide Falls, ReservedOf, Quotient, Remainder;
    e.Emit(R(0, s1, s2, 0, 0, if signed then 0x1A else 0x1B));
  }

  /** What the emitted shifts compute for LO when the divisor is zero. */
  function ZeroDivisorLo(signed: bool, a: bv32): bv32 {
    if signed then Alu(0x27, Shift(0x00, Shift(0x03, a, 31), 1), 0) else 0xFFFF_FFFF
  }

  lemma ZeroDivisorLoValue(signed: bool, a: bv32)
    ensures ZeroDivisorLo(signed, a) == DivLo(signed, a, 0)
  {
  }

  method DivideByZeroLo(e: Emitter, signed: bool, s1: Reg)
    requires e.Linked() && e.mach.gpr[0] == 0
    modifies e`code, e`mach
    ensures e.Linked() && e.mach.gpr[0] == 0 && e.Extends()
    ensures e.mach == Set(old(e.mach), AT, ZeroDivisorLo(signed, old(e.mach.gpr[s1])))
  {
    hide Falls, ReservedOf, Alu, Shift;
    if signed {
      e.EmitShift(0x03, s1, AT, 31);
      e.EmitShift(0x00, AT, AT, 1);
      e.EmitR(0x27, AT, 0, AT);
    } else {
      e.LoadImm32(AT, 0xFFFF_FFFF);
    }
  }

  /** LO := AT when the divisor is zero, else the native quotient. */
  method DivideLo(e: Emitter, s2: Reg)
    requires e.Linked() && e.mach.gpr[0] == 0 && s2 !in {AT, T8}
    modifies e`code, e`mach
    ensures e.Linked() && e.mach.gpr[0] == 0 && e.Extends()
    ensures var m := old(e.mach);
            var x := if m.gpr[s2] == 0 then m.gpr[AT] else m.lo;
            e.mach == Store(Set(m, T8, x), CpuLo, x)
  {
    hide Falls, ReservedOf, Alu, Shift;
    e.Emit(R(0, 0, 0, T8, 0, 0x12));
    e.EmitMovz(T8, AT, s2);
    e.EmitSw(T8, CpuLo);
  }

  /** HI := the dividend when the divisor is zero, else the native remainder. */
  method DivideHi(e: Emitter, s1: Reg, s2: Reg, rs: Reg)
    requires e.Linked() && e.mach.gpr[0] == 0 && s2 !in {AT, T8}
    modifies e`code, e`mach
    ensures e.Linked() && e.mach.gpr[0] == 0 && e.Extends()
    ensures forall r: Reg :: r !in {AT, T8} ==> e.mach.gpr[r] == old(e.mach.gpr[r])
    ensures var m := old(e.mach);
            var a := if s1 == T8 then Ld(m, CpuReg(rs)) else m.gpr[s1];
            e.mach.mem == m.mem[CpuHi := if m.gpr[s2] == 0 then a else m.hi]
  {
    hide Falls, ReservedOf, Alu, Shift;
    e.Emit(R(0, 0, 0, T8, 0, 0x10));
    MovzDividend(e, s1, s2, rs);
    e.EmitSw(T8, CpuHi);
  }

  /** T8 := the dividend when the divisor is zero; it is reloaded if T8 held it. */
  method MovzDividend(e: Emitter, s1: Reg, s2: Reg, rs: Reg)
    requires e.Linked() && e.mach.gpr[0] == 0 && s2 !in {AT, T8}
    modifies e`code, e`mach
    ensures e.Linked() && e.mach.gpr[0] == 0 && e.Extends() && e.mach.mem == old(e.mach.mem)
    ensures forall r: Reg :: r !in {AT, T8} ==> e.mach.gpr[r] == old(e.mach.gpr[r])
    ensures var m := old(e.mach);
            var a := if s1 == T8 then Ld(m, CpuReg(rs)) else m.gpr[s1];
            e.mach.gpr[T8] == if m.gpr[s2] == 0 then a else m.gpr[T8]
  {
    hide Falls, ReservedOf;
    if s1 == T8 {
      e.EmitLw(AT, CpuReg(rs));
      e.EmitMovz(T8, AT, s2);
    } else {
      e.EmitMovz(T8, s1, s2);
    }
  }

  // ---- emit_instruction ------------------------------------------------------------

  /** The register tables after one translated instruction. */
  function After(v: View, w: Word): (v': View)
    requires IsAluWord(w)
    ensures Succeeds(v, v')
  {
    if w == NOP then v
    else if w.R? then
      if IsShift(w.fn) then AfterShift(v, w)
      else if IsShiftVar(w.fn) then AfterShiftVar(v, w)
      else if w.fn <= 0x13 then AfterMoveHiLo(v, w)
      else if w.fn == 0x18 || w.fn == 0x19 then AfterMult(v, w)
      else if w.fn == 0x1A || w.fn == 0x1B then AfterDiv(v, w)
      else if w.fn == 0x20 || w.fn == 0x22 then AfterAddSub(v, w)
      else AfterAlu3(v, w)
    else if w.op == 0x08 then AfterAddi(v, w)
    else if w.op == 0x0F then v.Deferred(w.rt, ZeroExt(w.imm) << 16)
    else AfterAluImm(v, w)
  }

  /** Translates one instruction.  `second` selects the multiply pipeline.  The state the
      emitted code reaches agrees with the interpreter's, unless it has used a stale
      scratch register: the tables afterwards say whether it has. */
  method EmitInstruction(e: Emitter, w: Word, second: bool, ghost p: Regs, ghost before: set<Reg>, ghost live: set<Reg>)
    returns (ok: bool)
    requires IsAluWord(w)
    requires e.Ok() && e.Matches(p, before) && Covers(before, w, live)
    requires e.Following() ==> !Traps(w, p)
    modifies e`code, e`mach, e`st, e`taken
    ensures e.Ok() && e.Extends()
    ensures e.st.misread || e.taken == old(e.taken)
    ensures !ok <==> KnownOverflow(old(e.st), w)
    ensures ok ==> e.Matches(Exec(w, p), live) && e.st == After(old(e.st), w)
    ensures w != NOP && PlainShift(old(e.st), w) ==> e.mach == ShiftEffect(old(e.st), old(e.mach), w)
  {
    hide Agrees, Falls, ReservedOf, e.st.Shape, Exec, Traps, Covers, AfterShift, AfterShiftVar, AfterMoveHiLo, AfterMult,
         AfterDiv, AfterAddSub, AfterAlu3, AfterAddi, AfterAluImm, e.st.Deferred, Overflows, SignExt, ShiftEffect;
    ok := true;
    if w == NOP {
      NopDoesNothing(p);
      NopCovers(before, live);
      if e.Following() { Weaken(e.st, e.mach, p, before, live); }
    } else if w.R? {
      if IsShift(w.fn) { EmitShift(e, w, p, before, live); }
      else if IsShiftVar(w.fn) { EmitShiftVar(e, w, p, before, live); }
      else if w.fn <= 0x13 { EmitMoveHiLo(e, w, p, before, live); }
      else if w.fn == 0x18 || w.fn == 0x19 { EmitMult(e, w, second, p, before, live); }
      else if w.fn == 0x1A || w.fn == 0x1B { EmitDiv(e, w, p, before, live); }
      else if w.fn == 0x20 || w.fn == 0x22 { ok := EmitAddSub(e, w, p, before, live); }
      else { EmitAlu3(e, w, p, before, live); }
    } else if w.op == 0x08 { ok := EmitAddi(e, w, p, before, live); }
    else if w.op == 0x0F { EmitLui(e, w, p, before, live); }
    else { EmitAluImm(e, w, p, before, live); }
  }

  lemma NopDoesNothing(p: Regs)
    ensures Exec(NOP, p) == p
  {
  }

  lemma NopCovers(before: set<Reg>, live: set<Reg>)
    requires Covers(before, NOP, live)
    ensures live - {0} <= before
  {
  }
}
