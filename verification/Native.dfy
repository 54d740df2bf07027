/** The native processor: straight-line steps, and runs through forward branches
    with their delay slots. */
module Native {
  import opened Mips
  import opened Psx

  /** `undef` stands for what HI and LO hold after a division by zero, which the
      native architecture leaves open. */
  datatype Machine = Machine(gpr: Gprs, mem: map<Loc, bv32>,
                             hi: bv32, lo: bv32, hi1: bv32, lo1: bv32, undef: bv32)

  function Ld(m: Machine, l: Loc): bv32 {
    if l in m.mem then m.mem[l] else 0
  }

  function Set(m: Machine, d: Reg, v: bv32): Machine {
    if d == 0 then m else m.(gpr := m.gpr[d := v])
  }

  function Store(m: Machine, l: Loc, v: bv32): Machine {
    m.(mem := m.mem[l := v])
  }

  predicate IsControl(w: Word) { w.Br? || w.Goto? }

  /** One native instruction; branches and jumps move no data. */
  function Step(w: Word, m: Machine): Machine {
    match w
    case Lw(rt, at) => Set(m, rt, Ld(m, at))
    case Sw(rt, at) => Store(m, at, m.gpr[rt])
    case I(op, rs, rt, imm) => Set(m, rt, AluImm(op, m.gpr[rs], imm))
    case R(op, rs, rt, rd, sa, fn) => StepR(w, m)
    case _ => m
  }

  function StepR(w: Word, m: Machine): Machine
    requires w.R?
  {
    if 0x18 <= w.fn <= 0x1B then StepHiLo(w, m)
    else if w.fn == 0x0A && m.gpr[w.rt] != 0 then m
    else Set(m, w.rd, ResultR(w, m))
  }

  /** Multiplication and division; opcode 1Ch is the R5900's second multiply pipeline. */
  function StepHiLo(w: Word, m: Machine): Machine
    requires w.R?
  {
    var a, b := m.gpr[w.rs], m.gpr[w.rt];
    if w.op == 0x1C then m.(hi1 := ProductHi(w.fn == 0x18, a, b), lo1 := ProductLo(a, b))
    else if w.fn == 0x18 || w.fn == 0x19 then
      m.(hi := ProductHi(w.fn == 0x18, a, b), lo := ProductLo(a, b))
    else if b == 0 then m.(hi := m.undef, lo := m.undef)
    else m.(hi := Remainder(w.fn == 0x1A, a, b), lo := Quotient(w.fn == 0x1A, a, b))
  }

  /** What a three-register word writes to rd; 0Ah is MOVZ. */
  function ResultR(w: Word, m: Machine): bv32
    requires w.R?
  {
    if w.fn == 0x10 then if w.op == 0x1C then m.hi1 else m.hi
    else if w.fn == 0x12 then if w.op == 0x1C then m.lo1 else m.lo
    else if w.fn == 0x0A then m.gpr[w.rs]
    else if IsShift(w.fn) then Shift(w.fn, m.gpr[w.rt], w.sa)
    else Alu(w.fn, m.gpr[w.rs], m.gpr[w.rt])
  }

  /** The machine state that register instructions never disturb: the engine's own
      registers, the saved branch condition and cpu.pc. */
  datatype Reserved = Reserved(s0: bv32, s1: bv32, s2: bv32, s3: bv32, sp: bv32, fp: bv32,
                               cond: bv32, pc: bv32)

  function ReservedOf(m: Machine): Reserved {
    Reserved(m.gpr[16], m.gpr[17], m.gpr[18], m.gpr[19], m.gpr[29], m.gpr[30],
             Ld(m, Frame(72)), Ld(m, CpuPc))
  }

  predicate Writable(r: Reg) {
    r == 0 || r == AT || 8 <= r <= 15 || 20 <= r <= 25
  }

  /** Words that keep the reserved state. */
  predicate Keeps(w: Word) {
    match w
    case Lw(rt, _) => Writable(rt)
    case Sw(_, at) => at != Frame(72) && at != CpuPc
    case I(_, _, rt, _) => Writable(rt)
    case R(_, _, _, rd, _, _) => Writable(rd)
    case _ => true
  }

  lemma SetKeeps(m: Machine, d: Reg, x: bv32)
    requires Writable(d)
    ensures ReservedOf(Set(m, d, x)) == ReservedOf(m) && Set(m, d, x).gpr[0] == m.gpr[0]
  {
  }

  lemma StoreKeeps(m: Machine, l: Loc, x: bv32)
    requires l != Frame(72) && l != CpuPc
    ensures ReservedOf(Store(m, l, x)) == ReservedOf(m) && Store(m, l, x).gpr == m.gpr
  {
  }

  lemma StepRKeeps(w: Word, m: Machine)
    requires w.R? && Writable(w.rd)
    ensures ReservedOf(StepR(w, m)) == ReservedOf(m) && StepR(w, m).gpr[0] == m.gpr[0]
  {
    hide ResultR, ReservedOf, Set, ProductHi, ProductLo, Quotient, Remainder;
    if 0x18 <= w.fn <= 0x1B { SameKeeps(m, StepHiLo(w, m)); } else { SetKeeps(m, w.rd, ResultR(w, m)); }
  }

  lemma SameKeeps(m: Machine, m': Machine)
    requires m'.gpr == m.gpr && m'.mem == m.mem
    ensures ReservedOf(m') == ReservedOf(m)
  {
  }

  lemma StepKeeps(w: Word, m: Machine)
    requires Keeps(w)
    ensures ReservedOf(Step(w, m)) == ReservedOf(m) && Step(w, m).gpr[0] == m.gpr[0]
  {
    hide AluImm, ReservedOf, StepR, Set, Store;
    match w
    case Lw(rt, at) => SetKeeps(m, rt, Ld(m, at));
    case Sw(rt, at) => StoreKeeps(m, at, m.gpr[rt]);
    case I(op, rs, rt, imm) => SetKeeps(m, rt, AluImm(op, m.gpr[rs], imm));
    case R(_, _, _, _, _, _) => StepRKeeps(w, m);
    case _ =>
  }

  lemma NopStep(m: Machine)
    ensures Step(NOP, m) == m
  {
  }

  /** BEQ, BNE, BLEZ; opcode 1 with rt = 0 is BLTZ. */
  predicate Taken(w: Word, m: Machine)
    requires w.Br?
  {
    var a, b := m.gpr[w.rs], m.gpr[w.rt];
    if w.op == 0x04 then a == b
    else if w.op == 0x05 then a != b
    else if w.op == 0x06 then a == 0 || Negative(a)
    else Negative(a)
  }

  datatype Outcome = Left(dest: Dest, m: Machine) | Stuck

  /** Runs code from pc until a jump leaves it; the delay slot is executed first. */
  function RunFrom(code: seq<Word>, pc: nat, m: Machine): Outcome
    decreases |code| - pc
  {
    if pc + 1 >= |code| then Stuck
    else if code[pc].Goto? then Left(code[pc].dest, Step(code[pc + 1], m))
    else if code[pc].Br? then
      var m' := Step(code[pc + 1], m);
      if Taken(code[pc], m) then
        if code[pc].off > 0 then RunFrom(code, pc + 1 + code[pc].off, m') else Stuck
      else RunFrom(code, pc + 2, m')
    else RunFrom(code, pc + 1, Step(code[pc], m))
  }

  /** From pc with m the run reaches index k with m', taking no branch on the way. */
  ghost predicate Falls(code: seq<Word>, pc: nat, m: Machine, k: nat, m': Machine)
    decreases k - pc
  {
    if pc == k then m == m'
    else
      pc < k <= |code| &&
      if code[pc].Br? then
        pc + 2 <= k && !Taken(code[pc], m) && !IsControl(code[pc + 1]) &&
        Falls(code, pc + 2, Step(code[pc + 1], m), k, m')
      else !code[pc].Goto? && Falls(code, pc + 1, Step(code[pc], m), k, m')
  }

  /** Code that differs only in branch offsets and in what follows k. */
  ghost predicate Patched(a: seq<Word>, b: seq<Word>, k: nat) {
    k <= |a| && k <= |b| &&
    forall i :: 0 <= i < k ==>
      a[i] == b[i] || (a[i].Br? && b[i].Br? && a[i] == b[i].(off := a[i].off))
  }

  lemma {:induction false} FallsPatched(a: seq<Word>, b: seq<Word>, pc: nat, m: Machine, k: nat, m': Machine)
    requires Falls(a, pc, m, k, m') && pc <= k && Patched(a, b, k)
    ensures Falls(b, pc, m, k, m')
    decreases k - pc
  {
    hide Step;
    if pc < k {
      if a[pc].Br? {
        FallsPatched(a, b, pc + 2, Step(a[pc + 1], m), k, m');
      } else {
        FallsPatched(a, b, pc + 1, Step(a[pc], m), k, m');
      }
    }
  }

  lemma {:induction false} FallsStep(code: seq<Word>, w: Word, pc: nat, m: Machine, m': Machine)
    requires pc <= |code| && Falls(code, pc, m, |code|, m') && !IsControl(w)
    ensures Falls(code + [w], pc, m, |code| + 1, Step(w, m'))
    decreases |code| - pc
  {
    hide Step, Taken;
    var code' := code + [w];
    if pc < |code| {
      if code[pc].Br? {
        FallsStep(code, w, pc + 2, Step(code[pc + 1], m), m');
      } else {
        FallsStep(code, w, pc + 1, Step(code[pc], m), m');
      }
    } else {
      assert Falls(code', pc + 1, Step(w, m), |code| + 1, Step(w, m'));
    }
  }

  lemma {:induction false} FallsBranch(code: seq<Word>, w: Word, d: Word, pc: nat, m: Machine, m': Machine)
    requires pc <= |code| && Falls(code, pc, m, |code|, m')
    requires w.Br? && !Taken(w, m') && !IsControl(d)
    ensures Falls(code + [w, d], pc, m, |code| + 2, Step(d, m'))
    decreases |code| - pc
  {
    hide Step, Taken;
    var code' := code + [w, d];
    if pc < |code| {
      if code[pc].Br? {
        FallsBranch(code, w, d, pc + 2, Step(code[pc + 1], m), m');
      } else {
        FallsBranch(code, w, d, pc + 1, Step(code[pc], m), m');
      }
    } else {
      assert Falls(code', pc + 2, Step(d, m), |code| + 2, Step(d, m'));
    }
  }

  /** Falling through to k is running to k. */
  lemma {:induction false} FallsRuns(code: seq<Word>, pc: nat, m: Machine, k: nat, m': Machine)
    requires pc <= k < |code| && Falls(code, pc, m, k, m')
    ensures RunFrom(code, pc, m) == RunFrom(code, k, m')
    decreases k - pc
  {
    hide Step, Taken;
    if pc < k {
      if code[pc].Br? {
        FallsRuns(code, pc + 2, Step(code[pc + 1], m), k, m');
      } else {
        FallsRuns(code, pc + 1, Step(code[pc], m), k, m');
      }
    }
  }
}
