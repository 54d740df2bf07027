/** MIPS I instruction words, and the arithmetic that the PSX processor and the
    native processor share.  The recompiler translates one into the other, so one
    datatype serves both sides.  `Br`, `Goto`, `Lw` and `Sw` occur only in native
    code, `J` and the branch opcodes of `I` only in PSX code. */
module Mips {
  import opened Numbers

  type Reg = r: int | 0 <= r < 32 witness 0

  /** Where native loads and stores go: a field of the cpu structure (base S0) or a
      word of the block's stack frame (base SP). */
  datatype Loc = CpuReg(n: Reg) | CpuHi | CpuLo | CpuPc | CpuCurrentPc | Frame(off: nat)

  /** What a native J reaches: a linked block, or one of the two trampolines. */
  datatype Dest = LinkTo(pc: bv32) | Abort | Dispatch

  datatype Word =
    | R(op: int, rs: Reg, rt: Reg, rd: Reg, sa: bv5, fn: int)
    | I(op: int, rs: Reg, rt: Reg, imm: bv16)
    | J(op: int, target: bv26)
    | Lw(rt: Reg, at: Loc)
    | Sw(rt: Reg, at: Loc)
    | Br(op: int, rs: Reg, rt: Reg, off: int)
    | Goto(dest: Dest)

  const NOP := R(0, 0, 0, 0, 0, 0)

  const AT: Reg := 1
  const T8: Reg := 24
  const T9: Reg := 25
  const S2: Reg := 18

  // ---- Arithmetic --------------------------------------------------------

  function SignExt(i: bv16): bv32 {
    if i & 0x8000 != 0 then (i as bv32) | 0xFFFF_0000 else i as bv32
  }

  function ZeroExt(i: bv16): bv32 { i as bv32 }

  function Lo16(v: bv32): bv16 { (v & 0xFFFF) as bv16 }

  function Hi16(v: bv32): bv16 { (v >> 16) as bv16 }

  predicate Negative(v: bv32) { v & 0x8000_0000 != 0 }

  predicate SignedLess(a: bv32, b: bv32) { Signed(a) < Signed(b) }

  predicate Below(a: bv32, b: bv32) { Value(a) < Value(b) }

  function Sra(v: bv32, n: bv5): bv32 {
    if Negative(v) then !((!v) >> n) else v >> n
  }

  function Low5(v: bv32): bv5 { (v & 31) as bv5 }

  function Flag(b: bool): bv32 { if b then 1 else 0 }

  /** Shifts by a constant amount. */
  function Shift(fn: int, v: bv32, sa: bv5): bv32 {
    if fn == 0x00 then v << sa
    else if fn == 0x02 then v >> sa
    else Sra(v, sa)
  }

  predicate IsShift(fn: int) { fn == 0x00 || fn == 0x02 || fn == 0x03 }

  predicate IsShiftVar(fn: int) { fn == 0x04 || fn == 0x06 || fn == 0x07 }

  /** ADDU, SUBU, AND, OR, XOR, NOR, SLT, SLTU. */
  predicate IsAlu3(fn: int) { fn == 0x21 || 0x23 <= fn <= 0x27 || fn == 0x2A || fn == 0x2B }

  function Add(a: bv32, b: bv32): bv32 { a + b }

  function Sub(a: bv32, b: bv32): bv32 { a - b }

  function And(a: bv32, b: bv32): bv32 { a & b }

  function Or(a: bv32, b: bv32): bv32 { a | b }

  function Xor(a: bv32, b: bv32): bv32 { a ^ b }

  function Nor(a: bv32, b: bv32): bv32 { !(a | b) }

  /** Three-register operations; a is the rs operand and b the rt operand. */
  function Alu(fn: int, a: bv32, b: bv32): bv32 {
    match fn
    case 0x20 => Add(a, b)
    case 0x21 => Add(a, b)
    case 0x22 => Sub(a, b)
    case 0x23 => Sub(a, b)
    case 0x24 => And(a, b)
    case 0x25 => Or(a, b)
    case 0x26 => Xor(a, b)
    case 0x27 => Nor(a, b)
    case 0x2A => Flag(SignedLess(a, b))
    case 0x2B => Flag(Below(a, b))
    case _ => ShiftVar(fn, b, a)
  }

  /** SLLV, SRLV, SRAV use the low five bits of a. */
  function ShiftVar(fn: int, v: bv32, a: bv32): bv32 {
    var n := Low5(a);
    if fn == 0x04 then v << n else if fn == 0x06 then v >> n else Sra(v, n)
  }

  /** ADDI..LUI; a is the rs operand. */
  function AluImm(op: int, a: bv32, imm: bv16): bv32 {
    if op == 0x08 || op == 0x09 then Add(a, SignExt(imm))
    else if op == 0x0A then Flag(SignedLess(a, SignExt(imm)))
    else if op == 0x0B then Flag(Below(a, SignExt(imm)))
    else if op == 0x0C then And(a, ZeroExt(imm))
    else if op == 0x0D then Or(a, ZeroExt(imm))
    else if op == 0x0E then Xor(a, ZeroExt(imm))
    else ZeroExt(imm) << 16
  }

  /** Signed overflow: operands of one sign whose sum has the other. */
  predicate AddOverflows(a: bv32, b: bv32) {
    !Negative(Xor(a, b)) && Negative(Xor(Add(a, b), a))
  }

  predicate SubOverflows(a: bv32, b: bv32) {
    Negative(Xor(a, b)) && Negative(Xor(Sub(a, b), a))
  }

  // ---- HI and LO ---------------------------------------------------------

  /** v as an operand of a signed or an unsigned operation. */
  function Number(signed: bool, v: bv32): int { if signed then Signed(v) else Value(v) }

  function ProductHi(signed: bool, a: bv32, b: bv32): bv32 {
    ToWord(Number(signed, a) * Number(signed, b) / TWO32)
  }

  function ProductLo(a: bv32, b: bv32): bv32 { ToWord(Value(a) * Value(b)) }

  /** Quotient truncated toward zero. */
  function Truncated(x: int, y: int): int
    requires y != 0
  {
    if x >= 0 then x / y else -(-x / y)
  }

  /** 80000000h / -1 gives 80000000h. */
  function Quotient(signed: bool, a: bv32, b: bv32): bv32
    requires b != 0
  {
    ToWord(Truncated(Number(signed, a), Divisor(signed, b)))
  }

  /** Remainder with the sign of the dividend. */
  function Remainder(signed: bool, a: bv32, b: bv32): bv32
    requires b != 0
  {
    var x, y := Number(signed, a), Divisor(signed, b);
    ToWord(x - y * Truncated(x, y))
  }

  function Divisor(signed: bool, b: bv32): (y: int)
    requires b != 0
    ensures y != 0
  {
    assert Number(signed, b) != 0 by { ZeroNumber(signed, b); }
    Number(signed, b)
  }

  lemma ZeroNumber(signed: bool, b: bv32)
    ensures Number(signed, b) == 0 ==> b == 0
  {
    hide Value;
    SmallValues();
    if Value(b) == 0 { ValueInjective(b, 0); }
  }
}
