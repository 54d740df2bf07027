/** The reference semantics: what run_interpreter_chain does with register,
    HI/LO and control-flow instructions. */
module Psx {
  import opened Mips

  type Gprs = s: seq<bv32> | |s| == 32 witness seq(32, _ => 0)

  datatype Regs = Regs(r: Gprs, hi: bv32, lo: bv32)

  function Write(p: Regs, d: Reg, v: bv32): Regs {
    if d == 0 then p else p.(r := p.r[d := v])
  }

  /** Instructions that only compute on registers and HI/LO. */
  predicate IsAluWord(w: Word) {
    (w.R? && w.op == 0 &&
      (IsShift(w.fn) || IsShiftVar(w.fn) || IsAlu3(w.fn) || w.fn == 0x20 || w.fn == 0x22 ||
       0x10 <= w.fn <= 0x13 || 0x18 <= w.fn <= 0x1B)) ||
    (w.I? && 0x08 <= w.op <= 0x0F)
  }

  /** ADD, SUB and ADDI raise an exception on signed overflow. */
  predicate Traps(w: Word, p: Regs)
    requires IsAluWord(w)
  {
    if w.R? then
      (w.fn == 0x20 && AddOverflows(p.r[w.rs], p.r[w.rt])) ||
      (w.fn == 0x22 && SubOverflows(p.r[w.rs], p.r[w.rt]))
    else
      w.op == 0x08 && AddOverflows(p.r[w.rs], SignExt(w.imm))
  }

  function DivLo(signed: bool, a: bv32, b: bv32): bv32 {
    if b == 0 then (if signed && Negative(a) then 1 else 0xFFFF_FFFF)
    else Quotient(signed, a, b)
  }

  function DivHi(signed: bool, a: bv32, b: bv32): bv32 {
    if b == 0 then a else Remainder(signed, a, b)
  }

  /** One register instruction that does not trap. */
  function Exec(w: Word, p: Regs): Regs
    requires IsAluWord(w)
  {
    if w.I? then Write(p, w.rt, AluImm(w.op, p.r[w.rs], w.imm))
    else
      var a, b := p.r[w.rs], p.r[w.rt];
      if IsShift(w.fn) then Write(p, w.rd, Shift(w.fn, b, w.sa))
      else if w.fn == 0x10 then Write(p, w.rd, p.hi)
      else if w.fn == 0x11 then p.(hi := a)
      else if w.fn == 0x12 then Write(p, w.rd, p.lo)
      else if w.fn == 0x13 then p.(lo := a)
      else if w.fn == 0x18 || w.fn == 0x19 then
        p.(hi := ProductHi(w.fn == 0x18, a, b), lo := ProductLo(a, b))
      else if w.fn == 0x1A || w.fn == 0x1B then
        p.(hi := DivHi(w.fn == 0x1A, a, b), lo := DivLo(w.fn == 0x1A, a, b))
      else Write(p, w.rd, Alu(w.fn, a, b))
  }
}
