/** What single instructions compute, stated in numbers and bits apart from the functions
    that compute it: both the interpreter and the native processor use those. */
module MipsLaws {
  import opened Arithmetic
  import opened Numbers
  import opened Mips
  import opened Psx

  /** q is a / b truncated toward zero and r the remainder, with the sign of a. */
  predicate Divides(a: int, b: int, q: int, r: int) {
    a == b * q + r && Abs(r) < Abs(b) &&
    (r < 0 ==> a < 0) && (r > 0 ==> a > 0) &&
    (q < 0 ==> (a < 0) != (b < 0)) && (q > 0 ==> (a < 0) == (b < 0))
  }

  /** There is only one such pair. */
  lemma DivisionIsUnique(a: int, b: int, q: int, r: int, q': int, r': int)
    requires b != 0 && Divides(a, b, q, r) && Divides(a, b, q', r')
    ensures q == q' && r == r'
  {
    assert b * (q - q') == r' - r;
    Multiple(Abs(b), if b > 0 then q - q' else q' - q);
  }

  // ---- Division and multiplication -------------------------------------------------------

  lemma TruncatedDivides(x: int, y: int)
    requires y != 0
    ensures Divides(x, y, Truncated(x, y), x - y * Truncated(x, y))
    ensures Abs(Truncated(x, y)) <= Abs(x) && Abs(x - y * Truncated(x, y)) <= Abs(x)
  {
    hide Truncated;
    var n, d: int := Abs(x), Abs(y);
    QuotientOfAbs(x, y);
    var k: int := n / d;
    Shrinks(n, d, k, n % d);
    assert y * Truncated(x, y) == if x < 0 then -(d * k) else d * k;
  }

  lemma Shrinks(x: nat, y: nat, k: int, r: nat)
    requires r < y && x == y * k + r
    ensures 0 <= k <= x && r <= x && 0 <= y * k
  {
    Below(y, k);
    if k > 0 { assert y * k >= k; }
  }

  lemma Below(y: nat, k: int)
    ensures k < 0 ==> y * k <= -(y as int)
  {
  }

  lemma QuotientOfAbs(x: int, y: int)
    requires y != 0
    ensures Truncated(x, y) == if (x < 0) == (y < 0) then Abs(x) / Abs(y) else -(Abs(x) / Abs(y))
  {
    if y < 0 { NegativeDivisor(Abs(x), Abs(y)); }
  }

  lemma NegativeDivisor(n: nat, d: nat)
    requires d > 0
    ensures n / -(d as int) == -(n / d)
  {
  }

  lemma NumberZero(v: bv32)
    ensures Signed(v) == 0 <==> v == 0
    ensures Value(v) == 0 <==> v == 0
  {
    hide Value;
    SmallValues();
    if Value(v) == 0 { ValueInjective(v, 0); }
  }

  /** DIV leaves the quotient in LO and the remainder in HI.  Only -2^31 / -1 does not fit. */
  lemma DivLaw(w: Word, p: Regs)
    requires w.R? && w.op == 0 && w.fn == 0x1A
    ensures var q := Exec(w, p);
            var a, b := Signed(p.r[w.rs]), Signed(p.r[w.rt]);
            q.r == p.r &&
            if b == 0 then q.hi == p.r[w.rs] && q.lo == if a < 0 then 1 else 0xFFFF_FFFF
            else if a == -0x8000_0000 && b == -1 then Signed(q.lo) == a && Signed(q.hi) == 0
            else Divides(a, b, Signed(q.lo), Signed(q.hi))
  {
    hide Signed, DivHi, DivLo, Divides;
    SignedQuotient(p.r[w.rs], p.r[w.rt]);
  }

  lemma SignedQuotient(v: bv32, w: bv32)
    ensures var a, b := Signed(v), Signed(w);
            var hi, lo := DivHi(true, v, w), DivLo(true, v, w);
            if b == 0 then hi == v && lo == if a < 0 then 1 else 0xFFFF_FFFF
            else if a == -0x8000_0000 && b == -1 then Signed(lo) == a && Signed(hi) == 0
            else Divides(a, b, Signed(lo), Signed(hi))
  {
    hide *;
    var a, b := Signed(v), Signed(w);
    NumberZero(w);
    DivWords(true, v, w);
    if b != 0 {
      QuotientFits(a, b);
      WordHolds(Truncated(a, b));
      SignedWraps();
      WordHolds(a - b * Truncated(a, b));
    }
  }

  /** HI and LO after a division by w. */
  lemma DivWords(signed: bool, v: bv32, w: bv32)
    ensures w == 0 ==> DivHi(signed, v, w) == v
    ensures w == 0 ==> DivLo(signed, v, w) == if signed && Signed(v) < 0 then 1 else 0xFFFF_FFFF
    ensures w != 0 ==>
      var a, b := if signed then Signed(v) else Value(v), if signed then Signed(w) else Value(w);
      b != 0 && DivLo(signed, v, w) == ToWord(Truncated(a, b)) && DivHi(signed, v, w) == ToWord(a - b * Truncated(a, b))
  {
    hide Signed, Value, ToWord, Truncated, Negative;
    NegativeIs(v);
    NumberZero(w);
  }

  lemma SignedWraps()
    ensures Signed(ToWord(0x8000_0000)) == -0x8000_0000
  {
    hide ToWord;
    WordHolds(0x8000_0000);
  }

  lemma QuotientFits(a: int, b: int)
    requires b != 0 && -0x8000_0000 <= a < 0x8000_0000 && -0x8000_0000 <= b < 0x8000_0000
    ensures var q := Truncated(a, b);
            var r := a - b * q;
            Divides(a, b, q, r) && -0x8000_0000 <= r < 0x8000_0000 &&
            if a == -0x8000_0000 && b == -1 then q == 0x8000_0000 && r == 0 else -0x8000_0000 <= q < 0x8000_0000
  {
    TruncatedDivides(a, b);
    if Truncated(a, b) == 0x8000_0000 { FullQuotient(a, b); }
  }

  lemma FullQuotient(a: int, b: int)
    requires b != 0 && -0x8000_0000 <= a < 0x8000_0000 && Truncated(a, b) == 0x8000_0000
    ensures a == -0x8000_0000 && b == -1
  {
    TruncatedDivides(a, b);
    if b != 1 && b != -1 { FarFactor(b); }
  }

  lemma FarFactor(b: int)
    requires b != 0 && b != 1 && b != -1
    ensures Abs(b * 0x8000_0000) >= 2 * 0x8000_0000
  {
  }

  lemma DivuLaw(w: Word, p: Regs)
    requires w.R? && w.op == 0 && w.fn == 0x1B
    ensures var q := Exec(w, p);
            var a, b := Value(p.r[w.rs]), Value(p.r[w.rt]);
            q.r == p.r &&
            if b == 0 then q.hi == p.r[w.rs] && q.lo == 0xFFFF_FFFF
            else a == b * Value(q.lo) + Value(q.hi) && Value(q.hi) < b
  {
    hide Value, DivHi, DivLo;
    UnsignedQuotient(p.r[w.rs], p.r[w.rt]);
  }

  lemma UnsignedQuotient(v: bv32, w: bv32)
    ensures var a, b := Value(v), Value(w);
            var hi, lo := DivHi(false, v, w), DivLo(false, v, w);
            if b == 0 then hi == v && lo == 0xFFFF_FFFF
            else a == b * Value(lo) + Value(hi) && Value(hi) < b
  {
    hide *;
    var a, b := Value(v), Value(w);
    NumberZero(w);
    DivWords(false, v, w);
    if b != 0 {
      NaturalQuotient(a, b);
      WordHolds(Truncated(a, b));
      WordHolds(a - b * Truncated(a, b));
    }
  }

  lemma NaturalQuotient(a: nat, b: nat)
    requires b != 0
    ensures 0 <= Truncated(a, b) <= a && 0 <= a - b * Truncated(a, b) <= a && a - b * Truncated(a, b) < b
  {
    TruncatedDivides(a, b);
  }

  /** MULT and MULTU leave the 64-bit product in HI and LO. */
  lemma MultLaw(w: Word, p: Regs)
    requires w.R? && w.op == 0 && w.fn == 0x18
    ensures var q := Exec(w, p);
            q.r == p.r && Signed(q.hi) * TWO32 + Value(q.lo) == Signed(p.r[w.rs]) * Signed(p.r[w.rt])
  {
    hide Signed, Value, ToWord;
    var a, b := p.r[w.rs], p.r[w.rt];
    var x := Signed(a) * Signed(b);
    SignedProduct(Signed(a), Signed(b));
    WordHolds(x / TWO32);
    WordHolds(Value(a) * Value(b));
    SignedIs(a);
    SignedIs(b);
    SameProduct(Value(a), Value(b), Signed(a), Signed(b));
  }

  lemma SignedProduct(x: int, y: int)
    requires -0x8000_0000 <= x < 0x8000_0000 && -0x8000_0000 <= y < 0x8000_0000
    ensures -0x8000_0000 * 0x8000_0000 <= x * y <= 0x8000_0000 * 0x8000_0000
  {
    assert 0 <= Abs(x) * Abs(y) <= 0x8000_0000 * 0x8000_0000 by { Grows(Abs(x), Abs(y), 0x8000_0000); }
    assert x * y == Abs(x) * Abs(y) || x * y == -(Abs(x) * Abs(y));
  }

  lemma Grows(x: nat, y: nat, n: nat)
    requires x <= n && y <= n
    ensures x * y <= n * n
  {
    assert x * y <= x * n <= n * n;
  }

  lemma SignedIs(v: bv32)
    ensures Signed(v) == Value(v) || Signed(v) == Value(v) - TWO32
  {
  }

  /** Only the sign makes a difference, and that by multiples of 2^32. */
  lemma SameProduct(v: int, w: int, x: int, y: int)
    requires (x == v || x == v - TWO32) && (y == w || y == w - TWO32)
    ensures v * w % TWO32 == x * y % TWO32
  {
    var k := if x == v then if y == w then 0 else v else if y == w then w else v + w - TWO32;
    assert v * w == x * y + k * TWO32;
    var q, r := x * y / TWO32, x * y % TWO32;
    assert x * y == q * TWO32 + r;
    assert v * w == (q + k) * TWO32 + r;
    Reduced(v * w, r, q + k);
  }

  lemma MultuLaw(w: Word, p: Regs)
    requires w.R? && w.op == 0 && w.fn == 0x19
    ensures var q := Exec(w, p);
            q.r == p.r && Value(q.hi) * TWO32 + Value(q.lo) == Value(p.r[w.rs]) * Value(p.r[w.rt])
  {
    hide Value, ProductHi, ProductLo;
    UnsignedProduct(p.r[w.rs], p.r[w.rt]);
  }

  lemma UnsignedProduct(v: bv32, w: bv32)
    ensures Value(ProductHi(false, v, w)) * TWO32 + Value(ProductLo(v, w)) == Value(v) * Value(w)
  {
    hide Value, ToWord;
    Halves(Value(v) * Value(w), Value(v), Value(w));
  }

  lemma Halves(x: nat, a: nat, b: nat)
    requires a < TWO32 && b < TWO32 && x == a * b
    ensures Value(ToWord(x / TWO32)) * TWO32 + Value(ToWord(x)) == x
  {
    hide Value, ToWord;
    Grows(a, b, TWO32 - 1);
    WordHolds(x / TWO32);
    WordHolds(x);
  }

  /** MFHI, MTHI, MFLO and MTLO. */
  lemma MoveLaw(w: Word, p: Regs)
    requires w.R? && w.op == 0 && 0x10 <= w.fn <= 0x13
    ensures w.fn == 0x10 ==> Puts(p, Exec(w, p), w.rd, p.hi)
    ensures w.fn == 0x11 ==> Exec(w, p) == Regs(p.r, p.r[w.rs], p.lo)
    ensures w.fn == 0x12 ==> Puts(p, Exec(w, p), w.rd, p.lo)
    ensures w.fn == 0x13 ==> Exec(w, p) == Regs(p.r, p.hi, p.r[w.rs])
  {
  }

  // ---- One result register --------------------------------------------------------------------

  /** From p to q register d has become x, unless it is $0, and nothing else has changed. */
  predicate Puts(p: Regs, q: Regs, d: Reg, x: bv32) {
    q.hi == p.hi && q.lo == p.lo && forall r: Reg :: q.r[r] == if r == d && d != 0 then x else p.r[r]
  }

  lemma WritePuts(p: Regs, d: Reg, x: bv32)
    ensures Puts(p, Write(p, d, x), d, x)
  {
  }

  lemma ExecWrites(w: Word, p: Regs)
    requires (w.R? && w.op == 0 && (0x20 <= w.fn <= 0x27 || w.fn in {0x04, 0x06, 0x07, 0x2A, 0x2B})) || (w.I? && 8 <= w.op <= 15)
    ensures w.R? ==> Puts(p, Exec(w, p), w.rd, Alu(w.fn, p.r[w.rs], p.r[w.rt]))
    ensures w.I? ==> Puts(p, Exec(w, p), w.rt, AluImm(w.op, p.r[w.rs], w.imm))
  {
    hide Alu, AluImm, Puts, Write;
    if w.R? { WritePuts(p, w.rd, Alu(w.fn, p.r[w.rs], p.r[w.rt])); }
    if w.I? { WritePuts(p, w.rt, AluImm(w.op, p.r[w.rs], w.imm)); }
  }

  /** ADD, ADDU, SUB and SUBU: the result modulo 2^32.  ADD and SUB raise an exception when it
      is outside the range of 32-bit numbers. */
  lemma SumLaw(w: Word, p: Regs)
    requires w.R? && w.op == 0 && 0x20 <= w.fn <= 0x23
    ensures var a, b := Signed(p.r[w.rs]), Signed(p.r[w.rt]);
            var x := if w.fn <= 0x21 then a + b else a - b;
            (exists v :: Puts(p, Exec(w, p), w.rd, v) && Signed(v) == Wrapped(x)) &&
            (Traps(w, p) <==> (w.fn == 0x20 || w.fn == 0x22) && !(-0x8000_0000 <= x < 0x8000_0000))
  {
    hide *;
    ExecWrites(w, p);
    SumWords(w.fn, p.r[w.rs], p.r[w.rt]);
    SumTraps(w, p);
    Overflows(p.r[w.rs], p.r[w.rt]);
  }

  lemma SumWords(fn: int, a: bv32, b: bv32)
    requires 0x20 <= fn <= 0x23
    ensures Signed(Alu(fn, a, b)) == Wrapped(if fn <= 0x21 then Signed(a) + Signed(b) else Signed(a) - Signed(b))
  {
    hide Signed, Wrapped;
    SignedSums(a, b);
  }

  lemma SumTraps(w: Word, p: Regs)
    requires w.R? && w.op == 0 && 0x20 <= w.fn <= 0x23
    ensures Traps(w, p) ==
      ((w.fn == 0x20 && AddOverflows(p.r[w.rs], p.r[w.rt])) || (w.fn == 0x22 && SubOverflows(p.r[w.rs], p.r[w.rt])))
  {
    hide AddOverflows, SubOverflows;
  }

  lemma Overflows(a: bv32, b: bv32)
    ensures AddOverflows(a, b) <==> !(-0x8000_0000 <= Signed(a) + Signed(b) < 0x8000_0000)
    ensures SubOverflows(a, b) <==> !(-0x8000_0000 <= Signed(a) - Signed(b) < 0x8000_0000)
  {
    hide Signed, Negative, Xor, Add, Sub;
    SumWords(0x21, a, b);
    SumWords(0x23, a, b);
    NegativeIs(a);
    NegativeIs(b);
    NegativeIs(Add(a, b));
    NegativeIs(Sub(a, b));
    XorSigns(a, b);
    XorSigns(Add(a, b), a);
    XorSigns(Sub(a, b), a);
  }

  lemma NegativeIs(a: bv32)
    ensures Negative(a) <==> Signed(a) < 0
  {
    NegativeBit(a);
  }

  lemma XorSigns(a: bv32, b: bv32)
    ensures Negative(Xor(a, b)) <==> Negative(a) != Negative(b)
  {
  }

  /** No other instruction but ADDI can raise one. */
  lemma TrapLaw(w: Word, p: Regs)
    requires IsAluWord(w) && !(w.R? && w.fn in {0x20, 0x22}) && !(w.I? && w.op == 0x08)
    ensures !Traps(w, p)
  {
    hide AddOverflows, SubOverflows;
  }

  /** The word with the digits of imm and above them copies of its highest one. */
  lemma SignExtIs(imm: bv16)
    ensures Lo16(SignExt(imm)) == imm
    ensures SignExt(imm) & 0xFFFF_8000 == 0 || SignExt(imm) & 0xFFFF_8000 == 0xFFFF_8000
  {
  }

  /** ADDI and ADDIU. */
  lemma AddiLaw(w: Word, p: Regs)
    requires w.I? && (w.op == 0x08 || w.op == 0x09)
    ensures var x := Signed(p.r[w.rs]) + Signed(SignExt(w.imm));
            (exists v :: Puts(p, Exec(w, p), w.rt, v) && Signed(v) == Wrapped(x)) &&
            (Traps(w, p) <==> w.op == 0x08 && !(-0x8000_0000 <= x < 0x8000_0000))
  {
    hide *;
    ExecWrites(w, p);
    AddiWords(w, p);
    Overflows(p.r[w.rs], SignExt(w.imm));
  }

  lemma AddiWords(w: Word, p: Regs)
    requires w.I? && (w.op == 0x08 || w.op == 0x09)
    ensures Signed(AluImm(w.op, p.r[w.rs], w.imm)) == Wrapped(Signed(p.r[w.rs]) + Signed(SignExt(w.imm)))
    ensures Traps(w, p) == (w.op == 0x08 && AddOverflows(p.r[w.rs], SignExt(w.imm)))
  {
    hide Signed, Wrapped, SignExt, AddOverflows, Alu, AluImm;
    AddiIs(p.r[w.rs], w.imm);
  }

  lemma AddiIs(a: bv32, imm: bv16)
    ensures Signed(AluImm(0x08, a, imm)) == Wrapped(Signed(a) + Signed(SignExt(imm)))
    ensures Signed(AluImm(0x09, a, imm)) == Wrapped(Signed(a) + Signed(SignExt(imm)))
  {
    hide SignExt, Signed, Wrapped, Add;
    SumWords(0x21, a, SignExt(imm));
  }

  /** SLT and SLTU, SLTI and SLTIU. */
  lemma CompareLaw(w: Word, p: Regs)
    requires (w.R? && w.op == 0 && (w.fn == 0x2A || w.fn == 0x2B)) || (w.I? && (w.op == 0x0A || w.op == 0x0B))
    ensures var a, b := p.r[w.rs], if w.R? then p.r[w.rt] else SignExt(w.imm);
            var less := if (w.R? && w.fn == 0x2A) || (w.I? && w.op == 0x0A) then Signed(a) < Signed(b) else Value(a) < Value(b);
            Puts(p, Exec(w, p), if w.R? then w.rd else w.rt, if less then 1 else 0)
  {
    hide Signed, Value, SignExt, Exec, Puts;
    ExecWrites(w, p);
  }

  /** AND, OR, XOR, NOR; ANDI, ORI, XORI, LUI. */
  lemma LogicLaw(w: Word, p: Regs)
    requires (w.R? && w.op == 0 && 0x24 <= w.fn <= 0x27) || (w.I? && 0x0C <= w.op <= 0x0F)
    ensures w.R? ==> Puts(p, Exec(w, p), w.rd, Logic(w.fn - 0x24, p.r[w.rs], p.r[w.rt]))
    ensures w.I? ==> Puts(p, Exec(w, p), w.rt, Logic(if w.op == 0x0F then 4 else w.op - 0x0C, p.r[w.rs], w.imm as bv32))
  {
    hide *;
    ExecWrites(w, p);
    if w.R? { LogicWords(w.fn, p.r[w.rs], p.r[w.rt]); } else { LogicImmediates(w.op, p.r[w.rs], w.imm); }
  }

  /** AND, OR, XOR, NOR, and the second operand in the upper half. */
  function Logic(k: int, a: bv32, b: bv32): bv32 {
    if k == 0 then a & b else if k == 1 then a | b else if k == 2 then a ^ b
    else if k == 3 then !(a | b) else b << 16
  }

  lemma LogicWords(fn: int, a: bv32, b: bv32)
    requires 0x24 <= fn <= 0x27
    ensures Alu(fn, a, b) == Logic(fn - 0x24, a, b)
  {
    hide And, Or, Xor, Nor, Logic;
    WordsAre(a, b);
  }

  lemma WordsAre(a: bv32, b: bv32)
    ensures And(a, b) == Logic(0, a, b) && Or(a, b) == Logic(1, a, b)
    ensures Xor(a, b) == Logic(2, a, b) && Nor(a, b) == Logic(3, a, b)
  {
    hide *;
    AndIs(a, b);
    OrIs(a, b);
    XorIs(a, b);
    NorIs(a, b);
  }

  lemma AndIs(a: bv32, b: bv32)
    ensures And(a, b) == Logic(0, a, b)
  {
  }

  lemma OrIs(a: bv32, b: bv32)
    ensures Or(a, b) == Logic(1, a, b)
  {
  }

  lemma XorIs(a: bv32, b: bv32)
    ensures Xor(a, b) == Logic(2, a, b)
  {
  }

  lemma NorIs(a: bv32, b: bv32)
    ensures Nor(a, b) == Logic(3, a, b)
  {
  }

  lemma LogicImmediates(op: int, a: bv32, imm: bv16)
    requires 0x0C <= op <= 0x0F
    ensures AluImm(op, a, imm) == Logic(if op == 0x0F then 4 else op - 0x0C, a, imm as bv32)
  {
    hide And, Or, Xor, Logic;
    WordsAre(a, imm as bv32);
    UpperIs(a, imm as bv32);
  }

  lemma UpperIs(a: bv32, b: bv32)
    ensures b << 16 == Logic(4, a, b)
  {
  }

  /** SLL, SRL, SRA and SLLV, SRLV, SRAV: the arithmetic shifts fill with the sign. */
  lemma ShiftLaw(w: Word, p: Regs)
    requires w.R? && w.op == 0 && w.fn in {0x00, 0x02, 0x03, 0x04, 0x06, 0x07}
    ensures Puts(p, Exec(w, p), w.rd,
                 Shifted(w.fn % 4, p.r[w.rt], if w.fn < 4 then w.sa else (p.r[w.rs] & 31) as bv5))
  {
    hide Puts, Write, Signed, Shifted;
    var v := p.r[w.rt];
    if w.fn < 4 {
      ShiftWords(w.fn, v, w.sa);
      WritePuts(p, w.rd, Shift(w.fn, v, w.sa));
    } else {
      ShiftWords(w.fn % 4, v, Low5(p.r[w.rs]));
      WritePuts(p, w.rd, ShiftVar(w.fn, v, p.r[w.rs]));
    }
  }

  function Shifted(kind: int, v: bv32, n: bv5): bv32 {
    if kind == 0 then v << n
    else if kind == 2 then v >> n
    else if Signed(v) < 0 then (v >> n) | !(0xFFFF_FFFF >> n) else v >> n
  }

  lemma ShiftWords(fn: int, v: bv32, n: bv5)
    requires IsShift(fn)
    ensures Shift(fn, v, n) == Shifted(fn, v, n)
  {
    hide Signed, Negative, Sra;
    NegativeIs(v);
    SraIs(v, n);
  }

  lemma SraIs(v: bv32, n: bv5)
    ensures Sra(v, n) == if Negative(v) then (v >> n) | !(0xFFFF_FFFF >> n) else v >> n
  {
  }
}
