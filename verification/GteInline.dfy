/** Instruction sequences that the recompiler emits in place of GTE commands.  Each statement
    is one native instruction on 32-bit registers named as the code generator names them.
    FLAG is stored as zero, so it is not compared. */
module GteInline {
  import opened Gte
  import Division = GteDivide

  // ---- Native instructions -----------------------------------------------------------------

  /** LO after MULT. */
  function MulLo(a: I32, b: I32): I32 { Wrap32(a * b) }

  function Addu(a: I32, b: I32): I32 { Wrap32(a + b) }

  function Subu(a: I32, b: I32): I32 { Wrap32(a - b) }

  function Sra12(v: I32): I32 { v / 0x1000 }

  function Sra4(v: I32): I32 { v / 0x10 }

  function Pmaxw(a: I32, b: I32): I32 { if a > b then a else b }

  function Pminw(a: I32, b: I32): I32 { if a < b then a else b }

  /** SLT and MOVN together: t if a < b, else v. */
  function IfLess(a: I32, b: I32, t: I32, v: I32): I32 { if a < b then t else v }

  // ---- Shared parts ---------------------------------------------------------------------------

  /** IR1-IR3 from the values in V0, V1, A0. */
  method IrSatStore(d: File, v0: I32, v1: I32, a0: I32, lm: bool) returns (d': File)
    ensures d' == d[9 := SatIr(v0, lm)][10 := SatIr(v1, lm)][11 := SatIr(a0, lm)]
  {
    var t9: I32 := 0x7FFF;
    var t8: I32 := if lm then 0 else -0x8000;
    var x, y, z := Pminw(Pmaxw(v0, t8), t9), Pminw(Pmaxw(v1, t8), t9), Pminw(Pmaxw(a0, t8), t9);
    d' := d[9 := x][10 := y][11 := z];
  }

  /** The same with comparisons and conditional moves, as GPL does it. */
  method IrMoveStore(d: File, v0: I32, v1: I32, a0: I32, lm: bool) returns (d': File)
    ensures d' == d[9 := SatIr(v0, lm)][10 := SatIr(v1, lm)][11 := SatIr(a0, lm)]
  {
    var t9: I32 := 0x7FFF;
    var a1: I32 := if lm then 0 else -0x8000;
    var x, y, z := IfLess(v0, a1, a1, v0), IfLess(v1, a1, a1, v1), IfLess(a0, a1, a1, a0);
    x, y, z := IfLess(t9, x, t9, x), IfLess(t9, y, t9, y), IfLess(t9, z, t9, z);
    d' := d[9 := x][10 := y][11 := z];
  }

  method StoreMacs3(d: File, v0: I32, v1: I32, a0: I32) returns (d': File)
    ensures d' == d[25 := v0][26 := v1][27 := a0]
  {
    d' := d[25 := v0][26 := v1][27 := a0];
  }

  /** The parts do not overlap, so OR adds them. */
  function Pack(code: nat, b: I32, g: I32, r: I32): int {
    Wrap32(code * 0x100_0000) + b * 0x1_0000 + g * 0x100 + r
  }

  lemma PackIsPacked(code: nat, b: int, g: int, r: int)
    requires code < 0x100 && 0 <= b <= 255 && 0 <= g <= 255 && 0 <= r <= 255
    ensures Pack(code, b, g, r) == Packed(r, g, b, code)
  {
  }

  /** emit_push_color_inline: V0, V1, A0 hold MAC1-MAC3. */
  method PushColorInline(d: File, v0: I32, v1: I32, a0: I32) returns (d': File)
    requires d[25] == v0 && d[26] == v1 && d[27] == a0
    ensures forall s: State :: s.d == d ==> d' == PushColor(s).d
  {
    var t8, t9 := d[21], d[22];
    d' := d[20 := t8][21 := t9];
    var a1, a2, a3 := Sra4(v0), Sra4(v1), Sra4(a0);
    t9 := 0xFF;
    a1, a2, a3 := Pminw(Pmaxw(a1, 0), t9), Pminw(Pmaxw(a2, 0), t9), Pminw(Pmaxw(a3, 0), t9);
    var at := Byte(d[6], 3);
    PackIsPacked(at, a3, a2, a1);
    d' := d'[22 := Pack(at, a3, a2, a1)];
  }

  /** A product of two half words, and a difference of two products, fit into 32 bits. */
  lemma ProductFits(a: I16, b: I16)
    ensures -0x3FFF_8000 <= a * b <= 0x4000_0000 && MulLo(a, b) == a * b
  {
    ProductRange(a, b);
    if a >= 0 { Division.Scale(a, b, -0x8000, 0x7FFF); } else if b >= 0 { Division.Scale(b, a, -0x8000, 0x7FFF); }
  }

  // ---- Commands -----------------------------------------------------------------------------------

  /** One component of OP: two MULTs, SUBU, and SRA when sf is set. */
  method Cross(x: I16, b: I16, y: I16, c: I16, sf: bool) returns (a: I32)
    ensures a == Wrap32(Shift(x * b - y * c, sf))
  {
    ProductFits(x, b);
    ProductFits(y, c);
    CrossValue(x * b, y * c, sf);
    a := Subu(MulLo(x, b), MulLo(y, c));
    if sf { a := Sra12(a); }
  }

  lemma CrossValue(p: int, q: int, sf: bool)
    requires -0x3FFF_8000 <= p <= 0x4000_0000 && -0x3FFF_8000 <= q <= 0x4000_0000
    ensures Wrap32(p - q) == p - q && Wrap32(Shift(p - q, sf)) == Shift(p - q, sf)
  {
  }

  /** A product, shifted when sf is set. */
  method Product(x: I16, y: I16, sf: bool) returns (a: I32)
    ensures a == Wrap32(Shift(x * y, sf)) && a == Shift(x * y, sf)
  {
    ProductFits(x, y);
    CrossValue(x * y, 0, sf);
    a := MulLo(x, y);
    if sf { a := Sra12(a); }
  }

  /** OP: a cross product. */
  method InlineOp(s: State, sf: bool, lm: bool) returns (d: File)
    ensures d == Op(s, sf, lm).d
  {
    hide Wrap32, Shift, Lo, SatIr;
    var t8, t9, at := Lo(s.c[0]), Lo(s.c[2]), Lo(s.c[4]);
    var v0, v1, a0 := s.Ir(1), s.Ir(2), s.Ir(3);
    var a1 := Cross(a0, t9, v1, at, sf);
    var a2 := Cross(v0, at, a0, t8, sf);
    var a3 := Cross(v1, t8, v0, t9, sf);
    d := StoreMacs3(s.d, a1, a2, a3);
    d := IrSatStore(d, a1, a2, a3, lm);
  }

  /** SQR: the lower clamp is left out, since squares are not negative. */
  method InlineSqr(s: State, sf: bool, lm: bool) returns (d: File)
    ensures d == Sqr(s, sf, lm).d
  {
    hide Wrap32, Lo, SatIr, Pminw;
    var t8, t9, at := s.Ir(1), s.Ir(2), s.Ir(3);
    var v0 := Product(t8, t8, sf);
    var v1 := Product(t9, t9, sf);
    var a0 := Product(at, at, sf);
    d := StoreMacs3(s.d, v0, v1, a0);
    MinSuffices(t8, v0, sf, lm);
    MinSuffices(t9, v1, sf, lm);
    MinSuffices(at, a0, sf, lm);
    d := d[9 := Pminw(v0, 0x7FFF)][10 := Pminw(v1, 0x7FFF)][11 := Pminw(a0, 0x7FFF)];
  }

  lemma MinSuffices(a: I16, v: I32, sf: bool, lm: bool)
    requires v == Shift(a * a, sf)
    ensures Pminw(v, 0x7FFF) == SatIr(v, lm)
  {
    SquareNotNegative(a, a * a);
  }

  lemma SquareNotNegative(a: int, sq: int)
    requires sq == a * a
    ensures sq >= 0
  {
  }

  /** GPF. */
  method InlineGpf(s: State, sf: bool, lm: bool) returns (d: File)
    ensures d == Gpf(s, sf, lm).d
  {
    hide Wrap32, Shift, Lo, SatIr, PushColor;
    var t8 := s.Ir(0);
    var m1 := Product(s.Ir(1), t8, sf);
    var m2 := Product(s.Ir(2), t8, sf);
    var m3 := Product(s.Ir(3), t8, sf);
    d := StoreMacs3(s.d, m1, m2, m3);
    d := PushColorInline(d, m1, m2, m3);
    d := IrSatStore(d, m1, m2, m3, lm);
    FlagsAside(s, s.Ir(1) * t8, s.Ir(2) * t8, s.Ir(3) * t8, m1, m2, m3, sf, lm);
  }

  /** The colour is pushed before the IR registers are stored; neither touches the other. */
  lemma ColorThenIr(s: State, m1: I32, m2: I32, m3: I32, lm: bool)
    ensures var s1 := s.(d := s.d[25 := m1][26 := m2][27 := m3]);
            PushColor(StoreMacs(s, m1, m2, m3, lm)).d ==
            PushColor(s1).d[9 := SatIr(m1, lm)][10 := SatIr(m2, lm)][11 := SatIr(m3, lm)]
  {
    hide Packed, Byte, SatIr;
  }

  lemma FlagsAside(s: State, p1: int, p2: int, p3: int, m1: I32, m2: I32, m3: I32, sf: bool, lm: bool)
    requires m1 == Wrap32(Shift(p1, sf)) && m2 == Wrap32(Shift(p2, sf)) && m3 == Wrap32(Shift(p3, sf))
    ensures PushColor(StoreMacIr(s, p1, p2, p3, sf, lm)).d ==
            PushColor(s.(d := s.d[25 := m1][26 := m2][27 := m3])).d[9 := SatIr(m1, lm)][10 := SatIr(m2, lm)][11 := SatIr(m3, lm)]
  {
    ColorThenIr(s, m1, m2, m3, lm);
    hide Packed, Byte, SatIr, Wrap32, Shift, MacFlags, IrFlags;
  }

  /** GPL: the products are shifted before the old MAC values are added, where the exact
      command shifts the sums. */
  method InlineGpl(s: State, sf: bool, lm: bool) returns (d: File)
    ensures d == Gpl(s, sf, lm).d
  {
    hide Wrap32, Shift, Lo, SatIr, PushColor, Scale;
    var t8 := s.Ir(0);
    var m1 := ProductPlus(s.Ir(1), t8, s.d[25], sf);
    var m2 := ProductPlus(s.Ir(2), t8, s.d[26], sf);
    var m3 := ProductPlus(s.Ir(3), t8, s.d[27], sf);
    d := StoreMacs3(s.d, m1, m2, m3);
    d := PushColorInline(d, m1, m2, m3);
    d := IrMoveStore(d, m1, m2, m3, lm);
    FlagsAside(s, s.Ir(1) * t8 + Scale(s.d[25], sf), s.Ir(2) * t8 + Scale(s.d[26], sf), s.Ir(3) * t8 + Scale(s.d[27], sf),
               m1, m2, m3, sf, lm);
  }

  method ProductPlus(x: I16, y: I16, mac: I32, sf: bool) returns (a: I32)
    ensures a == Wrap32(Shift(x * y + Scale(mac, sf), sf))
  {
    hide Wrap32;
    a := Product(x, y, sf);
    ShiftThenAdd(x * y, mac, sf);
    a := Addu(a, mac);
  }

  lemma ShiftThenAdd(p: int, mac: I32, sf: bool)
    ensures Wrap32(Shift(p + Scale(mac, sf), sf)) == Wrap32(Shift(p, sf) + mac)
  {
  }

  /** NCLIP: three products accumulated in HI and LO. */
  method InlineNclip(s: State) returns (d: File)
    ensures d == SetMac0(s, NclipValue(s)).d
  {
    hide Wrap32, Lo, Hi;
    var t8, t9, at := Lo(s.d[12]), Lo(s.d[13]), Lo(s.d[14]);
    var a0, a1, a2 := Hi(s.d[12]), Hi(s.d[13]), Hi(s.d[14]);
    DifferenceFits(a1, a2);
    DifferenceFits(a2, a0);
    DifferenceFits(a0, a1);
    var v0, v1 := Subu(a1, a2), Subu(a2, a0);
    var y01 := Subu(a0, a1);
    var hilo := t8 * v0;
    hilo := hilo + t9 * v1;
    hilo := hilo + at * y01;
    d := s.d[24 := Wrap32(hilo)];
  }

  lemma DifferenceFits(a: I16, b: I16)
    ensures Wrap32(a - b) == a - b
  {
  }

  function Factor(s: State, n: nat): I16 { Wrap16(s.c[if n == 3 then 29 else 30]) }

  function Depths(s: State, n: nat): nat { Sum3(s) + if n == 3 then 0 else Unsigned(s.d[16]) }

  /** AVSZ3 or AVSZ4 of the exact unit. */
  function ExactAverage(s: State, n: nat): State { if n == 3 then Avsz3(s) else Avsz4(s) }

  /** What the inlined sequences leave: OTZ is taken from MAC0 after it has wrapped. */
  function InlinedAverage(s: State, n: nat): File {
    s.d[24 := Wrap32(Factor(s, n) * Depths(s, n))][7 := SatSz(Wrap32(Factor(s, n) * Depths(s, n)) / 0x1000)]
  }

  /** AVSZ3. */
  method InlineAvsz3(s: State) returns (d: File)
    ensures d == InlinedAverage(s, 3) && d[24] == Avsz3(s).d[24]
    ensures DataRanges(s.d) && -10922 <= Factor(s, 3) <= 10922 ==> d == Avsz3(s).d
  {
    hide Wrap32, Wrap16, SatSz, Unsigned, DataRanges;
    var t8, t9, at := s.d[17], s.d[18], s.d[19];
    var v0: I32 := Wrap16(s.c[29]);
    t8 := Addu(t8, t9);
    t8 := Addu(t8, at);
    SumWraps(s.d[17], s.d[18], s.d[19], 0);
    ProductWraps(v0, t8, Sum3(s));
    v0 := MulLo(v0, t8);
    d := StoreAverage(s, v0);
    SameMac0(s, 3);
    if DataRanges(s.d) && -10922 <= Factor(s, 3) <= 10922 { AverageAgrees(s, 3, 10922); }
  }

  /** AVSZ4. */
  method InlineAvsz4(s: State) returns (d: File)
    ensures d == InlinedAverage(s, 4) && d[24] == Avsz4(s).d[24]
    ensures DataRanges(s.d) && -8192 <= Factor(s, 4) <= 8192 ==> d == Avsz4(s).d
  {
    hide Wrap32, Wrap16, SatSz, Unsigned, DataRanges;
    var t8, t9, at, v1 := s.d[16], s.d[17], s.d[18], s.d[19];
    var v0: I32 := Wrap16(s.c[30]);
    t8 := Addu(t8, t9);
    t8 := Addu(t8, at);
    t8 := Addu(t8, v1);
    SumWraps(s.d[16], s.d[17], s.d[18], s.d[19]);
    ProductWraps(v0, t8, Depths(s, 4));
    v0 := MulLo(v0, t8);
    d := StoreAverage(s, v0);
    SameMac0(s, 4);
    if DataRanges(s.d) && -8192 <= Factor(s, 4) <= 8192 { AverageAgrees(s, 4, 8192); }
  }

  /** MAC0 and, saturated by PMAXW and PMINW, OTZ. */
  method StoreAverage(s: State, v0: I32) returns (d: File)
    ensures d == s.d[24 := v0][7 := SatSz(v0 / 0x1000)]
  {
    d := s.d[24 := v0];
    var v1 := Pminw(Pmaxw(Sra12(v0), 0), 0xFFFF);
    d := d[7 := v1];
  }

  /** Equal as 32-bit words. */
  predicate Congruent(a: int, b: int) { (a - b) % 0x1_0000_0000 == 0 }

  /** Additions that wrap are congruent to the unsigned sum. */
  lemma SumWraps(a: I32, b: I32, c: I32, e: I32)
    ensures Congruent(Addu(Addu(Addu(a, b), c), e), Unsigned(a) + Unsigned(b) + Unsigned(c) + Unsigned(e))
    ensures Addu(Addu(Addu(a, b), c), 0) == Addu(Addu(a, b), c) && Unsigned(0) == 0
  {
    hide Congruent, Addu, Unsigned;
    UnsignedWraps(a);
    AddWraps(a, Unsigned(a), b);
    AddWraps(Addu(a, b), Unsigned(a) + Unsigned(b), c);
    AddWraps(Addu(Addu(a, b), c), Unsigned(a) + Unsigned(b) + Unsigned(c), e);
    AddZero(Addu(Addu(a, b), c));
  }

  lemma UnsignedWraps(a: I32)
    ensures Congruent(a, Unsigned(a))
  {
  }

  lemma AddWraps(a: I32, x: int, b: I32)
    requires Congruent(a, x)
    ensures Congruent(Addu(a, b), x + Unsigned(b))
  {
  }

  lemma AddZero(a: I32)
    ensures Addu(a, 0) == a && Unsigned(0) == 0
  {
  }

  /** Congruent factors have the same product in 32 bits. */
  lemma ProductWraps(z: int, a: int, b: int)
    requires Congruent(a, b)
    ensures Wrap32(z * a) == Wrap32(z * b)
  {
    var k := (a - b) / 0x1_0000_0000;
    var m := z * k;
    assert z * a - z * b == 0x1_0000_0000 * m by {
      assert a - b == 0x1_0000_0000 * k;
      Times(z, a, b, k);
    }
    WrapsAlike(z * a, z * b, m);
  }

  lemma Times(z: int, a: int, b: int, k: int)
    requires a == b + 0x1_0000_0000 * k
    ensures z * a - z * b == 0x1_0000_0000 * (z * k)
  {
  }

  lemma WrapsAlike(x: int, y: int, m: int)
    requires x - y == 0x1_0000_0000 * m
    ensures Wrap32(x) == Wrap32(y)
  {
  }

  /** MAC0 always agrees. */
  lemma SameMac0(s: State, n: nat)
    requires n == 3 || n == 4
    ensures InlinedAverage(s, n)[24] == ExactAverage(s, n).d[24]
  {
    hide Wrap32, Wrap16, SatSz, Unsigned;
  }

  /** The rest agrees exactly when OTZ does. */
  lemma OtzDecides(s: State, n: nat)
    requires n == 3 || n == 4
    ensures InlinedAverage(s, n) == ExactAverage(s, n).d <==> SameOtz(Factor(s, n), Depths(s, n))
  {
    hide Wrap32, Wrap16, SatSz, Unsigned;
    var a, b := InlinedAverage(s, n), ExactAverage(s, n).d;
    assert a[7] == b[7] <==> SameOtz(Factor(s, n), Depths(s, n));
    assert b == s.d[24 := a[24]][7 := b[7]];
  }

  lemma AverageAgrees(s: State, n: nat, limit: int)
    requires (n == 3 && limit == 10922) || (n == 4 && limit == 8192)
    requires DataRanges(s.d) && -limit <= Factor(s, n) <= limit
    ensures InlinedAverage(s, n) == ExactAverage(s, n).d
  {
    OtzDecides(s, n);
    OtzWithin(Factor(s, n), n, limit, Depths(s, n));
  }

  /** The inlined and the exact average of depths that add up to sum. */
  predicate SameOtz(zsf: int, sum: int) {
    SatSz(Wrap32(zsf * sum) / 0x1000) == SatSz(zsf * sum / 0x1000)
  }

  lemma OtzWithin(zsf: I16, n: nat, limit: int, sum: int)
    requires (n == 3 && limit == 10922) || (n == 4 && limit == 8192)
    requires -limit <= zsf <= limit && 0 <= sum <= n * 0xFFFF
    ensures SameOtz(zsf, sum)
  {
    hide SatSz;
    Division.Scale(sum, zsf, -limit, limit);
    Division.Scale(limit, sum, 0, n * 0xFFFF);
    assert limit * (n * 0xFFFF) < 0x8000_0000;
    assert Wrap32(zsf * sum) == zsf * sum;
  }

  lemma OtzBeyond(zsf: I16, n: nat, limit: int) returns (sum: int)
    requires (n == 3 && limit == 10922) || (n == 4 && limit == 8192)
    requires !(-limit <= zsf <= limit)
    ensures 0 <= sum <= n * 0xFFFF && !SameOtz(zsf, sum)
  {
    var m: int := if zsf < 0 then 0 - zsf else zsf;
    sum := 0x8000_0000 / m + 1;
    OverflowingSum(m, sum, n, limit);
    assert zsf * sum == if zsf < 0 then -(m * sum) else m * sum;
  }

  /** A state with the given factor whose depths add up to sum. */
  lemma StateOf(zsf: I16, n: nat, sum: nat) returns (s: State)
    requires (n == 3 || n == 4) && sum <= n * 0xFFFF
    ensures DataRanges(s.d) && Factor(s, n) == zsf && Depths(s, n) == sum
  {
    var zero: File := seq(32, i => 0);
    var a := if sum < 0xFFFF then sum else 0xFFFF;
    var b := if sum - a < 0xFFFF then sum - a else 0xFFFF;
    var c := if sum - a - b < 0xFFFF then sum - a - b else 0xFFFF;
    s := State(zero[17 := a][18 := b][19 := c][16 := if n == 3 then 0 else sum - a - b - c],
               zero[29 := zsf][30 := zsf], {});
  }

  /** The inlined command leaves the registers of the exact one in every state with depths in
      range exactly when the scale factor is at most `limit` in absolute value: 10922 for
      three depths, 8192 for four. */
  lemma OtzIsExact(zsf: I16, n: nat, limit: int)
    requires (n == 3 && limit == 10922) || (n == 4 && limit == 8192)
    ensures (forall s: State :: DataRanges(s.d) && Factor(s, n) == zsf ==> InlinedAverage(s, n) == ExactAverage(s, n).d)
            <==> -limit <= zsf <= limit
  {
    hide InlinedAverage, ExactAverage, DataRanges, SameOtz, Factor, Depths;
    if -limit <= zsf <= limit {
      forall s: State | DataRanges(s.d) && Factor(s, n) == zsf ensures InlinedAverage(s, n) == ExactAverage(s, n).d {
        AverageAgrees(s, n, limit);
      }
    } else {
      var sum := OtzBeyond(zsf, n, limit);
      var s := StateOf(zsf, n, sum);
      OtzDecides(s, n);
    }
  }

  lemma OverflowingSum(m: int, sum: int, n: nat, limit: int)
    requires (n == 3 && limit == 10922) || (n == 4 && limit == 8192)
    requires limit < m <= 0x8000 && sum == 0x8000_0000 / m + 1
    ensures 0 <= sum <= n * 0xFFFF && 0x8000_0000 < m * sum <= 0x8000_0000 + 0x8000
  {
    var q := 0x8000_0000 / m;
    assert q * m <= 0x8000_0000 < (q + 1) * m;
    assert m * sum == q * m + m;
    Division.CancelStrict(q, n * 0xFFFF, m) by { Division.Scale(n * 0xFFFF, m, limit + 1, m); }
  }
}
