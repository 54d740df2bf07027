/** The geometry engine's registers, saturation and flags, and its commands as functions of
    the register file.  Registers hold signed 32-bit numbers; FLAG is the set of its bits. */
module Gte {
  import opened Arithmetic
  import Division = GteDivide

  // ---- Numbers ---------------------------------------------------------------------------

  type I32 = v: int | -0x8000_0000 <= v < 0x8000_0000

  type I16 = v: int | -0x8000 <= v < 0x8000

  type File = s: seq<I32> | |s| == 32 witness seq(32, _ => 0)

  function Wrap16(v: int): I16 { (v + 0x8000) % 0x1_0000 - 0x8000 }

  function Wrap32(v: int): (r: I32)
    ensures (v - r) % 0x1_0000_0000 == 0
  {
    (v + 0x8000_0000) % 0x1_0000_0000 - 0x8000_0000
  }

  const TOP44 := 0x800_0000_0000

  /** Sign extension from bit 43. */
  function Wrap44(v: int): (r: int)
    ensures -TOP44 <= r < TOP44 && (v - r) % (2 * TOP44) == 0
  {
    (v + TOP44) % (2 * TOP44) - TOP44
  }

  /** Arithmetic right shift by 12 when sf is set. */
  function Shift(v: int, sf: bool): int { if sf then v / 0x1000 else v }

  function Unsigned(v: I32): nat { if v < 0 then v + 0x1_0000_0000 else v }

  function Lo(v: I32): I16 { Wrap16(v) }

  function Hi(v: I32): I16 { v / 0x1_0000 }

  function Byte(v: I32, i: nat): nat
    requires i < 4
  {
    if i == 0 then Unsigned(v) % 0x100
    else if i == 1 then Unsigned(v) / 0x100 % 0x100
    else if i == 2 then Unsigned(v) / 0x1_0000 % 0x100
    else Unsigned(v) / 0x100_0000
  }

  // ---- Saturation and flags ----------------------------------------------------------------

  function Clamp(v: int, lo: int, hi: int): (r: int)
    requires lo <= hi
    ensures lo <= r <= hi && (lo <= v <= hi ==> r == v)
  {
    if v < lo then lo else if v > hi then hi else v
  }

  function Outside(v: int, lo: int, hi: int, bit: int): set<int> {
    if v < lo || v > hi then {bit} else {}
  }

  /** Bits 30-28 for channels 1-3 above 2^43 - 1, bits 27-25 below -2^43. */
  function MacFlags(v: int, n: int): set<int> {
    (if v >= TOP44 then {31 - n} else {}) + (if v < -TOP44 then {28 - n} else {})
  }

  function Mac0Flags(v: int): set<int> {
    (if v > 0x7FFF_FFFF then {16} else {}) + (if v < -0x8000_0000 then {15} else {})
  }

  function IrLow(lm: bool): int { if lm then 0 else -0x8000 }

  function SatIr(v: int, lm: bool): I16 { Clamp(v, IrLow(lm), 0x7FFF) }

  function IrFlags(v: int, n: int, lm: bool): set<int> { Outside(v, IrLow(lm), 0x7FFF, 25 - n) }

  function SatSz(v: int): (r: int)
    ensures 0 <= r <= 0xFFFF
  {
    Clamp(v, 0, 0xFFFF)
  }

  // ---- Registers ------------------------------------------------------------------------------

  /** Data and control registers by number: VXY0.. 0-5, RGBC 6, OTZ 7, IR0-IR3 8-11, SXY 12-15,
      SZ 16-19, RGB 20-22, MAC0-MAC3 24-27; matrices 0-4, 8-12, 16-20, vectors 5, 13, 21, then
      OFX 24, OFY 25, H 26, DQA 27, DQB 28, ZSF3 29, ZSF4 30. */
  datatype State = State(d: File, c: File, flag: set<int>) {
    function Ir(n: nat): I16
      requires n <= 3
    {
      Wrap16(d[8 + n])
    }

    function SetD(r: nat, v: I32): State
      requires r < 32
    {
      this.(d := d[r := v])
    }

    function Raise(bits: set<int>): State { this.(flag := flag + bits) }
  }

  /** MAC1-MAC3 and IR1-IR3 from three accumulators. */
  function StoreMacIr(s: State, m1: int, m2: int, m3: int, sf: bool, lm: bool): State {
    var a1, a2, a3 := Wrap32(Shift(m1, sf)), Wrap32(Shift(m2, sf)), Wrap32(Shift(m3, sf));
    StoreMacs(s, a1, a2, a3, lm).Raise(MacFlags(m1, 1) + MacFlags(m2, 2) + MacFlags(m3, 3))
  }

  function StoreMacs(s: State, a1: I32, a2: I32, a3: I32, lm: bool): State {
    State(s.d[25 := a1][26 := a2][27 := a3][9 := SatIr(a1, lm)][10 := SatIr(a2, lm)][11 := SatIr(a3, lm)], s.c,
          s.flag + IrFlags(a1, 1, lm) + IrFlags(a2, 2, lm) + IrFlags(a3, 3, lm))
  }

  /** The colour FIFO receives MAC1-MAC3 / 16 and the code byte of RGBC. */
  function PushColor(s: State): State {
    var r, g, b := s.d[25] / 16, s.d[26] / 16, s.d[27] / 16;
    State(s.d[20 := s.d[21]][21 := s.d[22]][22 := Packed(Clamp(r, 0, 255), Clamp(g, 0, 255), Clamp(b, 0, 255), Byte(s.d[6], 3))],
          s.c, s.flag + Outside(r, 0, 255, 21) + Outside(g, 0, 255, 20) + Outside(b, 0, 255, 19))
  }

  function Packed(r: int, g: int, b: int, code: int): I32 {
    Wrap32(r + g * 0x100 + b * 0x1_0000 + code * 0x100_0000)
  }

  function PushSz(s: State, v: int): State {
    s.(d := s.d[16 := s.d[17]][17 := s.d[18]][18 := s.d[19]][19 := SatSz(v)]).Raise(Outside(v, 0, 0xFFFF, 18))
  }

  function PushSxy(s: State, x: int, y: int): State {
    var sx, sy := Clamp(x, -0x400, 0x3FF), Clamp(y, -0x400, 0x3FF);
    s.(d := s.d[12 := s.d[13]][13 := s.d[14]][14 := Wrap32(sx % 0x1_0000 + sy * 0x1_0000)])
     .Raise(Outside(x, -0x400, 0x3FF, 14) + Outside(y, -0x400, 0x3FF, 13))
  }

  // ---- The 44-bit accumulator -------------------------------------------------------------------

  /** The exact sum, what the hardware's 44 bits hold, and the overflows seen. */
  datatype Acc = Acc(sum: int, hw: int, flags: set<int>)

  function Begin(t: int, ch: int): Acc { Acc(t, Wrap44(t), MacFlags(t, ch)) }

  function Accumulate(a: Acc, product: int, ch: int): Acc {
    Acc(a.sum + product, Wrap44(a.hw + product), a.flags + MacFlags(a.hw + product, ch))
  }

  /** A translation and three products. */
  function Row(t: I32, p1: int, p2: int, p3: int, ch: int): Acc {
    Accumulate(Accumulate(Accumulate(Begin(t * 0x1000, ch), p1, ch), p2, ch), p3, ch)
  }

  /** The wrapped accumulator is congruent to the exact sum, and without a flag equal to it. */
  ghost predicate Tracks(a: Acc) {
    (a.sum - a.hw) % (2 * TOP44) == 0 && (a.flags == {} ==> a.hw == a.sum)
  }

  lemma BeginTracks(t: int, ch: int)
    ensures Tracks(Begin(t, ch))
  {
  }

  lemma AccumulateTracks(a: Acc, product: int, ch: int)
    requires Tracks(a)
    ensures Tracks(Accumulate(a, product, ch))
  {
    var u := a.hw + product;
    assert a.flags <= Accumulate(a, product, ch).flags;
    assert (a.sum + product - Wrap44(u)) == (a.sum - a.hw) + (u - Wrap44(u));
    AddMultiples(a.sum - a.hw, u - Wrap44(u));
  }

  lemma AddMultiples(a: int, b: int)
    requires a % (2 * TOP44) == 0 && b % (2 * TOP44) == 0
    ensures (a + b) % (2 * TOP44) == 0
  {
  }

  predicate IsProduct(p: int) { -0x4000_0000 <= p <= 0x4000_0000 }

  lemma ProductRange(a: I16, b: I16)
    ensures IsProduct(a * b)
  {
    var m := 0x8000;
    Division.SmallSquare(a, m);
    Division.SmallSquare(b, m);
    assert (a + b) * (a + b) >= 0 && (a - b) * (a - b) >= 0;
  }

  /** In MVMVA and RTPS the exact sum stays far inside 64 bits, the accumulator stays
      congruent to it modulo 2^44, and a channel that raises no flag is exact. */
  lemma RowIsExact(t: I32, p1: int, p2: int, p3: int, ch: int)
    requires IsProduct(p1) && IsProduct(p2) && IsProduct(p3)
    ensures var a := Row(t, p1, p2, p3, ch);
            a.sum == t * 0x1000 + p1 + p2 + p3 && Tracks(a) &&
            -0x8000_0000_0000_0000 <= a.sum < 0x8000_0000_0000_0000
  {
    hide Tracks;
    BeginTracks(t * 0x1000, ch);
    var a0 := Begin(t * 0x1000, ch);
    AccumulateTracks(a0, p1, ch);
    AccumulateTracks(Accumulate(a0, p1, ch), p2, ch);
    AccumulateTracks(Accumulate(Accumulate(a0, p1, ch), p2, ch), p3, ch);
  }

  /** Without a flag in channel 3 the depth pushed by RTPS is the exact sum / 4096, clamped. */
  lemma DepthIsExact(t: I32, p1: int, p2: int, p3: int)
    requires IsProduct(p1) && IsProduct(p2) && IsProduct(p3)
    ensures var a := Row(t, p1, p2, p3, 3);
            a.flags == {} ==> SatSz(Wrap44(a.sum) / 0x1000) == SatSz((t * 0x1000 + p1 + p2 + p3) / 0x1000)
  {
    hide Row;
    RowIsExact(t, p1, p2, p3, 3);
    var a := Row(t, p1, p2, p3, 3);
    if a.flags == {} {
      RowHwRange(t, p1, p2, p3, 3);
      assert Wrap44(a.sum) == a.sum;
    }
  }

  lemma RowHwRange(t: I32, p1: int, p2: int, p3: int, ch: int)
    ensures -TOP44 <= Row(t, p1, p2, p3, ch).hw < TOP44
  {
  }

  // ---- Matrices and vectors -----------------------------------------------------------------------

  /** get_matrix: 0 rotation, 1 light, 2 colour; 3 is what the hardware reads as a fourth. */
  function Matrix(s: State, mx: nat, row: nat, col: nat): I16
    requires row < 3 && col < 3
  {
    if mx >= 3 then Garbage(s, row, col)
    else
      var i := row * 3 + col;
      var w := s.c[8 * mx + i / 2];
      if i % 2 == 1 then Hi(w) else Lo(w)
  }

  function Garbage(s: State, row: nat, col: nat): I16
    requires row < 3 && col < 3
  {
    if row == 0 then
      if col == 0 then -(Byte(s.d[6], 0) * 16) else if col == 1 then Byte(s.d[6], 0) * 16 else s.Ir(0)
    else if row == 1 then Lo(s.c[1])
    else Lo(s.c[2])
  }

  function Vector(s: State, v: nat, i: nat): I16
    requires i < 3
  {
    if v >= 3 then s.Ir(i + 1)
    else if i == 0 then Lo(s.d[2 * v]) else if i == 1 then Hi(s.d[2 * v]) else Wrap16(s.d[2 * v + 1])
  }

  function Translation(s: State, cv: nat, i: nat): I32
    requires i < 3
  {
    if cv >= 3 then 0 else s.c[5 + 8 * cv + i]
  }

  function MatrixRow(s: State, mx: nat, v: nat, cv: nat, i: nat): Acc
    requires i < 3
  {
    Row(Translation(s, cv, i), Matrix(s, mx, i, 0) * Vector(s, v, 0), Matrix(s, mx, i, 1) * Vector(s, v, 1),
        Matrix(s, mx, i, 2) * Vector(s, v, 2), i + 1)
  }

  /** With the far colour (cv = 2) the first product and the translation only leave flags. */
  function FarRow(s: State, mx: nat, v: nat, i: nat): int
    requires i < 3
  {
    Matrix(s, mx, i, 1) * Vector(s, v, 1) + Matrix(s, mx, i, 2) * Vector(s, v, 2)
  }

  function FarFlags(s: State, sf: bool, mx: nat, v: nat, i: nat): set<int>
    requires i < 3
  {
    var b := Translation(s, 2, i) * 0x1000 + Matrix(s, mx, i, 0) * Vector(s, v, 0);
    MacFlags(b, i + 1) + IrFlags(Wrap32(Shift(b, sf)), i + 1, false)
  }

  function Mvmva(s: State, sf: bool, lm: bool, mx: nat, v: nat, cv: nat): State {
    if cv == 2 then
      StoreMacIr(s, FarRow(s, mx, v, 0), FarRow(s, mx, v, 1), FarRow(s, mx, v, 2), sf, lm)
       .Raise(FarFlags(s, sf, mx, v, 0) + FarFlags(s, sf, mx, v, 1) + FarFlags(s, sf, mx, v, 2))
    else
      var a1, a2, a3 := MatrixRow(s, mx, v, cv, 0), MatrixRow(s, mx, v, cv, 1), MatrixRow(s, mx, v, cv, 2);
      StoreMacIr(s, a1.sum, a2.sum, a3.sum, sf, lm).Raise(a1.flags + a2.flags + a3.flags)
  }

  /** Every MVMVA channel of the ordinary kind is a row of three products. */
  lemma MatrixRowIsExact(s: State, mx: nat, v: nat, cv: nat, i: nat)
    requires i < 3
    ensures var a := MatrixRow(s, mx, v, cv, i);
            Tracks(a) && a.sum == Translation(s, cv, i) * 0x1000 + Matrix(s, mx, i, 0) * Vector(s, v, 0) +
                                  Matrix(s, mx, i, 1) * Vector(s, v, 1) + Matrix(s, mx, i, 2) * Vector(s, v, 2)
  {
    hide Matrix, Vector, Translation, Row, Tracks;
    ProductRange(Matrix(s, mx, i, 0), Vector(s, v, 0));
    ProductRange(Matrix(s, mx, i, 1), Vector(s, v, 1));
    ProductRange(Matrix(s, mx, i, 2), Vector(s, v, 2));
    RowIsExact(Translation(s, cv, i), Matrix(s, mx, i, 0) * Vector(s, v, 0), Matrix(s, mx, i, 1) * Vector(s, v, 1),
               Matrix(s, mx, i, 2) * Vector(s, v, 2), i + 1);
  }

  // ---- Perspective ------------------------------------------------------------------------------------

  /** SX, SY or the depth cue: the quotient times a factor, plus an offset. */
  function Project(q: int, factor: I16, offset: I32): int { q * factor + offset }

  function RtpsRow(s: State, v: nat, i: nat): Acc
    requires i < 3
  {
    MatrixRow(s, 0, v, 0, i)
  }

  /** MAC1-MAC3, IR1-IR3 and the depth of RTPS.  The flag of IR3 looks at MAC3 / 4096
      whatever the shift. */
  function RtpsDepth(s: State, v: nat, sf: bool, lm: bool): State {
    var a1, a2, a3 := RtpsRow(s, v, 0), RtpsRow(s, v, 1), RtpsRow(s, v, 2);
    var m1, m2, m3 := Wrap32(Shift(a1.sum, sf)), Wrap32(Shift(a2.sum, sf)), Wrap32(Shift(a3.sum, sf));
    var s1 := s.(d := s.d[25 := m1][26 := m2][27 := m3][9 := SatIr(m1, lm)][10 := SatIr(m2, lm)][11 := SatIr(m3, lm)]);
    PushSz(s1.Raise(a1.flags + a2.flags + a3.flags + IrFlags(m1, 1, lm) + IrFlags(m2, 2, lm) +
                    Outside(a3.sum / 0x1000, -0x8000, 0x7FFF, 22)),
           Wrap44(a3.sum) / 0x1000)
  }

  function Half(v: I32): Division.Half { Unsigned(v) % 0x1_0000 }

  /** The perspective part: divide, push SXY, and for the last vertex the depth cue. */
  function RtpsProject(s: State, last: bool): State {
    var h, sz := Half(s.c[26]), Half(s.d[19]);
    var q := Division.Divided(h, sz);
    var x, y, z := Project(q, s.Ir(1), s.c[24]), Project(q, s.Ir(2), s.c[25]), Project(q, Wrap16(s.c[27]), s.c[28]);
    var s1 := PushSxy(s.Raise((if h >= 2 * sz then {17} else {}) + Mac0Flags(x) + Mac0Flags(y)),
                      Wrap32(x / 0x1_0000), Wrap32(y / 0x1_0000));
    if !last then s1
    else
      s1.(d := s1.d[24 := Wrap32(z)][8 := Clamp(z / 0x1000, 0, 0x1000)])
        .Raise(Mac0Flags(z) + Outside(z / 0x1000, 0, 0x1000, 12))
  }

  function RtpsCore(s: State, v: nat, sf: bool, lm: bool, last: bool): State {
    RtpsProject(RtpsDepth(s, v, sf, lm), last)
  }

  // ---- The other commands ------------------------------------------------------------------------------

  function SetMac0(s: State, v: int): State { s.SetD(24, Wrap32(v)).Raise(Mac0Flags(v)) }

  function NclipValue(s: State): int {
    Lo(s.d[12]) * (Hi(s.d[13]) - Hi(s.d[14])) + Lo(s.d[13]) * (Hi(s.d[14]) - Hi(s.d[12])) +
    Lo(s.d[14]) * (Hi(s.d[12]) - Hi(s.d[13]))
  }

  function Average(s: State, v: int): State {
    SetMac0(s, v).SetD(7, SatSz(v / 0x1000)).Raise(Outside(v / 0x1000, 0, 0xFFFF, 18))
  }

  function Sum3(s: State): int { Unsigned(s.d[17]) + Unsigned(s.d[18]) + Unsigned(s.d[19]) }

  function Avsz3(s: State): State { Average(s, Wrap16(s.c[29]) * Sum3(s)) }

  function Avsz4(s: State): State { Average(s, Wrap16(s.c[30]) * (Unsigned(s.d[16]) + Sum3(s))) }

  function Op(s: State, sf: bool, lm: bool): State {
    var d1, d2, d3 := Lo(s.c[0]), Lo(s.c[2]), Lo(s.c[4]);
    StoreMacIr(s, s.Ir(3) * d2 - s.Ir(2) * d3, s.Ir(1) * d3 - s.Ir(3) * d1, s.Ir(2) * d1 - s.Ir(1) * d2, sf, lm)
  }

  function Sqr(s: State, sf: bool, lm: bool): State {
    StoreMacIr(s, s.Ir(1) * s.Ir(1), s.Ir(2) * s.Ir(2), s.Ir(3) * s.Ir(3), sf, lm)
  }

  function Gpf(s: State, sf: bool, lm: bool): State {
    PushColor(StoreMacIr(s, s.Ir(1) * s.Ir(0), s.Ir(2) * s.Ir(0), s.Ir(3) * s.Ir(0), sf, lm))
  }

  function Scale(v: I32, sf: bool): int { if sf then v * 0x1000 else v }

  function Gpl(s: State, sf: bool, lm: bool): State {
    PushColor(StoreMacIr(s, s.Ir(1) * s.Ir(0) + Scale(s.d[25], sf), s.Ir(2) * s.Ir(0) + Scale(s.d[26], sf),
                         s.Ir(3) * s.Ir(0) + Scale(s.d[27], sf), sf, lm))
  }

  /** Toward the far colour: acc + (FC - acc) * IR0, the difference saturated in between. */
  function Interpolate(s: State, a1: int, a2: int, a3: int, sf: bool, lm: bool): State {
    var d1, d2, d3 := s.c[21] * 0x1000 - a1, s.c[22] * 0x1000 - a2, s.c[23] * 0x1000 - a3;
    var t1, t2, t3 := Wrap32(Shift(d1, sf)), Wrap32(Shift(d2, sf)), Wrap32(Shift(d3, sf));
    StoreMacIr(s, SatIr(t1, false) * s.Ir(0) + a1, SatIr(t2, false) * s.Ir(0) + a2, SatIr(t3, false) * s.Ir(0) + a3, sf, lm)
     .Raise(MacFlags(d1, 1) + MacFlags(d2, 2) + MacFlags(d3, 3) +
            IrFlags(t1, 1, false) + IrFlags(t2, 2, false) + IrFlags(t3, 3, false))
  }

  /** The colour in RGBC times IR1-IR3, in the accumulator's scale. */
  function Tinted(s: State, i: nat): int
    requires i < 3
  {
    Byte(s.d[6], i) * s.Ir(i + 1) * 16
  }

  function Tint(s: State, sf: bool, lm: bool): State {
    PushColor(StoreMacIr(s, Tinted(s, 0), Tinted(s, 1), Tinted(s, 2), sf, lm))
  }

  function TintFar(s: State, sf: bool, lm: bool): State {
    PushColor(Interpolate(s, Tinted(s, 0), Tinted(s, 1), Tinted(s, 2), sf, lm))
  }

  /** The light matrix times a normal, then background plus colour matrix times that. */
  function Lit(s: State, v: nat, sf: bool, lm: bool): State { Mvmva(Mvmva(s, sf, lm, 1, v, 3), sf, lm, 2, 3, 1) }

  function Cue(s: State, rgb: I32, sf: bool, lm: bool): State {
    PushColor(Interpolate(s, Byte(rgb, 0) * 0x1_0000, Byte(rgb, 1) * 0x1_0000, Byte(rgb, 2) * 0x1_0000, sf, lm))
  }

  function Intpl(s: State, sf: bool, lm: bool): State {
    PushColor(Interpolate(s, s.Ir(1) * 0x1000, s.Ir(2) * 0x1000, s.Ir(3) * 0x1000, sf, lm))
  }

  datatype Command = Command(func: int, sf: bool, lm: bool, mx: nat, v: nat, cv: nat)

  function Ncs(s: State, v: nat, sf: bool, lm: bool): State { PushColor(Lit(s, v, sf, lm)) }

  function Nccs(s: State, v: nat, sf: bool, lm: bool): State { Tint(Lit(s, v, sf, lm), sf, lm) }

  function Ncds(s: State, v: nat, sf: bool, lm: bool): State { TintFar(Lit(s, v, sf, lm), sf, lm) }

  function Dpct1(s: State, sf: bool, lm: bool): State { Cue(s, s.d[20], sf, lm) }

  /** What a command does before bit 31 of FLAG is brought up to date. */
  function Perform(s: State, k: Command): State {
    var sf, lm := k.sf, k.lm;
    match k.func
    case 0x01 => RtpsCore(s, 0, sf, lm, true)
    case 0x06 => SetMac0(s, NclipValue(s))
    case 0x0C => Op(s, sf, lm)
    case 0x10 => Cue(s, s.d[6], sf, lm)
    case 0x11 => Intpl(s, sf, lm)
    case 0x12 => Mvmva(s, sf, lm, k.mx, k.v, k.cv)
    case 0x13 => Ncds(s, 0, sf, lm)
    case 0x14 => TintFar(Mvmva(s, sf, lm, 2, 3, 1), sf, lm)
    case 0x16 => Ncds(Ncds(Ncds(s, 0, sf, lm), 1, sf, lm), 2, sf, lm)
    case 0x1B => Nccs(s, 0, sf, lm)
    case 0x1C => Tint(Mvmva(s, sf, lm, 2, 3, 1), sf, lm)
    case 0x1E => Ncs(s, 0, sf, lm)
    case 0x20 => Ncs(Ncs(Ncs(s, 0, sf, lm), 1, sf, lm), 2, sf, lm)
    case 0x28 => Sqr(s, sf, lm)
    case 0x29 => TintFar(s, sf, lm)
    case 0x2A => Dpct1(Dpct1(Dpct1(s, sf, lm), sf, lm), sf, lm)
    case 0x2D => Avsz3(s)
    case 0x2E => Avsz4(s)
    case 0x30 => RtpsCore(RtpsCore(RtpsCore(s, 0, sf, lm, false), 1, sf, lm, false), 2, sf, lm, true)
    case 0x3D => Gpf(s, sf, lm)
    case 0x3E => Gpl(s, sf, lm)
    case 0x3F => Nccs(Nccs(Nccs(s, 0, sf, lm), 1, sf, lm), 2, sf, lm)
    case _ => s
  }

  /** The bits whose OR is bit 31. */
  const ERRORS: set<int> := {30, 29, 28, 27, 26, 25, 24, 23, 18, 17, 16, 15, 14, 13}

  function Summary(flag: set<int>): set<int> { if flag !! ERRORS then flag else flag + {31} }

  /** GTE_Execute. */
  function Execute(s: State, k: Command): State {
    var s1 := Perform(s.(flag := {}), k);
    s1.(flag := Summary(s1.flag))
  }

  // ---- Register writes -------------------------------------------------------------------------------------

  /** Leading bits equal to the sign. */
  function Leading(v: I32): (n: nat)
    ensures n <= 32
  {
    if v == 0 || v == -1 then 32 else Zeros(if v < 0 then -(v + 1) else v, 32)
  }

  function Zeros(v: nat, limit: nat): (n: nat)
    ensures n <= limit
    decreases limit
  {
    if v >= 0x8000_0000 || limit == 0 then 0 else 1 + Zeros(2 * v, limit - 1)
  }

  function Five(v: I32, i: nat): I16
    requires i < 3
  {
    (if i == 0 then Unsigned(v) else if i == 1 then Unsigned(v) / 0x20 else Unsigned(v) / 0x400) % 0x20 * 0x80
  }

  /** GTE_WriteData. */
  function WriteData(s: State, reg: nat, v: I32): State
    requires reg < 32
  {
    if reg == 1 || reg == 3 || reg == 5 || 8 <= reg <= 11 then s.SetD(reg, Wrap16(v))
    else if reg == 7 || 16 <= reg <= 19 then s.SetD(reg, Unsigned(v) % 0x1_0000)
    else if reg == 15 then s.(d := s.d[12 := s.d[13]][13 := s.d[14]][14 := v][15 := v])
    else if reg == 28 then s.(d := s.d[9 := Five(v, 0)][10 := Five(v, 1)][11 := Five(v, 2)])
    else if reg == 30 then s.(d := s.d[30 := v][31 := Leading(v)])
    else if reg == 29 || reg == 31 then s
    else s.SetD(reg, v)
  }

  function BitsOf(v: I32): set<int> {
    set i | 12 <= i <= 30 && Unsigned(v) / Pow2(i) % 2 == 1
  }

  /** GTE_WriteCtrl. */
  function WriteCtrl(s: State, reg: nat, v: I32): State
    requires reg < 32
  {
    if reg == 31 then s.(flag := Summary(BitsOf(v)))
    else if reg in {4, 12, 20, 26, 27, 29, 30} then s.(c := s.c[reg := Wrap16(v)])
    else s.(c := s.c[reg := v])
  }

  // ---- Register ranges ---------------------------------------------------------------------------------------

  predicate IsI16(v: int) { -0x8000 <= v < 0x8000 }

  predicate IsU16(v: int) { 0 <= v <= 0xFFFF }

  /** IR0-IR3 and the vectors' Z are sign-extended 16-bit values, SZ0-SZ3 and OTZ unsigned ones. */
  ghost predicate DataRanges(d: File) {
    IsI16(d[8]) && IsI16(d[9]) && IsI16(d[10]) && IsI16(d[11]) && IsI16(d[1]) && IsI16(d[3]) && IsI16(d[5]) &&
    IsU16(d[7]) && IsU16(d[16]) && IsU16(d[17]) && IsU16(d[18]) && IsU16(d[19])
  }

  const FLAG_BITS: set<int> := {12, 13, 14, 15, 16, 17, 18, 19, 20, 21, 22, 23, 24, 25, 26, 27, 28, 29, 30}

  /** In the middle of a command. */
  ghost predicate Midway(s: State) { DataRanges(s.d) && s.flag <= FLAG_BITS }

  /** Bits 0-11 of FLAG are clear, and bit 31 is the OR of bits 30-23 and 18-13. */
  ghost predicate Ranges(s: State) {
    DataRanges(s.d) && s.flag <= FLAG_BITS + {31} && (31 in s.flag <==> exists b :: b in s.flag && b in ERRORS)
  }

  lemma SummaryInRange(flag: set<int>, d: File, c: File)
    requires Midway(State(d, c, flag))
    ensures Ranges(State(d, c, Summary(flag)))
  {
    assert 31 !in flag;
    if exists b :: b in flag && b in ERRORS {
      var b :| b in flag && b in ERRORS;
      assert b in Summary(flag);
    } else {
      assert flag !! ERRORS;
    }
  }

  lemma RaiseMidway(s: State, bits: set<int>)
    requires Midway(s) && bits <= FLAG_BITS
    ensures Midway(s.Raise(bits))
  {
  }

  lemma StoreMidway(s: State, m1: int, m2: int, m3: int, sf: bool, lm: bool)
    requires Midway(s)
    ensures Midway(StoreMacIr(s, m1, m2, m3, sf, lm))
  {
    hide SatIr, Shift, Wrap32;
  }

  lemma ColorMidway(s: State)
    requires Midway(s)
    ensures Midway(PushColor(s))
  {
    hide Packed, Byte, Clamp;
  }

  lemma InterpolateMidway(s: State, a1: int, a2: int, a3: int, sf: bool, lm: bool)
    requires Midway(s)
    ensures Midway(Interpolate(s, a1, a2, a3, sf, lm))
  {
    hide Midway, StoreMacIr, MacFlags, IrFlags, SatIr, Shift;
    ChannelFlags();
    forall m1, m2, m3 ensures Midway(StoreMacIr(s, m1, m2, m3, sf, lm)) { StoreMidway(s, m1, m2, m3, sf, lm); }
    forall s1, bits | Midway(s1) && bits <= FLAG_BITS ensures Midway(s1.Raise(bits)) { RaiseMidway(s1, bits); }
  }

  lemma ChannelFlags()
    ensures forall v: int, n | 1 <= n <= 3 :: MacFlags(v, n) <= FLAG_BITS
    ensures forall v: int, n, lm | 1 <= n <= 3 :: IrFlags(v, n, lm) <= FLAG_BITS
  {
  }

  lemma RowFlags(t: I32, p1: int, p2: int, p3: int, ch: int)
    requires 1 <= ch <= 3
    ensures Row(t, p1, p2, p3, ch).flags <= FLAG_BITS
  {
    hide MacFlags;
    ChannelFlags();
  }

  lemma MvmvaMidway(s: State, sf: bool, lm: bool, mx: nat, v: nat, cv: nat)
    requires Midway(s)
    ensures Midway(Mvmva(s, sf, lm, mx, v, cv))
  {
    hide Midway, StoreMacIr, MacFlags, IrFlags, Row, Matrix, Vector, Translation;
    ChannelFlags();
    forall t: I32, p1, p2, p3, ch | 1 <= ch <= 3 ensures Row(t, p1, p2, p3, ch).flags <= FLAG_BITS {
      RowFlags(t, p1, p2, p3, ch);
    }
    forall m1, m2, m3 ensures Midway(StoreMacIr(s, m1, m2, m3, sf, lm)) { StoreMidway(s, m1, m2, m3, sf, lm); }
    forall s1, bits | Midway(s1) && bits <= FLAG_BITS ensures Midway(s1.Raise(bits)) { RaiseMidway(s1, bits); }
  }

  lemma DepthMidway(s: State, v: nat, sf: bool, lm: bool)
    requires Midway(s)
    ensures Midway(RtpsDepth(s, v, sf, lm))
  {
    hide MacFlags, IrFlags, Row, Matrix, Vector, Translation, Shift, SatIr, Wrap44;
    ChannelFlags();
    forall t: I32, p1, p2, p3, ch | 1 <= ch <= 3 ensures Row(t, p1, p2, p3, ch).flags <= FLAG_BITS {
      RowFlags(t, p1, p2, p3, ch);
    }
  }

  lemma ProjectMidway(s: State, last: bool)
    requires Midway(s)
    ensures Midway(RtpsProject(s, last))
  {
    hide Project, Half;
  }

  // ---- Whole commands and whole runs ---------------------------------------------------------------------------

  lemma CoreMidway(s: State, v: nat, sf: bool, lm: bool, last: bool)
    requires Midway(s)
    ensures Midway(RtpsCore(s, v, sf, lm, last))
  {
    hide Midway, RtpsDepth, RtpsProject;
    DepthMidway(s, v, sf, lm);
    ProjectMidway(RtpsDepth(s, v, sf, lm), last);
  }

  lemma LitMidway(s: State, v: nat, sf: bool, lm: bool)
    requires Midway(s)
    ensures Midway(Lit(s, v, sf, lm)) && Midway(Ncs(s, v, sf, lm))
    ensures Midway(Nccs(s, v, sf, lm)) && Midway(Ncds(s, v, sf, lm))
  {
    hide Midway, Mvmva, PushColor, Tint, TintFar;
    MvmvaMidway(s, sf, lm, 1, v, 3);
    MvmvaMidway(Mvmva(s, sf, lm, 1, v, 3), sf, lm, 2, 3, 1);
    ColorMidway(Lit(s, v, sf, lm));
    TintMidway(Lit(s, v, sf, lm), sf, lm);
  }

  lemma TintMidway(s: State, sf: bool, lm: bool)
    requires Midway(s)
    ensures Midway(Tint(s, sf, lm)) && Midway(TintFar(s, sf, lm))
  {
    hide Midway, StoreMacIr, PushColor, Interpolate, Tinted;
    StoreMidway(s, Tinted(s, 0), Tinted(s, 1), Tinted(s, 2), sf, lm);
    ColorMidway(StoreMacIr(s, Tinted(s, 0), Tinted(s, 1), Tinted(s, 2), sf, lm));
    InterpolateMidway(s, Tinted(s, 0), Tinted(s, 1), Tinted(s, 2), sf, lm);
    ColorMidway(Interpolate(s, Tinted(s, 0), Tinted(s, 1), Tinted(s, 2), sf, lm));
  }

  lemma CueMidway(s: State, rgb: I32, sf: bool, lm: bool)
    requires Midway(s)
    ensures Midway(Cue(s, rgb, sf, lm)) && Midway(Intpl(s, sf, lm))
  {
    hide Midway, PushColor, Interpolate, Byte;
    forall a1, a2, a3 ensures Midway(PushColor(Interpolate(s, a1, a2, a3, sf, lm))) {
      InterpolateMidway(s, a1, a2, a3, sf, lm);
      ColorMidway(Interpolate(s, a1, a2, a3, sf, lm));
    }
  }

  lemma MacMidway(s: State, sf: bool, lm: bool)
    requires Midway(s)
    ensures Midway(Op(s, sf, lm)) && Midway(Sqr(s, sf, lm)) && Midway(Gpf(s, sf, lm)) && Midway(Gpl(s, sf, lm))
  {
    hide Midway, StoreMacIr, PushColor;
    forall m1, m2, m3 ensures Midway(StoreMacIr(s, m1, m2, m3, sf, lm)) && Midway(PushColor(StoreMacIr(s, m1, m2, m3, sf, lm))) {
      StoreMidway(s, m1, m2, m3, sf, lm);
      ColorMidway(StoreMacIr(s, m1, m2, m3, sf, lm));
    }
  }

  lemma AverageMidway(s: State, v: int)
    requires Midway(s)
    ensures Midway(SetMac0(s, v)) && Midway(Average(s, v))
  {
    hide Wrap32;
  }

  lemma PerformMidway(s: State, k: Command)
    requires Midway(s)
    ensures Midway(Perform(s, k))
  {
    hide Midway, RtpsCore, Op, Sqr, Gpf, Gpl, Mvmva, Tint, TintFar, Ncs, Nccs, Ncds, Cue, Intpl, SetMac0, Average, NclipValue, Sum3;
    var sf, lm := k.sf, k.lm;
    forall t, v, last | Midway(t) ensures Midway(RtpsCore(t, v, sf, lm, last)) { CoreMidway(t, v, sf, lm, last); }
    forall t, v | Midway(t) ensures Midway(Ncs(t, v, sf, lm)) { LitMidway(t, v, sf, lm); }
    forall t, v | Midway(t) ensures Midway(Nccs(t, v, sf, lm)) { LitMidway(t, v, sf, lm); }
    forall t, v | Midway(t) ensures Midway(Ncds(t, v, sf, lm)) { LitMidway(t, v, sf, lm); }
    forall t, rgb: I32 | Midway(t) ensures Midway(Cue(t, rgb, sf, lm)) { CueMidway(t, rgb, sf, lm); }
    forall t, mx, v, cv | Midway(t) ensures Midway(Mvmva(t, sf, lm, mx, v, cv)) { MvmvaMidway(t, sf, lm, mx, v, cv); }
    forall t | Midway(t) ensures Midway(Tint(t, sf, lm)) && Midway(TintFar(t, sf, lm)) { TintMidway(t, sf, lm); }
    MacMidway(s, sf, lm);
    CueMidway(s, 0, sf, lm);
    AverageMidway(s, NclipValue(s));
    AverageMidway(s, Wrap16(s.c[29]) * Sum3(s));
    AverageMidway(s, Wrap16(s.c[30]) * (Unsigned(s.d[16]) + Sum3(s)));
  }

  datatype Action = DataWrite(reg: nat, v: I32) | CtrlWrite(reg: nat, v: I32) | Run(k: Command)

  function Apply(s: State, a: Action): State {
    match a
    case DataWrite(reg, v) => WriteData(s, reg % 32, v)
    case CtrlWrite(reg, v) => WriteCtrl(s, reg % 32, v)
    case Run(k) => Execute(s, k)
  }

  lemma ApplyKeepsRanges(s: State, a: Action)
    requires Ranges(s)
    ensures Ranges(Apply(s, a))
  {
    match a
    case DataWrite(reg, v) => WriteKeepsRanges(s, reg % 32, v);
    case CtrlWrite(reg, v) => SummaryInRange(BitsOf(v), s.d, s.c) by { BitsInRange(v); }
    case Run(k) =>
      hide Perform;
      var s0 := s.(flag := {});
      PerformMidway(s0, k);
      SummaryInRange(Perform(s0, k).flag, Perform(s0, k).d, Perform(s0, k).c);
  }

  lemma BitsInRange(v: I32)
    ensures BitsOf(v) <= FLAG_BITS
  {
    forall i | i in BitsOf(v) ensures i in FLAG_BITS { assert 12 <= i <= 30; }
  }

  lemma WriteKeepsRanges(s: State, reg: nat, v: I32)
    requires reg < 32 && Ranges(s)
    ensures Ranges(WriteData(s, reg, v))
  {
    hide Leading;
  }

  function RunAll(s: State, actions: seq<Action>): State {
    if actions == [] then s else Apply(RunAll(s, actions[..|actions| - 1]), actions[|actions| - 1])
  }

  const RESET := State(seq(32, _ => 0), seq(32, _ => 0), {})

  /** From reset, whatever is written and executed, the registers stay in range. */
  lemma {:induction false} RangesAlways(actions: seq<Action>)
    ensures Ranges(RunAll(RESET, actions))
  {
    hide Ranges, Apply;
    if actions == [] {
      ResetInRange();
    } else {
      RangesAlways(actions[..|actions| - 1]);
      ApplyKeepsRanges(RunAll(RESET, actions[..|actions| - 1]), actions[|actions| - 1]);
    }
  }

  lemma ResetInRange()
    ensures Ranges(RESET)
  {
  }
}
