/** The commands of the geometry engine in terms of register numbers and exact arithmetic,
    apart from the functions that both the engine and its specification are made of.  The laws
    of whole commands are about runs that leave FLAG empty: nothing was saturated. */
module GteLaws {
  import opened Gte
  import opened Arithmetic
  import Division = GteDivide

  // ---- Fields -------------------------------------------------------------------------

  /** The two halves of a register are signed. */
  lemma HalvesAre(w: I32)
    ensures (w - Lo(w)) % 0x1_0000 == 0 && w - 0x1_0000 * Hi(w) == if Lo(w) < 0 then Lo(w) + 0x1_0000 else Lo(w)
  {
  }

  lemma BytesAre(w: I32)
    ensures (if w < 0 then w + 0x1_0000_0000 else w) ==
            Byte(w, 0) + 0x100 * Byte(w, 1) + 0x1_0000 * Byte(w, 2) + 0x100_0000 * Byte(w, 3)
    ensures forall i :: 0 <= i < 4 ==> Byte(w, i) < 0x100
  {
    BytesOf(Unsigned(w), Unsigned(w) / 0x100, Unsigned(w) / 0x1_0000);
  }

  lemma BytesOf(u: nat, x: nat, y: nat)
    requires u < 0x1_0000_0000 && x == u / 0x100 && y == u / 0x1_0000
    ensures u == u % 0x100 + 0x100 * (x % 0x100) + 0x1_0000 * (y % 0x100) + 0x100_0000 * (u / 0x100_0000)
    ensures u / 0x100_0000 < 0x100
  {
    assert y == x / 0x100 && u / 0x100_0000 == y / 0x100;
  }

  /** m is a sum in MAC: a 4096th of it, rounded down, or its low 32 bits. */
  predicate IsMac(m: int, sum: int, sf: bool) {
    if sf then 0x1000 * m <= sum < 0x1000 * m + 0x1000 else (sum - m) % 0x1_0000_0000 == 0
  }

  /** v, or the end of the range that it is beyond. */
  function Limited(v: int, lo: int, hi: int): int { if v < lo then lo else if v > hi then hi else v }

  // ---- Stages -----------------------------------------------------------------------------

  lemma MacIs(sum: int, sf: bool)
    requires sf ==> -TOP44 <= sum < TOP44
    ensures IsMac(Wrap32(Shift(sum, sf)), sum, sf)
  {
  }

  /** The bit is up if it was before or the condition holds. */
  predicate Gains(before: set<int>, after: set<int>, bit: int, cond: bool) {
    bit in after <==> bit in before || cond
  }

  /** MAC1-MAC3 and IR1-IR3. */
  lemma StoreLaw(s: State, m1: int, m2: int, m3: int, sf: bool, lm: bool)
    requires sf ==> -TOP44 <= m1 < TOP44 && -TOP44 <= m2 < TOP44 && -TOP44 <= m3 < TOP44
    ensures var t := StoreMacIr(s, m1, m2, m3, sf, lm);
            var low := if lm then 0 else -0x8000;
            IsMac(t.d[25], m1, sf) && IsMac(t.d[26], m2, sf) && IsMac(t.d[27], m3, sf) &&
            t.d[9] == Limited(t.d[25], low, 0x7FFF) && t.d[10] == Limited(t.d[26], low, 0x7FFF) &&
            t.d[11] == Limited(t.d[27], low, 0x7FFF) && t.c == s.c &&
            forall r :: 0 <= r < 32 && r !in {9, 10, 11, 25, 26, 27} ==> t.d[r] == s.d[r]
  {
    MacIs(m1, sf);
    MacIs(m2, sf);
    MacIs(m3, sf);
    hide IsMac, Wrap32, Shift, IrFlags, MacFlags;
  }

  /** Its flags: 30 to 28 for sums of 2^43 and above, 27 to 25 for sums below -2^43, 24 to 22
      where IR differs from MAC. */
  lemma StoreFlags(s: State, m1: int, m2: int, m3: int, sf: bool, lm: bool)
    ensures var t := StoreMacIr(s, m1, m2, m3, sf, lm);
            Gains(s.flag, t.flag, 30, m1 >= TOP44) && Gains(s.flag, t.flag, 27, m1 < -TOP44) &&
            Gains(s.flag, t.flag, 29, m2 >= TOP44) && Gains(s.flag, t.flag, 26, m2 < -TOP44) &&
            Gains(s.flag, t.flag, 28, m3 >= TOP44) && Gains(s.flag, t.flag, 25, m3 < -TOP44) &&
            Gains(s.flag, t.flag, 24, t.d[9] != t.d[25]) && Gains(s.flag, t.flag, 23, t.d[10] != t.d[26]) &&
            Gains(s.flag, t.flag, 22, t.d[11] != t.d[27]) &&
            forall bit :: bit !in {22, 23, 24, 25, 26, 27, 28, 29, 30} ==> Gains(s.flag, t.flag, bit, false)
  {
    hide Wrap32, Shift, MacFlags, IrFlags, SatIr;
    MacFlagsAre(m1, 1);
    MacFlagsAre(m2, 2);
    MacFlagsAre(m3, 3);
    IrFlagsAre(Wrap32(Shift(m1, sf)), 1, lm);
    IrFlagsAre(Wrap32(Shift(m2, sf)), 2, lm);
    IrFlagsAre(Wrap32(Shift(m3, sf)), 3, lm);
  }

  lemma MacFlagsAre(v: int, n: int)
    ensures forall bit :: bit in MacFlags(v, n) <==> (bit == 31 - n && v >= TOP44) || (bit == 28 - n && v < -TOP44)
  {
  }

  lemma IrFlagsAre(v: int, n: int, lm: bool)
    ensures forall bit :: bit in IrFlags(v, n, lm) <==> bit == 25 - n && SatIr(v, lm) != v
  {
  }

  /** The colour FIFO moves up; the new colour is MAC1-MAC3 / 16 limited to a byte, with the
      code of RGBC above it; flags 21 to 19 say where the limit made a difference. */
  lemma ColorLaw(s: State)
    ensures var t := PushColor(s);
            t.d[20] == s.d[21] && t.d[21] == s.d[22] && Byte(t.d[22], 3) == Byte(s.d[6], 3) &&
            Byte(t.d[22], 0) == Limited(s.d[25] / 16, 0, 255) && Byte(t.d[22], 1) == Limited(s.d[26] / 16, 0, 255) &&
            Byte(t.d[22], 2) == Limited(s.d[27] / 16, 0, 255) && t.c == s.c &&
            (forall r :: 0 <= r < 32 && r !in {20, 21, 22} ==> t.d[r] == s.d[r]) &&
            Gains(s.flag, t.flag, 21, !(0 <= s.d[25] / 16 <= 255)) && Gains(s.flag, t.flag, 20, !(0 <= s.d[26] / 16 <= 255)) &&
            Gains(s.flag, t.flag, 19, !(0 <= s.d[27] / 16 <= 255)) &&
            forall bit :: bit !in {19, 20, 21} ==> Gains(s.flag, t.flag, bit, false)
  {
    BytesAre(s.d[6]);
    hide Packed, Byte;
    assert Byte(s.d[6], 3) < 0x100;
    PackedBytes(Limited(s.d[25] / 16, 0, 255), Limited(s.d[26] / 16, 0, 255), Limited(s.d[27] / 16, 0, 255), Byte(s.d[6], 3));
  }

  lemma PackedBytes(r: int, g: int, b: int, code: int)
    requires 0 <= r < 0x100 && 0 <= g < 0x100 && 0 <= b < 0x100 && 0 <= code < 0x100
    ensures var w := Packed(r, g, b, code);
            Byte(w, 0) == r && Byte(w, 1) == g && Byte(w, 2) == b && Byte(w, 3) == code
  {
    var x := r + g * 0x100 + b * 0x1_0000 + code * 0x100_0000;
    UnsignedWrap(x);
    assert x / 0x100 == g + b * 0x100 + code * 0x1_0000;
    assert x / 0x1_0000 == b + code * 0x100;
  }

  lemma UnsignedWrap(x: int)
    requires 0 <= x < 0x1_0000_0000
    ensures Unsigned(Wrap32(x)) == x
  {
  }

  /** The depth FIFO moves up. */
  lemma DepthLaw(s: State, v: int)
    ensures var t := PushSz(s, v);
            t.d[16] == s.d[17] && t.d[17] == s.d[18] && t.d[18] == s.d[19] && t.d[19] == Limited(v, 0, 0xFFFF) &&
            t.c == s.c && (forall r :: 0 <= r < 32 && r !in {16, 17, 18, 19} ==> t.d[r] == s.d[r]) &&
            Gains(s.flag, t.flag, 18, !(0 <= v <= 0xFFFF)) && forall bit :: bit != 18 ==> Gains(s.flag, t.flag, bit, false)
  {
  }

  /** The screen FIFO moves up; the new position is limited to eleven signed bits. */
  lemma ScreenLaw(s: State, x: int, y: int)
    ensures var t := PushSxy(s, x, y);
            t.d[12] == s.d[13] && t.d[13] == s.d[14] &&
            Lo(t.d[14]) == Limited(x, -1024, 1023) && Hi(t.d[14]) == Limited(y, -1024, 1023) &&
            t.c == s.c && (forall r :: 0 <= r < 32 && r !in {12, 13, 14} ==> t.d[r] == s.d[r]) &&
            Gains(s.flag, t.flag, 14, !(-1024 <= x <= 1023)) && Gains(s.flag, t.flag, 13, !(-1024 <= y <= 1023)) &&
            forall bit :: bit !in {13, 14} ==> Gains(s.flag, t.flag, bit, false)
  {
    hide Lo, Hi, Wrap32;
    PairHalves(Limited(x, -1024, 1023), Limited(y, -1024, 1023));
  }

  lemma PairHalves(x: int, y: int)
    requires -0x8000 <= x < 0x8000 && -0x8000 <= y < 0x8000
    ensures Lo(Wrap32(x % 0x1_0000 + y * 0x1_0000)) == x && Hi(Wrap32(x % 0x1_0000 + y * 0x1_0000)) == y
  {
    var w := x % 0x1_0000 + y * 0x1_0000;
    assert Wrap32(w) == w;
    assert x % 0x1_0000 == if x < 0 then x + 0x1_0000 else x;
  }

  // ---- Operands by register ------------------------------------------------------------------

  type Triple = s: seq<int> | |s| == 3 witness [0, 0, 0]

  function Dot(m: Triple, v: Triple): int { m[0] * v[0] + m[1] * v[1] + m[2] * v[2] }

  /** Rotation, light and colour matrix; 3 is what the hardware reads as a fourth. */
  function Entries(s: State, mx: nat): (m: seq<Triple>)
    ensures |m| == 3
  {
    var c := s.c;
    if mx == 0 then [[Lo(c[0]), Hi(c[0]), Lo(c[1])], [Hi(c[1]), Lo(c[2]), Hi(c[2])], [Lo(c[3]), Hi(c[3]), Lo(c[4])]]
    else if mx == 1 then
      [[Lo(c[8]), Hi(c[8]), Lo(c[9])], [Hi(c[9]), Lo(c[10]), Hi(c[10])], [Lo(c[11]), Hi(c[11]), Lo(c[12])]]
    else if mx == 2 then
      [[Lo(c[16]), Hi(c[16]), Lo(c[17])], [Hi(c[17]), Lo(c[18]), Hi(c[18])], [Lo(c[19]), Hi(c[19]), Lo(c[20])]]
    else
      [[-16 * Byte(s.d[6], 0), 16 * Byte(s.d[6], 0), s.d[8]], [Lo(c[1]), Lo(c[1]), Lo(c[1])], [Lo(c[2]), Lo(c[2]), Lo(c[2])]]
  }

  /** V0 to V2, and IR1-IR3. */
  function Operand(s: State, v: nat): Triple {
    if v == 0 then [Lo(s.d[0]), Hi(s.d[0]), s.d[1]]
    else if v == 1 then [Lo(s.d[2]), Hi(s.d[2]), s.d[3]]
    else if v == 2 then [Lo(s.d[4]), Hi(s.d[4]), s.d[5]]
    else [s.d[9], s.d[10], s.d[11]]
  }

  /** Translation, background and far colour, and none. */
  function Offset(s: State, cv: nat): Triple {
    if cv == 0 then [s.c[5], s.c[6], s.c[7]]
    else if cv == 1 then [s.c[13], s.c[14], s.c[15]]
    else if cv == 2 then [s.c[21], s.c[22], s.c[23]]
    else [0, 0, 0]
  }

  function SumOf(s: State, mx: nat, v: nat, cv: nat, i: nat): int
    requires i < 3
  {
    0x1000 * Offset(s, cv)[i] + Dot(Entries(s, mx)[i], Operand(s, v))
  }

  /** The vectors' third entries and the intermediate registers hold 16-bit numbers. */
  predicate Halves(d: File) {
    IsI16(d[1]) && IsI16(d[3]) && IsI16(d[5]) && IsI16(d[8]) && IsI16(d[9]) && IsI16(d[10]) && IsI16(d[11])
  }

  lemma Wrap16Is(v: int)
    requires IsI16(v)
    ensures Wrap16(v) == v
  {
  }

  lemma MatrixIs(s: State, mx: nat, i: nat)
    requires i < 3 && Halves(s.d)
    ensures Entries(s, mx)[i] == [Matrix(s, mx, i, 0), Matrix(s, mx, i, 1), Matrix(s, mx, i, 2)]
  {
    Wrap16Is(s.d[8]);
    hide Lo, Hi, Byte, Wrap16;
  }

  lemma VectorIs(s: State, v: nat)
    requires Halves(s.d)
    ensures Operand(s, v) == [Vector(s, v, 0), Vector(s, v, 1), Vector(s, v, 2)]
  {
    Wrap16Is(s.d[1]);
    Wrap16Is(s.d[3]);
    Wrap16Is(s.d[5]);
    Wrap16Is(s.d[9]);
    Wrap16Is(s.d[10]);
    Wrap16Is(s.d[11]);
    hide Lo, Hi, Wrap16;
  }

  lemma OffsetIs(s: State, cv: nat, i: nat)
    requires i < 3
    ensures Translation(s, cv, i) == Offset(s, cv)[i]
  {
  }

  /** A channel without a flag has the exact sum, and that fits 44 bits. */
  lemma RowLaw(s: State, mx: nat, v: nat, cv: nat, i: nat)
    requires i < 3 && Halves(s.d)
    ensures MatrixRow(s, mx, v, cv, i).sum == SumOf(s, mx, v, cv, i)
    ensures MatrixRow(s, mx, v, cv, i).flags == {} ==> -TOP44 <= SumOf(s, mx, v, cv, i) < TOP44
  {
    MatrixIs(s, mx, i);
    VectorIs(s, v);
    OffsetIs(s, cv, i);
    MatrixRowIsExact(s, mx, v, cv, i);
    hide Matrix, Vector, Translation, Row;
    RowHwRange(Translation(s, cv, i), Matrix(s, mx, i, 0) * Vector(s, v, 0), Matrix(s, mx, i, 1) * Vector(s, v, 1),
               Matrix(s, mx, i, 2) * Vector(s, v, 2), i + 1);
  }

  // ---- Stages without flags ---------------------------------------------------------------------

  /** m is in MAC1-MAC3 and in IR1-IR3. */
  predicate InIr(d: File, m: Triple, lm: bool) {
    d[25] == d[9] == m[0] && d[26] == d[10] == m[1] && d[27] == d[11] == m[2] && Small(m, lm)
  }

  predicate Small(m: Triple, lm: bool) {
    IsI16(m[0]) && IsI16(m[1]) && IsI16(m[2]) && (lm ==> m[0] >= 0 && m[1] >= 0 && m[2] >= 0)
  }

  predicate AreMacs(m: Triple, sums: Triple, sf: bool) {
    IsMac(m[0], sums[0], sf) && IsMac(m[1], sums[1], sf) && IsMac(m[2], sums[2], sf)
  }

  /** From s to t only the registers named have changed. */
  predicate Only(s: State, t: State, regs: set<int>) {
    t.c == s.c && forall r :: 0 <= r < 32 && r !in regs ==> t.d[r] == s.d[r]
  }

  lemma FlagsStay(s: State, m1: int, m2: int, m3: int, sf: bool, lm: bool)
    ensures s.flag <= StoreMacIr(s, m1, m2, m3, sf, lm).flag && s.flag <= PushColor(s).flag
  {
    hide MacFlags, IrFlags, Outside;
  }

  lemma QuietStore(s: State, x: Triple, sf: bool, lm: bool) returns (m: Triple)
    requires StoreMacIr(s, x[0], x[1], x[2], sf, lm).flag == {}
    ensures var t := StoreMacIr(s, x[0], x[1], x[2], sf, lm);
            s.flag == {} && AreMacs(m, x, sf) && InIr(t.d, m, lm) && Only(s, t, {9, 10, 11, 25, 26, 27})
  {
    hide StoreMacIr, IsMac;
    var t := StoreMacIr(s, x[0], x[1], x[2], sf, lm);
    StoreFlags(s, x[0], x[1], x[2], sf, lm);
    FlagsStay(s, x[0], x[1], x[2], sf, lm);
    assert 24 !in t.flag && 23 !in t.flag && 22 !in t.flag;
    assert 30 !in t.flag && 29 !in t.flag && 28 !in t.flag && 27 !in t.flag && 26 !in t.flag && 25 !in t.flag;
    StoreLaw(s, x[0], x[1], x[2], sf, lm);
    m := [t.d[25], t.d[26], t.d[27]];
  }

  /** w is the colour of m, with the code of RGBC. */
  predicate IsColor(w: I32, m: Triple, code: int) {
    Byte(w, 0) == m[0] / 16 && Byte(w, 1) == m[1] / 16 && Byte(w, 2) == m[2] / 16 && Byte(w, 3) == code
  }

  lemma QuietColor(s: State)
    requires PushColor(s).flag == {}
    ensures var t := PushColor(s);
            s.flag == {} && t.d[20] == s.d[21] && t.d[21] == s.d[22] &&
            IsColor(t.d[22], [s.d[25], s.d[26], s.d[27]], Byte(s.d[6], 3)) && Only(s, t, {20, 21, 22})
  {
    hide PushColor, Byte;
    var t := PushColor(s);
    ColorLaw(s);
    FlagsStay(s, 0, 0, 0, false, false);
    assert 19 !in t.flag && 20 !in t.flag && 21 !in t.flag;
  }

  lemma QuietMvmva(s: State, sf: bool, lm: bool, mx: nat, v: nat, cv: nat) returns (m: Triple)
    requires Halves(s.d) && cv != 2 && Mvmva(s, sf, lm, mx, v, cv).flag == {}
    ensures var t := Mvmva(s, sf, lm, mx, v, cv);
            s.flag == {} && AreMacs(m, [SumOf(s, mx, v, cv, 0), SumOf(s, mx, v, cv, 1), SumOf(s, mx, v, cv, 2)], sf) &&
            InIr(t.d, m, lm) && Only(s, t, {9, 10, 11, 25, 26, 27})
  {
    hide StoreMacIr, MatrixRow, SumOf, Halves;
    RowLaw(s, mx, v, cv, 0);
    RowLaw(s, mx, v, cv, 1);
    RowLaw(s, mx, v, cv, 2);
    var x := [SumOf(s, mx, v, cv, 0), SumOf(s, mx, v, cv, 1), SumOf(s, mx, v, cv, 2)];
    var t := StoreMacIr(s, x[0], x[1], x[2], sf, lm);
    assert t.flag == {};
    m := QuietStore(s, x, sf, lm);
  }

  /** Toward the far colour: u is its distance, limited to 16 bits. */
  lemma QuietInterpolate(s: State, x: Triple, sf: bool, lm: bool) returns (u: Triple, m: Triple)
    requires Halves(s.d) && Interpolate(s, x[0], x[1], x[2], sf, lm).flag == {}
    ensures var t := Interpolate(s, x[0], x[1], x[2], sf, lm);
            s.flag == {} && Toward(s, x, u, m, sf) && InIr(t.d, m, lm) && Only(s, t, {9, 10, 11, 25, 26, 27})
  {
    hide StoreMacIr, IsMac, MacFlags, IrFlags, Shift, SatIr;
    var d: Triple := [s.c[21] * 0x1000 - x[0], s.c[22] * 0x1000 - x[1], s.c[23] * 0x1000 - x[2]];
    u := [Wrap32(Shift(d[0], sf)), Wrap32(Shift(d[1], sf)), Wrap32(Shift(d[2], sf))];
    Distance(d[0], u[0], 1, sf);
    Distance(d[1], u[1], 2, sf);
    Distance(d[2], u[2], 3, sf);
    Wrap16Is(s.d[8]);
    hide Wrap16, Wrap32;
    m := QuietStore(s, [u[0] * s.d[8] + x[0], u[1] * s.d[8] + x[1], u[2] * s.d[8] + x[2]], sf, lm);
  }

  lemma Distance(d: int, u: int, n: int, sf: bool)
    requires u == Wrap32(Shift(d, sf)) && MacFlags(d, n) == {} && IrFlags(u, n, false) == {}
    ensures IsMac(u, d, sf) && IsI16(u) && SatIr(u, false) == u
  {
    MacFlagsAre(d, n);
    IrFlagsAre(u, n, false);
    assert 31 - n !in MacFlags(d, n) && 28 - n !in MacFlags(d, n) && 25 - n !in IrFlags(u, n, false);
    MacIs(d, sf);
  }

  /** m comes of x by going IR0 / 4096 of the way u to the far colour. */
  predicate Toward(s: State, x: Triple, u: Triple, m: Triple, sf: bool) {
    AreMacs(u, [0x1000 * s.c[21] - x[0], 0x1000 * s.c[22] - x[1], 0x1000 * s.c[23] - x[2]], sf) && Small(u, false) &&
    AreMacs(m, [u[0] * s.d[8] + x[0], u[1] * s.d[8] + x[1], u[2] * s.d[8] + x[2]], sf)
  }

  // ---- Whole commands ------------------------------------------------------------------------

  lemma Begins(s: State, k: Command)
    requires Ranges(s) && Execute(s, k).flag == {}
    ensures var s0 := s.(flag := {});
            Halves(s0.d) && Perform(s0, k).flag == {} && Execute(s, k) == Perform(s0, k)
  {
    hide Perform;
  }

  /** MVMVA but for the far colour. */
  lemma MvmvaLaw(s: State, k: Command) returns (m: Triple)
    requires Ranges(s) && k.func == 0x12 && k.cv != 2 && Execute(s, k).flag == {}
    ensures var e := Execute(s, k);
            AreMacs(m, [SumOf(s, k.mx, k.v, k.cv, 0), SumOf(s, k.mx, k.v, k.cv, 1), SumOf(s, k.mx, k.v, k.cv, 2)], k.sf) &&
            InIr(e.d, m, k.lm) && Only(s, e, {9, 10, 11, 25, 26, 27})
  {
    hide Mvmva, Halves, Ranges, SumOf;
    Begins(s, k);
    m := QuietMvmva(s.(flag := {}), k.sf, k.lm, k.mx, k.v, k.cv);
    SumsIgnoreFlag(s, k.mx, k.v, k.cv);
  }

  lemma SumsIgnoreFlag(s: State, mx: nat, v: nat, cv: nat)
    ensures forall i :: 0 <= i < 3 ==> SumOf(s.(flag := {}), mx, v, cv, i) == SumOf(s, mx, v, cv, i)
  {
    hide Lo, Hi, Byte;
  }

  /** With the far colour the first column and the translation leave no trace in the result. */
  lemma FarMvmvaLaw(s: State, k: Command) returns (m: Triple)
    requires Ranges(s) && k.func == 0x12 && k.cv == 2 && Execute(s, k).flag == {}
    ensures var e, a, x := Execute(s, k), Entries(s, k.mx), Operand(s, k.v);
            AreMacs(m, [a[0][1] * x[1] + a[0][2] * x[2], a[1][1] * x[1] + a[1][2] * x[2], a[2][1] * x[1] + a[2][2] * x[2]], k.sf) &&
            InIr(e.d, m, k.lm) && Only(s, e, {9, 10, 11, 25, 26, 27})
  {
    hide StoreMacIr, Halves, Ranges, Matrix, Vector, FarFlags, Entries, Operand;
    Begins(s, k);
    var s0 := s.(flag := {});
    MatrixIs(s0, k.mx, 0);
    MatrixIs(s0, k.mx, 1);
    MatrixIs(s0, k.mx, 2);
    VectorIs(s0, k.v);
    OperandsIgnoreFlag(s, k.mx, k.v);
    m := QuietStore(s0, [FarRow(s0, k.mx, k.v, 0), FarRow(s0, k.mx, k.v, 1), FarRow(s0, k.mx, k.v, 2)], k.sf, k.lm);
  }

  lemma OperandsIgnoreFlag(s: State, mx: nat, v: nat)
    ensures Entries(s.(flag := {}), mx) == Entries(s, mx) && Operand(s.(flag := {}), v) == Operand(s, v)
  {
    hide Lo, Hi, Byte;
  }

  /** OP is the cross product with the diagonal of the rotation matrix, SQR squares IR1-IR3. */
  function Products(s: State, func: int): Triple {
    var x, y, z: int := s.d[9], s.d[10], s.d[11];
    var r11, r22, r33 := Lo(s.c[0]), Lo(s.c[2]), Lo(s.c[4]);
    if func == 0x28 then [x * x, y * y, z * z] else [z * r22 - y * r33, x * r33 - z * r11, y * r11 - x * r22]
  }

  lemma ProductLaw(s: State, k: Command) returns (m: Triple)
    requires Ranges(s) && k.func in {0x0C, 0x28} && Execute(s, k).flag == {}
    ensures AreMacs(m, Products(s, k.func), k.sf) && InIr(Execute(s, k).d, m, k.lm)
    ensures Only(s, Execute(s, k), {9, 10, 11, 25, 26, 27})
  {
    hide *;
    Begins(s, k);
    RegistersAre(s);
    var s0, x := s.(flag := {}), Products(s, k.func);
    Multiplies(s, k);
    m := QuietStore(s0, x, k.sf, k.lm);
    OnlyIgnoresFlag(s, Execute(s, k), {9, 10, 11, 25, 26, 27});
  }

  lemma OnlyIgnoresFlag(s: State, e: State, regs: set<int>)
    ensures Only(s.(flag := {}), e, regs) == Only(s, e, regs)
  {
  }

  lemma Multiplies(s: State, k: Command)
    requires Ranges(s) && k.func in {0x0C, 0x28}
    ensures var s0, x := s.(flag := {}), Products(s, k.func);
            Perform(s0, k) == StoreMacIr(s0, x[0], x[1], x[2], k.sf, k.lm)
  {
    hide StoreMacIr, Ranges, Lo, Wrap16;
    RegistersAre(s);
  }

  lemma RegistersAre(s: State)
    requires Ranges(s)
    ensures Wrap16(s.d[8]) == s.d[8] && Wrap16(s.d[9]) == s.d[9] && Wrap16(s.d[10]) == s.d[10] && Wrap16(s.d[11]) == s.d[11]
  {
    Wrap16Is(s.d[8]);
    Wrap16Is(s.d[9]);
    Wrap16Is(s.d[10]);
    Wrap16Is(s.d[11]);
  }

  /** The colour FIFO and the results of a command that ends with a colour. */
  predicate Shows(s: State, e: State, m: Triple, lm: bool) {
    InIr(e.d, m, lm) && IsColor(e.d[22], m, Byte(s.d[6], 3)) && e.d[20] == s.d[21] && e.d[21] == s.d[22] &&
    Only(s, e, {9, 10, 11, 20, 21, 22, 25, 26, 27})
  }

  lemma ShowsAfter(s: State, t: State, m: Triple, lm: bool)
    requires InIr(t.d, m, lm) && Only(s, t, {9, 10, 11, 25, 26, 27}) && PushColor(t).flag == {}
    ensures t.flag == {} && Shows(s, PushColor(t), m, lm)
  {
    hide PushColor, Byte;
    QuietColor(t);
    assert t.d[6] == s.d[6] && t.d[21] == s.d[21] && t.d[22] == s.d[22];
  }

  /** GPF multiplies by IR0, GPL adds what was there. */
  function General(s: State, add: bool, sf: bool): Triple {
    var x, y, z: int := s.d[25], s.d[26], s.d[27];
    var b: Triple := if !add then [0, 0, 0] else if sf then [0x1000 * x, 0x1000 * y, 0x1000 * z] else [x, y, z];
    [s.d[9] * s.d[8] + b[0], s.d[10] * s.d[8] + b[1], s.d[11] * s.d[8] + b[2]]
  }

  lemma GeneralLaw(s: State, k: Command) returns (m: Triple)
    requires Ranges(s) && k.func in {0x3D, 0x3E} && Execute(s, k).flag == {}
    ensures AreMacs(m, General(s, k.func == 0x3E, k.sf), k.sf) && Shows(s, Execute(s, k), m, k.lm)
  {
    hide *;
    Begins(s, k);
    var s0, x := s.(flag := {}), General(s, k.func == 0x3E, k.sf);
    Interpolates(s, k);
    var t := StoreMacIr(s0, x[0], x[1], x[2], k.sf, k.lm);
    NoFlagBefore(t);
    m := QuietStore(s0, x, k.sf, k.lm);
    ShowsAfter(s0, t, m, k.lm);
    ShowsIgnoresFlag(s, Execute(s, k), m, k.lm);
  }

  lemma NoFlagBefore(t: State)
    ensures PushColor(t).flag == {} ==> t.flag == {}
  {
    FlagsStay(t, 0, 0, 0, false, false);
  }

  lemma ShowsIgnoresFlag(s: State, e: State, m: Triple, lm: bool)
    ensures Shows(s.(flag := {}), e, m, lm) == Shows(s, e, m, lm)
  {
  }

  lemma Interpolates(s: State, k: Command)
    requires Ranges(s) && k.func in {0x3D, 0x3E}
    ensures var s0, x := s.(flag := {}), General(s, k.func == 0x3E, k.sf);
            Perform(s0, k) == PushColor(StoreMacIr(s0, x[0], x[1], x[2], k.sf, k.lm))
  {
    hide StoreMacIr, PushColor, Ranges, Wrap16;
    RegistersAre(s);
  }

  /** NCLIP and the averages; OTZ is a 4096th of MAC0. */
  function Mac0Value(s: State, func: int): int {
    var x0, y0, x1, y1, x2, y2 := Lo(s.d[12]), Hi(s.d[12]), Lo(s.d[13]), Hi(s.d[13]), Lo(s.d[14]), Hi(s.d[14]);
    var z0, z1, z2, z3: int := s.d[16], s.d[17], s.d[18], s.d[19];
    if func == 0x06 then x0 * (y1 - y2) + x1 * (y2 - y0) + x2 * (y0 - y1)
    else if func == 0x2D then Lo(s.c[29]) * (z1 + z2 + z3)
    else Lo(s.c[30]) * (z0 + (z1 + z2 + z3))
  }

  lemma Mac0Law(s: State, k: Command)
    requires Ranges(s) && k.func in {0x06, 0x2D, 0x2E} && Execute(s, k).flag == {}
    ensures var e := Execute(s, k);
            e.d[24] == Mac0Value(s, k.func) && Only(s, e, if k.func == 0x06 then {24} else {7, 24}) &&
            (k.func != 0x06 ==> 0x1000 * e.d[7] <= e.d[24] < 0x1000 * e.d[7] + 0x1000)
  {
    hide Lo, Hi, Wrap16, Mac0Value, Ranges, Only, SetMac0, Average, Perform;
    Begins(s, k);
    var s0, v := s.(flag := {}), Mac0Value(s, k.func);
    Mac0Performs(s, k);
    if k.func == 0x06 { QuietMac0(s0, v); } else { QuietAverage(s0, v); }
    OnlyIgnoresFlag(s, Execute(s, k), if k.func == 0x06 then {24} else {7, 24});
  }

  lemma Mac0Performs(s: State, k: Command)
    requires Ranges(s) && k.func in {0x06, 0x2D, 0x2E}
    ensures var s0, v := s.(flag := {}), Mac0Value(s, k.func);
            Perform(s0, k) == if k.func == 0x06 then SetMac0(s0, v) else Average(s0, v)
  {
    DepthsAre(s);
    LoIs(s.c[29]);
    LoIs(s.c[30]);
    hide Lo, Hi, Wrap16, Ranges, SetMac0, Average, Unsigned;
  }

  lemma LoIs(v: I32)
    ensures Lo(v) == Wrap16(v)
  {
  }

  lemma DepthsAre(s: State)
    requires Ranges(s)
    ensures Unsigned(s.d[16]) == s.d[16] && Unsigned(s.d[17]) == s.d[17] && Unsigned(s.d[18]) == s.d[18] && Unsigned(s.d[19]) == s.d[19]
  {
  }

  lemma QuietMac0(s: State, v: int)
    requires SetMac0(s, v).flag == {}
    ensures SetMac0(s, v).d[24] == v && Only(s, SetMac0(s, v), {24})
  {
    assert 15 !in SetMac0(s, v).flag && 16 !in SetMac0(s, v).flag;
  }

  lemma QuietAverage(s: State, v: int)
    requires Average(s, v).flag == {}
    ensures var t := Average(s, v);
            t.d[24] == v && Only(s, t, {7, 24}) && 0x1000 * t.d[7] <= v < 0x1000 * t.d[7] + 0x1000
  {
    var t := Average(s, v);
    assert SetMac0(s, v).flag <= t.flag && 18 !in t.flag;
    QuietMac0(s, v);
  }

  // ---- Light and colour --------------------------------------------------------------------------

  /** The light on a normal. */
  predicate LightOf(s: State, v: nat, a: Triple, sf: bool, lm: bool) {
    AreMacs(a, [SumOf(s, 1, v, 3, 0), SumOf(s, 1, v, 3, 1), SumOf(s, 1, v, 3, 2)], sf) && Small(a, lm)
  }

  /** The background colour and the colours of the lights a. */
  function BackSum(s: State, a: Triple): Triple {
    [0x1000 * s.c[13] + Dot(Entries(s, 2)[0], a), 0x1000 * s.c[14] + Dot(Entries(s, 2)[1], a),
     0x1000 * s.c[15] + Dot(Entries(s, 2)[2], a)]
  }

  predicate BackOf(s: State, a: Triple, b: Triple, sf: bool, lm: bool) {
    AreMacs(b, BackSum(s, a), sf) && Small(b, lm)
  }

  /** The colour in RGBC under the light b. */
  function Tints(s: State, b: Triple): Triple {
    [16 * (Byte(s.d[6], 0) * b[0]), 16 * (Byte(s.d[6], 1) * b[1]), 16 * (Byte(s.d[6], 2) * b[2])]
  }

  datatype Finish = Plain | Tinted | Cued

  /** The light b itself, the colour in RGBC under it, or that toward the far colour. */
  ghost predicate Finished(f: Finish, s: State, b: Triple, m: Triple, sf: bool) {
    match f
    case Plain => m == b
    case Tinted => AreMacs(m, Tints(s, b), sf)
    case Cued => exists u :: Toward(s, Tints(s, b), u, m, sf)
  }

  /** m is the colour of normal v. */
  ghost predicate Shaded(f: Finish, s: State, v: nat, m: Triple, sf: bool, lm: bool) {
    exists a, b :: LightOf(s, v, a, sf, lm) && BackOf(s, a, b, sf, lm) && Finished(f, s, b, m, sf)
  }

  lemma QuietBack(s: State, sf: bool, lm: bool) returns (b: Triple)
    requires Halves(s.d) && Mvmva(s, sf, lm, 2, 3, 1).flag == {}
    ensures var t := Mvmva(s, sf, lm, 2, 3, 1);
            s.flag == {} && BackOf(s, [s.d[9], s.d[10], s.d[11]], b, sf, lm) && InIr(t.d, b, lm) &&
            Only(s, t, {9, 10, 11, 25, 26, 27})
  {
    hide Mvmva, Halves, AreMacs, Entries, Dot;
    b := QuietMvmva(s, sf, lm, 2, 3, 1);
  }

  lemma HalvesStay(s: State, t: State, m: Triple, lm: bool)
    requires Halves(s.d) && InIr(t.d, m, lm) && Only(s, t, {9, 10, 11, 25, 26, 27})
    ensures Halves(t.d)
  {
  }

  lemma QuietLit(s: State, v: nat, sf: bool, lm: bool) returns (a: Triple, b: Triple)
    requires Halves(s.d) && v < 3 && Lit(s, v, sf, lm).flag == {}
    ensures var t := Lit(s, v, sf, lm);
            s.flag == {} && LightOf(s, v, a, sf, lm) && BackOf(s, a, b, sf, lm) && InIr(t.d, b, lm) &&
            Only(s, t, {9, 10, 11, 25, 26, 27})
  {
    hide Mvmva, Halves, AreMacs, SumOf, Entries, Dot, IsMac;
    var s1 := Mvmva(s, sf, lm, 1, v, 3);
    NoFlagsBefore(s1, sf, lm);
    a := QuietMvmva(s, sf, lm, 1, v, 3);
    HalvesStay(s, s1, a, lm);
    b := QuietBack(s1, sf, lm);
    var in1: Triple := [s1.d[9], s1.d[10], s1.d[11]];
    assert in1 == a;
    SameOperands(s, s1);
    assert BackSum(s1, a) == BackSum(s, a);
  }

  lemma NoFlagsBefore(s: State, sf: bool, lm: bool)
    ensures Mvmva(s, sf, lm, 2, 3, 1).flag == {} ==> s.flag == {}
  {
    hide StoreMacIr, MatrixRow;
    var x, y, z := MatrixRow(s, 2, 3, 1, 0).sum, MatrixRow(s, 2, 3, 1, 1).sum, MatrixRow(s, 2, 3, 1, 2).sum;
    FlagsStay(s, x, y, z, sf, lm);
  }

  /** What the lighting commands take from the registers is not among the ones they change. */
  lemma SameOperands(s: State, t: State)
    requires Only(s, t, {9, 10, 11, 20, 21, 22, 25, 26, 27})
    ensures Entries(t, 1) == Entries(s, 1) && Entries(t, 2) == Entries(s, 2)
    ensures forall v :: 0 <= v < 3 ==> Operand(t, v) == Operand(s, v)
    ensures t.c == s.c && t.d[6] == s.d[6] && t.d[8] == s.d[8]
  {
    hide Lo, Hi;
    assert t.d[0] == s.d[0] && t.d[1] == s.d[1] && t.d[2] == s.d[2] && t.d[3] == s.d[3] && t.d[4] == s.d[4] && t.d[5] == s.d[5];
  }

  lemma ShadedAlike(f: Finish, s: State, t: State, v: nat, m: Triple, sf: bool, lm: bool)
    requires Only(s, t, {9, 10, 11, 20, 21, 22, 25, 26, 27}) && v < 3 && Shaded(f, t, v, m, sf, lm)
    ensures Shaded(f, s, v, m, sf, lm)
  {
    hide Entries, Operand, AreMacs, Dot, Small, Byte, Only;
    SameOperands(s, t);
    var a, b :| LightOf(t, v, a, sf, lm) && BackOf(t, a, b, sf, lm) && Finished(f, t, b, m, sf);
    assert LightOf(s, v, a, sf, lm);
    assert BackSum(t, a) == BackSum(s, a);
    assert BackOf(s, a, b, sf, lm);
    assert Tints(t, b) == Tints(s, b);
    if f == Cued {
      var u :| Toward(t, Tints(t, b), u, m, sf);
      assert Toward(s, Tints(s, b), u, m, sf);
    }
  }

  function ShadeOne(f: Finish, s: State, v: nat, sf: bool, lm: bool): State {
    match f
    case Plain => Ncs(s, v, sf, lm)
    case Tinted => Nccs(s, v, sf, lm)
    case Cued => Ncds(s, v, sf, lm)
  }

  lemma QuietTint(s: State, b: Triple, sf: bool, lm: bool) returns (m: Triple)
    requires InIr(s.d, b, lm) && Tint(s, sf, lm).flag == {}
    ensures s.flag == {} && AreMacs(m, Tints(s, b), sf) && Shows(s, Tint(s, sf, lm), m, lm)
  {
    hide StoreMacIr, PushColor, Byte, AreMacs, Shows;
    Wrap16Is(s.d[9]);
    Wrap16Is(s.d[10]);
    Wrap16Is(s.d[11]);
    hide Wrap16;
    var x := Tints(s, b);
    TintsAre(s, b);
    var t := StoreMacIr(s, x[0], x[1], x[2], sf, lm);
    NoFlagBefore(t);
    m := QuietStore(s, x, sf, lm);
    ShowsAfter(s, t, m, lm);
  }

  lemma TintsAre(s: State, b: Triple)
    requires s.d[9] == b[0] == s.Ir(1) && s.d[10] == b[1] == s.Ir(2) && s.d[11] == b[2] == s.Ir(3)
    ensures Tints(s, b) == [Gte.Tinted(s, 0), Gte.Tinted(s, 1), Gte.Tinted(s, 2)]
  {
    hide Byte;
    Sixteenfold(Byte(s.d[6], 0), b[0]);
    Sixteenfold(Byte(s.d[6], 1), b[1]);
    Sixteenfold(Byte(s.d[6], 2), b[2]);
  }

  lemma Sixteenfold(x: int, y: int)
    ensures x * y * 16 == 16 * (x * y)
  {
  }

  lemma QuietBlend(s: State, x: Triple, sf: bool, lm: bool) returns (u: Triple, m: Triple)
    requires Halves(s.d) && PushColor(Interpolate(s, x[0], x[1], x[2], sf, lm)).flag == {}
    ensures s.flag == {} && Toward(s, x, u, m, sf) && Shows(s, PushColor(Interpolate(s, x[0], x[1], x[2], sf, lm)), m, lm)
  {
    hide Interpolate, PushColor, Byte, Shows, Halves, Toward;
    var t := Interpolate(s, x[0], x[1], x[2], sf, lm);
    NoFlagBefore(t);
    u, m := QuietInterpolate(s, x, sf, lm);
    ShowsAfter(s, t, m, lm);
  }

  lemma QuietTintFar(s: State, b: Triple, sf: bool, lm: bool) returns (u: Triple, m: Triple)
    requires Halves(s.d) && InIr(s.d, b, lm) && TintFar(s, sf, lm).flag == {}
    ensures s.flag == {} && Toward(s, Tints(s, b), u, m, sf) && Shows(s, TintFar(s, sf, lm), m, lm)
  {
    hide Interpolate, PushColor, Byte, Shows, Halves, Toward;
    Wrap16Is(s.d[9]);
    Wrap16Is(s.d[10]);
    Wrap16Is(s.d[11]);
    hide Wrap16;
    TintsAre(s, b);
    u, m := QuietBlend(s, Tints(s, b), sf, lm);
  }

  /** One vertex of NCS, NCCS or NCDS. */
  lemma QuietShade(f: Finish, s: State, v: nat, sf: bool, lm: bool) returns (m: Triple)
    requires Halves(s.d) && v < 3 && ShadeOne(f, s, v, sf, lm).flag == {}
    ensures s.flag == {} && Shaded(f, s, v, m, sf, lm) && Shows(s, ShadeOne(f, s, v, sf, lm), m, lm)
  {
    hide Lit, Tint, TintFar, PushColor, Halves, LightOf, BackOf, Tints, Toward, InIr, Only, Shows;
    var t := Lit(s, v, sf, lm);
    EarlierFlags(f, t, sf, lm);
    var a, b := QuietLit(s, v, sf, lm);
    HalvesStay(s, t, b, lm);
    TintsAlike(s, t, b);
    match f
    case Plain =>
      ShowsAfter(s, t, b, lm);
      m := b;
    case Tinted =>
      m := QuietTint(t, b, sf, lm);
      ShowsThrough(s, t, Tint(t, sf, lm), m, lm);
    case Cued =>
      var u;
      u, m := QuietTintFar(t, b, sf, lm);
      TowardAlike(s, t, Tints(s, b), u, m, sf);
      ShowsThrough(s, t, TintFar(t, sf, lm), m, lm);
  }

  lemma EarlierFlags(f: Finish, t: State, sf: bool, lm: bool)
    ensures f == Plain && PushColor(t).flag == {} ==> t.flag == {}
    ensures f == Tinted && Tint(t, sf, lm).flag == {} ==> t.flag == {}
    ensures f == Cued && TintFar(t, sf, lm).flag == {} ==> t.flag == {}
  {
    hide StoreMacIr, PushColor, Gte.Tinted;
    NoFlagBefore(t);
    var x, y, z := Gte.Tinted(t, 0), Gte.Tinted(t, 1), Gte.Tinted(t, 2);
    FlagsStay(t, x, y, z, sf, lm);
    NoFlagBefore(StoreMacIr(t, x, y, z, sf, lm));
    NoFlagBefore(Interpolate(t, x, y, z, sf, lm));
    InterpolateFlags(t, x, y, z, sf, lm);
  }

  lemma InterpolateFlags(s: State, x: int, y: int, z: int, sf: bool, lm: bool)
    ensures s.flag <= Interpolate(s, x, y, z, sf, lm).flag
  {
    hide StoreMacIr, SatIr, Wrap32, Shift, MacFlags, IrFlags;
    forall m1, m2, m3 ensures s.flag <= StoreMacIr(s, m1, m2, m3, sf, lm).flag { FlagsStay(s, m1, m2, m3, sf, lm); }
  }

  lemma TintsAlike(s: State, t: State, b: Triple)
    requires Only(s, t, {9, 10, 11, 25, 26, 27})
    ensures Tints(t, b) == Tints(s, b)
  {
    hide Byte;
    assert t.d[6] == s.d[6];
  }

  lemma TowardAlike(s: State, t: State, x: Triple, u: Triple, m: Triple, sf: bool)
    requires Only(s, t, {9, 10, 11, 25, 26, 27})
    ensures Toward(t, x, u, m, sf) == Toward(s, x, u, m, sf)
  {
    hide AreMacs, Small;
    assert t.d[8] == s.d[8];
  }

  lemma ShowsThrough(s: State, t: State, e: State, m: Triple, lm: bool)
    requires Only(s, t, {9, 10, 11, 25, 26, 27}) && Shows(t, e, m, lm)
    ensures Shows(s, e, m, lm)
  {
    hide Byte, InIr;
    assert t.d[6] == s.d[6] && t.d[21] == s.d[21] && t.d[22] == s.d[22];
  }

  function FinishOf(func: int): Finish {
    if func in {0x1E, 0x20} then Plain else if func in {0x1B, 0x3F, 0x1C} then Tinted else Cued
  }

  /** NCS, NCCS and NCDS: the normal V0. */
  lemma ShadeLaw(s: State, k: Command) returns (m: Triple)
    requires Ranges(s) && k.func in {0x1E, 0x1B, 0x13} && Execute(s, k).flag == {}
    ensures Shaded(FinishOf(k.func), s, 0, m, k.sf, k.lm) && Shows(s, Execute(s, k), m, k.lm)
  {
    hide Ranges, Ncs, Nccs, Ncds, Shaded, Shows, Halves;
    Begins(s, k);
    m := QuietShade(FinishOf(k.func), s.(flag := {}), 0, k.sf, k.lm);
    ShowsIgnoresFlag(s, Execute(s, k), m, k.lm);
    ShadedAlike(FinishOf(k.func), s, s.(flag := {}), 0, m, k.sf, k.lm);
  }

  /** NCT, NCCT and NCDT: the normals V0, V1 and V2, whose colours fill the FIFO. */
  lemma ShadeThreeLaw(s: State, k: Command) returns (m0: Triple, m1: Triple, m2: Triple)
    requires Ranges(s) && k.func in {0x20, 0x3F, 0x16} && Execute(s, k).flag == {}
    ensures var e, f, code := Execute(s, k), FinishOf(k.func), Byte(s.d[6], 3);
            Shaded(f, s, 0, m0, k.sf, k.lm) && Shaded(f, s, 1, m1, k.sf, k.lm) && Shaded(f, s, 2, m2, k.sf, k.lm) &&
            IsColor(e.d[20], m0, code) && IsColor(e.d[21], m1, code) && IsColor(e.d[22], m2, code) &&
            InIr(e.d, m2, k.lm) && Only(s, e, {9, 10, 11, 20, 21, 22, 25, 26, 27})
  {
    hide Ranges, Ncs, Nccs, Ncds, Shaded, Halves, IsColor, InIr, Byte;
    Begins(s, k);
    var s0, f, sf, lm := s.(flag := {}), FinishOf(k.func), k.sf, k.lm;
    var s1 := ShadeOne(f, s0, 0, sf, lm);
    var s2 := ShadeOne(f, s1, 1, sf, lm);
    var s3 := ShadeOne(f, s2, 2, sf, lm);
    assert Perform(s0, k) == s3;
    ShadeFlags(f, s2, 2, sf, lm);
    ShadeFlags(f, s1, 1, sf, lm);
    m0 := QuietShade(f, s0, 0, sf, lm);
    HalvesShown(s0, s1, m0, lm);
    m1 := QuietShade(f, s1, 1, sf, lm);
    HalvesShown(s1, s2, m1, lm);
    m2 := QuietShade(f, s2, 2, sf, lm);
    ShadedAlike(f, s, s0, 0, m0, sf, lm);
    ShadedAlike(f, s, s1, 1, m1, sf, lm);
    ShadedAlike(f, s, s2, 2, m2, sf, lm);
    assert s1.d[6] == s.d[6] && s2.d[6] == s.d[6];
  }

  lemma HalvesShown(s: State, t: State, m: Triple, lm: bool)
    requires Halves(s.d) && Shows(s, t, m, lm)
    ensures Halves(t.d)
  {
    hide IsColor;
  }

  lemma ShadeFlags(f: Finish, s: State, v: nat, sf: bool, lm: bool)
    requires v < 3
    ensures ShadeOne(f, s, v, sf, lm).flag == {} ==> s.flag == {}
  {
    hide Tint, TintFar, PushColor, Mvmva;
    var t := Lit(s, v, sf, lm);
    EarlierFlags(f, t, sf, lm);
    NoFlagsBefore(Mvmva(s, sf, lm, 1, v, 3), sf, lm);
    LightFlags(s, v, sf, lm);
  }

  lemma LightFlags(s: State, v: nat, sf: bool, lm: bool)
    ensures Mvmva(s, sf, lm, 1, v, 3).flag == {} ==> s.flag == {}
  {
    hide StoreMacIr, MatrixRow;
    var x, y, z := MatrixRow(s, 1, v, 3, 0).sum, MatrixRow(s, 1, v, 3, 1).sum, MatrixRow(s, 1, v, 3, 2).sum;
    FlagsStay(s, x, y, z, sf, lm);
  }

  /** CC and CDP: IR1-IR3 are the light. */
  lemma ColorColorLaw(s: State, k: Command) returns (b: Triple, m: Triple)
    requires Ranges(s) && k.func in {0x1C, 0x14} && Execute(s, k).flag == {}
    ensures BackOf(s, [s.d[9], s.d[10], s.d[11]], b, k.sf, k.lm)
    ensures Finished(FinishOf(k.func), s, b, m, k.sf) && Shows(s, Execute(s, k), m, k.lm)
  {
    hide Ranges, Mvmva, Tint, TintFar, Shows, Halves, BackOf, Tints, Toward, InIr, Only;
    Begins(s, k);
    var s0, sf, lm := s.(flag := {}), k.sf, k.lm;
    var t := Mvmva(s0, sf, lm, 2, 3, 1);
    EarlierFlags(FinishOf(k.func), t, sf, lm);
    b := QuietBack(s0, sf, lm);
    HalvesStay(s0, t, b, lm);
    OnlyIgnoresFlag(s, t, {9, 10, 11, 25, 26, 27});
    TintsAlike(s, t, b);
    if k.func == 0x1C {
      m := QuietTint(t, b, sf, lm);
      ShowsThrough(s, t, Tint(t, sf, lm), m, lm);
    } else {
      var u;
      u, m := QuietTintFar(t, b, sf, lm);
      TowardAlike(s, t, Tints(s, b), u, m, sf);
      ShowsThrough(s, t, TintFar(t, sf, lm), m, lm);
    }
    BackIgnoresFlag(s, [s.d[9], s.d[10], s.d[11]], b, sf, lm);
  }

  lemma BackIgnoresFlag(s: State, a: Triple, b: Triple, sf: bool, lm: bool)
    ensures BackOf(s.(flag := {}), a, b, sf, lm) == BackOf(s, a, b, sf, lm)
  {
    hide AreMacs, Dot;
    OperandsIgnoreFlag(s, 2, 3);
    assert BackSum(s.(flag := {}), a) == BackSum(s, a);
  }

  /** The colour w in the accumulator's scale. */
  function Colors(w: I32): Triple { [0x1_0000 * Byte(w, 0), 0x1_0000 * Byte(w, 1), 0x1_0000 * Byte(w, 2)] }

  /** What DCPL, DPCS and INTPL take toward the far colour: the colour in RGBC under the light
      IR1-IR3, that colour itself, and the vector IR1-IR3. */
  function Source(s: State, func: int): Triple {
    if func == 0x29 then Tints(s, [s.d[9], s.d[10], s.d[11]])
    else if func == 0x10 then Colors(s.d[6])
    else [0x1000 * (s.d[9] as int), 0x1000 * (s.d[10] as int), 0x1000 * (s.d[11] as int)]
  }

  lemma CueLaw(s: State, k: Command) returns (u: Triple, m: Triple)
    requires Ranges(s) && k.func in {0x29, 0x10, 0x11} && Execute(s, k).flag == {}
    ensures Toward(s, Source(s, k.func), u, m, k.sf) && Shows(s, Execute(s, k), m, k.lm)
  {
    hide Ranges, Interpolate, PushColor, Shows, Halves, Toward, Source, Perform;
    Begins(s, k);
    var s0, x := s.(flag := {}), Source(s, k.func);
    Cues(s, k);
    u, m := QuietBlend(s0, x, k.sf, k.lm);
    ShowsIgnoresFlag(s, Execute(s, k), m, k.lm);
    TowardAlike(s, s0, x, u, m, k.sf);
  }

  lemma Cues(s: State, k: Command)
    requires Ranges(s) && k.func in {0x29, 0x10, 0x11}
    ensures var s0, x := s.(flag := {}), Source(s, k.func);
            Perform(s0, k) == PushColor(Interpolate(s0, x[0], x[1], x[2], k.sf, k.lm))
  {
    hide Interpolate, PushColor, Byte;
    RegistersAre(s);
    hide Wrap16, Ranges;
    TintsAre(s, [s.d[9], s.d[10], s.d[11]]);
  }

  /** DPCT takes the three colours of the FIFO toward the far colour. */
  lemma CueThreeLaw(s: State, k: Command) returns (m0: Triple, m1: Triple, m2: Triple)
    requires Ranges(s) && k.func == 0x2A && Execute(s, k).flag == {}
    ensures var e, code := Execute(s, k), Byte(s.d[6], 3);
            (exists u :: Toward(s, Colors(s.d[20]), u, m0, k.sf)) && (exists u :: Toward(s, Colors(s.d[21]), u, m1, k.sf)) &&
            (exists u :: Toward(s, Colors(s.d[22]), u, m2, k.sf)) &&
            IsColor(e.d[20], m0, code) && IsColor(e.d[21], m1, code) && IsColor(e.d[22], m2, code) &&
            InIr(e.d, m2, k.lm) && Only(s, e, {9, 10, 11, 20, 21, 22, 25, 26, 27})
  {
    hide Ranges, Cue, Halves, IsColor, InIr, Byte, Toward, Colors;
    Begins(s, k);
    var s0, sf, lm := s.(flag := {}), k.sf, k.lm;
    var s1 := Cue(s0, s0.d[20], sf, lm);
    var s2 := Cue(s1, s1.d[20], sf, lm);
    var s3 := Cue(s2, s2.d[20], sf, lm);
    CueFlags(s2, s2.d[20], sf, lm);
    CueFlags(s1, s1.d[20], sf, lm);
    var u0, u1, u2;
    u0, m0 := QuietCue(s0, s0.d[20], sf, lm);
    HalvesShown(s0, s1, m0, lm);
    u1, m1 := QuietCue(s1, s1.d[20], sf, lm);
    HalvesShown(s1, s2, m1, lm);
    u2, m2 := QuietCue(s2, s2.d[20], sf, lm);
    assert s1.d[20] == s.d[21] && s2.d[20] == s.d[22] && s1.d[6] == s.d[6] && s2.d[6] == s.d[6];
    TowardOthers(s, s0, Colors(s.d[20]), u0, m0, sf);
    TowardOthers(s, s1, Colors(s.d[21]), u1, m1, sf);
    TowardOthers(s, s2, Colors(s.d[22]), u2, m2, sf);
  }

  lemma QuietCue(s: State, w: I32, sf: bool, lm: bool) returns (u: Triple, m: Triple)
    requires Halves(s.d) && Cue(s, w, sf, lm).flag == {}
    ensures s.flag == {} && Toward(s, Colors(w), u, m, sf) && Shows(s, Cue(s, w, sf, lm), m, lm)
  {
    hide Interpolate, PushColor, Byte, Shows, Halves, Toward;
    u, m := QuietBlend(s, Colors(w), sf, lm);
  }

  lemma CueFlags(s: State, w: I32, sf: bool, lm: bool)
    ensures Cue(s, w, sf, lm).flag == {} ==> s.flag == {}
  {
    hide Interpolate, PushColor, Byte;
    var x := Colors(w);
    NoFlagBefore(Interpolate(s, x[0], x[1], x[2], sf, lm));
    InterpolateFlags(s, x[0], x[1], x[2], sf, lm);
  }

  lemma TowardOthers(s: State, t: State, x: Triple, u: Triple, m: Triple, sf: bool)
    requires Only(s, t, {9, 10, 11, 20, 21, 22, 25, 26, 27})
    ensures Toward(t, x, u, m, sf) == Toward(s, x, u, m, sf)
  {
    hide AreMacs, Small;
    assert t.d[8] == s.d[8];
  }

  // ---- Perspective ---------------------------------------------------------------------------------

  /** q is a quotient of h and z in 65536ths, within 4.5 of the exact one. */
  predicate IsQuotient(q: int, h: int, z: int) {
    h < 2 * z && 0 <= q && -9 * z <= 2 * (q * z - h * 0x1_0000) <= 9 * z
  }

  /** v / 65536, rounded down. */
  predicate IsPixel(p: int, v: int) { 0x1_0000 * p <= v < 0x1_0000 * p + 0x1_0000 }

  /** The low half of w is where the quotient takes m[0] from OFX, and the high half where it
      takes m[1] from OFY. */
  predicate Lands(c: File, m: Triple, z: int, q: int, w: I32) {
    IsQuotient(q, c[26] % 0x1_0000, z) && IsPixel(Lo(w), q * m[0] + c[24]) && IsPixel(Hi(w), q * m[1] + c[25])
  }

  /** Rotated and translated: IR1 and IR2 are MAC1 and MAC2, IR3 may be limited, and z is the
      depth. */
  predicate Rotates(s: State, v: nat, m: Triple, z: int, sf: bool, lm: bool) {
    AreMacs(m, [SumOf(s, 0, v, 0, 0), SumOf(s, 0, v, 0, 1), SumOf(s, 0, v, 0, 2)], sf) &&
    IsI16(m[0]) && IsI16(m[1]) && (lm ==> m[0] >= 0 && m[1] >= 0) &&
    0x1000 * z <= SumOf(s, 0, v, 0, 2) < 0x1000 * z + 0x1000 && IsU16(z)
  }

  /** RTPS before the depth is pushed. */
  function Rotated(s: State, v: nat, m: Triple, sf: bool, lm: bool): State
    requires -0x8000_0000 <= m[0] < 0x8000_0000 && -0x8000_0000 <= m[1] < 0x8000_0000 && -0x8000_0000 <= m[2] < 0x8000_0000
  {
    var a1, a2, a3 := MatrixRow(s, 0, v, 0, 0), MatrixRow(s, 0, v, 0, 1), MatrixRow(s, 0, v, 0, 2);
    State(s.d[25 := m[0]][26 := m[1]][27 := m[2]][9 := SatIr(m[0], lm)][10 := SatIr(m[1], lm)][11 := SatIr(m[2], lm)], s.c,
          s.flag + (a1.flags + a2.flags + a3.flags + IrFlags(m[0], 1, lm) + IrFlags(m[1], 2, lm) +
                    Outside(a3.sum / 0x1000, -0x8000, 0x7FFF, 22)))
  }

  function Shifted(s: State, v: nat, sf: bool): Triple {
    [Wrap32(Shift(MatrixRow(s, 0, v, 0, 0).sum, sf)), Wrap32(Shift(MatrixRow(s, 0, v, 0, 1).sum, sf)),
     Wrap32(Shift(MatrixRow(s, 0, v, 0, 2).sum, sf))]
  }

  lemma DepthIs(s: State, v: nat, sf: bool, lm: bool)
    ensures RtpsDepth(s, v, sf, lm) ==
            PushSz(Rotated(s, v, Shifted(s, v, sf), sf, lm), Wrap44(MatrixRow(s, 0, v, 0, 2).sum) / 0x1000)
  {
    hide MatrixRow, PushSz, IrFlags, SatIr, Shift, Outside, Wrap44;
  }

  lemma RotatedFlags(s: State, v: nat, m: Triple, sf: bool, lm: bool)
    requires m == Shifted(s, v, sf) && Rotated(s, v, m, sf, lm).flag == {}
    ensures s.flag == {} && forall i :: 0 <= i < 3 ==> MatrixRow(s, 0, v, 0, i).flags == {}
    ensures IsI16(m[0]) && IsI16(m[1]) && (lm ==> m[0] >= 0 && m[1] >= 0)
  {
    hide MatrixRow, Shift;
    IrFlagsAre(m[0], 1, lm);
    IrFlagsAre(m[1], 2, lm);
    assert 24 !in IrFlags(m[0], 1, lm) && 23 !in IrFlags(m[1], 2, lm);
    hide IrFlags;
  }

  lemma QuietRotated(s: State, v: nat, m: Triple, sf: bool, lm: bool)
    requires Halves(s.d) && m == Shifted(s, v, sf) && Rotated(s, v, m, sf, lm).flag == {}
    ensures AreMacs(m, [SumOf(s, 0, v, 0, 0), SumOf(s, 0, v, 0, 1), SumOf(s, 0, v, 0, 2)], sf)
    ensures var z := MatrixRow(s, 0, v, 0, 2).sum;
            z == SumOf(s, 0, v, 0, 2) && Wrap44(z) == z
  {
    hide Halves, Rotated, MatrixRow, SumOf, Shift, Wrap32, IsMac;
    RotatedFlags(s, v, m, sf, lm);
    RowLaw(s, 0, v, 0, 0);
    RowLaw(s, 0, v, 0, 1);
    RowLaw(s, 0, v, 0, 2);
    MacIs(SumOf(s, 0, v, 0, 0), sf);
    MacIs(SumOf(s, 0, v, 0, 1), sf);
    MacIs(SumOf(s, 0, v, 0, 2), sf);
    Wrap44Is(SumOf(s, 0, v, 0, 2));
  }

  lemma Wrap44Is(v: int)
    ensures -TOP44 <= v < TOP44 ==> Wrap44(v) == v
  {
  }

  lemma QuietDepth(s: State, v: nat, sf: bool, lm: bool) returns (m: Triple)
    requires Halves(s.d) && RtpsDepth(s, v, sf, lm).flag == {}
    ensures var t := RtpsDepth(s, v, sf, lm);
            s.flag == {} && Rotates(s, v, m, t.d[19], sf, lm) && Turned(t.d, m, lm) &&
            t.d[16] == s.d[17] && t.d[17] == s.d[18] && t.d[18] == s.d[19] &&
            Only(s, t, {9, 10, 11, 16, 17, 18, 19, 25, 26, 27})
  {
    hide MatrixRow, SumOf, Halves, AreMacs, RtpsDepth, PushSz, Wrap44;
    m := Shifted(s, v, sf);
    var s1, z := Rotated(s, v, m, sf, lm), Wrap44(MatrixRow(s, 0, v, 0, 2).sum) / 0x1000;
    DepthIs(s, v, sf, lm);
    DepthFlags(s1, z);
    RotatedFlags(s, v, m, sf, lm);
    QuietRotated(s, v, m, sf, lm);
    DepthLaw(s1, z);
    SatIs(m, lm);
    hide IrFlags, SatIr, Outside;
  }

  /** MAC1-MAC3 are m; IR1 and IR2 too, and IR3 is limited. */
  predicate Turned(d: File, m: Triple, lm: bool) {
    d[9] == d[25] == m[0] && d[10] == d[26] == m[1] && d[27] == m[2] && d[11] == Limited(m[2], if lm then 0 else -0x8000, 0x7FFF)
  }

  lemma SatIs(m: Triple, lm: bool)
    ensures SatIr(m[2], lm) == Limited(m[2], if lm then 0 else -0x8000, 0x7FFF)
    ensures IsI16(m[0]) && (lm ==> m[0] >= 0) ==> SatIr(m[0], lm) == m[0]
    ensures IsI16(m[1]) && (lm ==> m[1] >= 0) ==> SatIr(m[1], lm) == m[1]
  {
  }

  lemma DepthFlags(s: State, z: int)
    ensures PushSz(s, z).flag == {} ==> s.flag == {} && 0 <= z <= 0xFFFF
  {
    DepthLaw(s, z);
    if PushSz(s, z).flag == {} {
      assert 18 !in PushSz(s, z).flag;
      assert s.flag <= PushSz(s, z).flag;
    }
  }

  /** The depth cue: MAC0 is DQA times the quotient plus DQB, IR0 a 4096th of that. */
  predicate CuesDepth(c: File, q: int, d: File) {
    var mac0, ir0: int := d[24], d[8];
    mac0 == Lo(c[27]) * q + c[28] && 0x1000 * ir0 <= mac0 < 0x1000 * ir0 + 0x1000 && 0 <= ir0 <= 0x1000
  }

  lemma HalfIs(v: I32)
    ensures Half(v) == v % 0x1_0000
    ensures IsU16(v) ==> Half(v) == v
  {
  }

  function ProjectBits(h: int, z: int, x: int, y: int): set<int> {
    (if h >= 2 * z then {17} else {}) + Mac0Flags(x) + Mac0Flags(y)
  }

  /** The screen coordinates and the depth cue from the values before the shift. */
  function Pushed(s: State, bits: set<int>, x: int, y: int): State {
    PushSxy(s.Raise(bits), Wrap32(x / 0x1_0000), Wrap32(y / 0x1_0000))
  }

  function WithCue(s: State, w: int): State {
    s.(d := s.d[24 := Wrap32(w)][8 := Clamp(w / 0x1000, 0, 0x1000)]).Raise(Mac0Flags(w) + Outside(w / 0x1000, 0, 0x1000, 12))
  }

  lemma ProjectIs(s: State, last: bool, q: int)
    requires q == Division.Divided(Half(s.c[26]), Half(s.d[19]))
    ensures var h, z := Half(s.c[26]), Half(s.d[19]);
            var x, y, w := q * s.Ir(1) + s.c[24], q * s.Ir(2) + s.c[25], q * Wrap16(s.c[27]) + s.c[28];
            var t := Pushed(s, ProjectBits(h, z, x, y), x, y);
            RtpsProject(s, last) == if last then WithCue(t, w) else t
  {
    hide Half, Division.Divided, Wrap16, Wrap32, PushSxy, Mac0Flags, Outside, Clamp;
  }

  lemma Mac0FlagsAre(v: int)
    ensures Mac0Flags(v) == {} <==> -0x8000_0000 <= v < 0x8000_0000
  {
    if v > 0x7FFF_FFFF { assert 16 in Mac0Flags(v); }
    if v < -0x8000_0000 { assert 15 in Mac0Flags(v); }
  }

  lemma QuietPushed(s: State, h: int, z: int, x: int, y: int)
    requires Pushed(s, ProjectBits(h, z, x, y), x, y).flag == {}
    ensures var t := Pushed(s, ProjectBits(h, z, x, y), x, y);
            s.flag == {} && h < 2 * z && t.d[12] == s.d[13] && t.d[13] == s.d[14] &&
            IsPixel(Lo(t.d[14]), x) && IsPixel(Hi(t.d[14]), y) && Only(s, t, {12, 13, 14})
  {
    hide Lo, Hi, PushSxy;
    Mac0FlagsAre(x);
    Mac0FlagsAre(y);
    var s1 := s.Raise(ProjectBits(h, z, x, y));
    ScreenLaw(s1, Wrap32(x / 0x1_0000), Wrap32(y / 0x1_0000));
    var t := Pushed(s, ProjectBits(h, z, x, y), x, y);
    assert 13 !in t.flag && 14 !in t.flag;
    assert s1.flag <= t.flag by { ScreenFlags(s1, Wrap32(x / 0x1_0000), Wrap32(y / 0x1_0000)); }
    hide Mac0Flags;
    assert 17 !in ProjectBits(h, z, x, y);
  }

  lemma ScreenFlags(s: State, x: int, y: int)
    ensures s.flag <= PushSxy(s, x, y).flag
  {
  }

  lemma QuietCueDepth(s: State, w: int)
    requires WithCue(s, w).flag == {}
    ensures var t := WithCue(s, w);
            s.flag == {} && t.d[24] == w && 0x1000 * t.d[8] <= w < 0x1000 * t.d[8] + 0x1000 && 0 <= t.d[8] <= 0x1000 &&
            Only(s, t, {8, 24})
  {
    hide Mac0Flags;
    Mac0FlagsAre(w);
    assert 12 !in WithCue(s, w).flag;
    assert Mac0Flags(w) <= WithCue(s, w).flag;
  }

  lemma QuotientIs(h: Division.Half, z: Division.Half)
    requires h < 2 * z
    ensures IsQuotient(Division.Divided(h, z), h, z)
  {
    hide Division.Divided;
    Division.DividedIsClose(h, z);
  }

  lemma ProjectsBy(s: State, m: Triple, last: bool)
      returns (h: Division.Half, z: Division.Half, q: int, x: int, y: int, w: int)
    requires IsU16(s.d[19]) && s.d[9] == m[0] && s.d[10] == m[1] && IsI16(m[0]) && IsI16(m[1])
    ensures h == s.c[26] % 0x1_0000 && z == s.d[19] && q == Division.Divided(h, z)
    ensures x == q * m[0] + s.c[24] && y == q * m[1] + s.c[25] && w == Lo(s.c[27]) * q + s.c[28]
    ensures var t := Pushed(s, ProjectBits(h, z, x, y), x, y);
            RtpsProject(s, last) == if last then WithCue(t, w) else t
  {
    hide RtpsProject, Pushed, WithCue, ProjectBits, Lo, Hi;
    h, z := Half(s.c[26]), Half(s.d[19]);
    HalfIs(s.c[26]);
    HalfIs(s.d[19]);
    LoIs(s.c[27]);
    Wrap16Is(m[0]);
    Wrap16Is(m[1]);
    hide Wrap16, Half, Division.Divided;
    q := Division.Divided(h, z);
    x, y, w := q * m[0] + s.c[24], q * m[1] + s.c[25], q * Lo(s.c[27]) + s.c[28];
    ProjectIs(s, last, q);
  }

  lemma OnlyBoth(s: State, t: State, e: State, a: set<int>, b: set<int>)
    requires Only(s, t, a) && Only(t, e, b)
    ensures Only(s, e, a + b)
  {
  }

  lemma QuietProject(s: State, m: Triple, last: bool) returns (q: int)
    requires IsU16(s.d[19]) && s.d[9] == m[0] && s.d[10] == m[1] && IsI16(m[0]) && IsI16(m[1])
    requires RtpsProject(s, last).flag == {}
    ensures var t := RtpsProject(s, last);
            s.flag == {} && Lands(s.c, m, s.d[19], q, t.d[14]) && t.d[12] == s.d[13] && t.d[13] == s.d[14] &&
            (last ==> CuesDepth(s.c, q, t.d)) && Only(s, t, {12, 13, 14} + if last then {8, 24} else {})
  {
    var h, z, x, y, w;
    h, z, q, x, y, w := ProjectsBy(s, m, last);
    hide RtpsProject, Pushed, WithCue, ProjectBits, Lo, Hi, IsPixel, IsQuotient, Division.Divided, IsI16, IsU16;
    var t := Pushed(s, ProjectBits(h, z, x, y), x, y);
    if last { QuietCueDepth(t, w); }
    QuietPushed(s, h, z, x, y);
    QuotientIs(h, z);
    assert Lands(s.c, m, z, q, t.d[14]);
    if last {
      var e := WithCue(t, w);
      OnlyBoth(s, t, e, {12, 13, 14}, {8, 24});
      assert e.d[12] == t.d[12] && e.d[13] == t.d[13] && e.d[14] == t.d[14];
    }
  }

  lemma QuietCore(s: State, v: nat, sf: bool, lm: bool, last: bool) returns (m: Triple, q: int)
    requires Halves(s.d) && RtpsCore(s, v, sf, lm, last).flag == {}
    ensures var t := RtpsCore(s, v, sf, lm, last);
            s.flag == {} && Rotates(s, v, m, t.d[19], sf, lm) && Turned(t.d, m, lm) && Lands(s.c, m, t.d[19], q, t.d[14]) &&
            t.d[16] == s.d[17] && t.d[17] == s.d[18] && t.d[18] == s.d[19] && t.d[12] == s.d[13] && t.d[13] == s.d[14] &&
            (last ==> CuesDepth(s.c, q, t.d)) && Only(s, t, CHANGED + if last then {8, 24} else {})
  {
    hide RtpsDepth, RtpsProject, Halves, AreMacs, Lands, CuesDepth, SumOf;
    var t := RtpsDepth(s, v, sf, lm);
    var e := RtpsProject(t, last);
    ProjectKeepsFlags(t, last);
    m := QuietDepth(s, v, sf, lm);
    q := QuietProject(t, m, last);
    var a := {12, 13, 14} + if last then {8, 24} else {};
    OnlyBoth(s, t, e, {9, 10, 11, 16, 17, 18, 19, 25, 26, 27}, a);
    assert {9, 10, 11, 16, 17, 18, 19, 25, 26, 27} + a == CHANGED + if last then {8, 24} else {};
    Untouched(t, e, a);
    assert t.d[13] == s.d[13] && t.d[14] == s.d[14];
  }

  const CHANGED := {9, 10, 11, 12, 13, 14, 16, 17, 18, 19, 25, 26, 27}

  lemma Untouched(t: State, e: State, a: set<int>)
    requires Only(t, e, a) && a <= {8, 12, 13, 14, 24}
    ensures e.c == t.c && e.d[9..12] == t.d[9..12] && e.d[16..20] == t.d[16..20] && e.d[25..28] == t.d[25..28]
    ensures e.d[9] == t.d[9] && e.d[10] == t.d[10] && e.d[11] == t.d[11]
    ensures e.d[16] == t.d[16] && e.d[17] == t.d[17] && e.d[18] == t.d[18] && e.d[19] == t.d[19]
    ensures e.d[25] == t.d[25] && e.d[26] == t.d[26] && e.d[27] == t.d[27]
  {
  }

  lemma ProjectKeepsFlags(s: State, last: bool)
    ensures RtpsProject(s, last).flag == {} ==> s.flag == {}
  {
    hide Half, Division.Divided, Mac0Flags, Outside, Clamp, Wrap32;
  }

  /** RTPS: V0 rotated, its depth, where it lands, and the depth cue. */
  lemma RtpsLaw(s: State, k: Command) returns (m: Triple, q: int)
    requires Ranges(s) && k.func == 0x01 && Execute(s, k).flag == {}
    ensures var e := Execute(s, k);
            Rotates(s, 0, m, e.d[19], k.sf, k.lm) && Turned(e.d, m, k.lm) && Lands(s.c, m, e.d[19], q, e.d[14]) &&
            CuesDepth(s.c, q, e.d) && e.d[12] == s.d[13] && e.d[13] == s.d[14] &&
            e.d[16] == s.d[17] && e.d[17] == s.d[18] && e.d[18] == s.d[19] && Only(s, e, CHANGED + {8, 24})
  {
    hide Ranges, Halves, RtpsCore, AreMacs, SumOf, Lands, CuesDepth, Only, Turned;
    Begins(s, k);
    m, q := QuietCore(s.(flag := {}), 0, k.sf, k.lm, true);
    SumsIgnoreFlag(s, 0, 0, 0);
    OnlyIgnoresFlag(s, Execute(s, k), CHANGED + {8, 24});
  }

  /** RTPT: V0, V1 and V2, whose depths and places fill the FIFOs. */
  lemma RtptLaw(s: State, k: Command) returns (m: seq<Triple>, q: seq<int>)
    requires Ranges(s) && k.func == 0x30 && Execute(s, k).flag == {}
    ensures var e := Execute(s, k);
            |m| == |q| == 3 &&
            Rotates(s, 0, m[0], e.d[17], k.sf, k.lm) && Lands(s.c, m[0], e.d[17], q[0], e.d[12]) &&
            Rotates(s, 1, m[1], e.d[18], k.sf, k.lm) && Lands(s.c, m[1], e.d[18], q[1], e.d[13]) &&
            Rotates(s, 2, m[2], e.d[19], k.sf, k.lm) && Lands(s.c, m[2], e.d[19], q[2], e.d[14]) &&
            Turned(e.d, m[2], k.lm) && CuesDepth(s.c, q[2], e.d) && e.d[16] == s.d[19] && Only(s, e, CHANGED + {8, 24})
  {
    hide Ranges, Halves, RtpsCore, AreMacs, Lands, CuesDepth, Turned, Rotates;
    Begins(s, k);
    var s0, sf, lm := s.(flag := {}), k.sf, k.lm;
    var s1 := RtpsCore(s0, 0, sf, lm, false);
    var s2 := RtpsCore(s1, 1, sf, lm, false);
    var s3 := RtpsCore(s2, 2, sf, lm, true);
    CoreKeepsFlags(s2, 2, sf, lm, true);
    CoreKeepsFlags(s1, 1, sf, lm, false);
    var m0, m1, m2, q0, q1, q2;
    m0, q0 := QuietCore(s0, 0, sf, lm, false);
    HalvesTurned(s0, s1, 0, m0, sf, lm);
    m1, q1 := QuietCore(s1, 1, sf, lm, false);
    HalvesTurned(s1, s2, 1, m1, sf, lm);
    m2, q2 := QuietCore(s2, 2, sf, lm, true);
    RotatesAlike(s, s0, 0, m0, s1.d[19], sf, lm);
    RotatesAlike(s, s1, 1, m1, s2.d[19], sf, lm);
    RotatesAlike(s, s2, 2, m2, s3.d[19], sf, lm);
    OnlyBoth(s0, s1, s2, CHANGED, CHANGED);
    OnlyBoth(s0, s2, s3, CHANGED, CHANGED + {8, 24});
    m, q := [m0, m1, m2], [q0, q1, q2];
  }

  lemma RotatesAlike(s: State, t: State, v: nat, m: Triple, z: int, sf: bool, lm: bool)
    requires Only(s, t, CHANGED) && v < 3
    ensures Rotates(t, v, m, z, sf, lm) == Rotates(s, v, m, z, sf, lm)
  {
    hide AreMacs, Dot, Lo, Hi;
    assert t.d[0] == s.d[0] && t.d[1] == s.d[1] && t.d[2] == s.d[2] && t.d[3] == s.d[3] && t.d[4] == s.d[4] && t.d[5] == s.d[5];
    assert Operand(t, v) == Operand(s, v) && Entries(t, 0) == Entries(s, 0) && Offset(t, 0) == Offset(s, 0);
    hide Entries, Operand, Offset;
    assert SumOf(t, 0, v, 0, 0) == SumOf(s, 0, v, 0, 0) && SumOf(t, 0, v, 0, 1) == SumOf(s, 0, v, 0, 1);
  }

  lemma CoreKeepsFlags(s: State, v: nat, sf: bool, lm: bool, last: bool)
    ensures RtpsCore(s, v, sf, lm, last).flag == {} ==> s.flag == {}
  {
    hide RtpsDepth, RtpsProject;
    ProjectKeepsFlags(RtpsDepth(s, v, sf, lm), last);
    DepthKeepsFlags(s, v, sf, lm);
  }

  lemma DepthKeepsFlags(s: State, v: nat, sf: bool, lm: bool)
    ensures s.flag <= RtpsDepth(s, v, sf, lm).flag
  {
    hide MatrixRow, IrFlags, SatIr, Shift, Wrap32, Wrap44, Outside;
  }

  lemma HalvesTurned(s: State, t: State, v: nat, m: Triple, sf: bool, lm: bool)
    requires Halves(s.d) && Turned(t.d, m, lm) && Rotates(s, v, m, t.d[19], sf, lm) && Only(s, t, CHANGED)
    ensures Halves(t.d)
  {
    hide AreMacs, SumOf;
    assert t.d[1] == s.d[1] && t.d[3] == s.d[3] && t.d[5] == s.d[5] && t.d[8] == s.d[8];
  }

  /** Where a vertex lands: within 2.25 pixels above and 3.25 below OFX / 10000h + IR1 * H / SZ3,
      and OFY / 10000h + IR2 * H / SZ3, for any 16-bit IR1 and IR2.  Both sides are multiplied
      by 20000h * SZ3. */
  lemma LandsClose(c: File, m: Triple, z: int, q: int, w: I32)
    requires Lands(c, m, z, q, w) && IsI16(m[0]) && IsI16(m[1]) && z > 0
    ensures var h := c[26] % 0x1_0000;
            Nearby(Lo(w), c[24], m[0], h, z) && Nearby(Hi(w), c[25], m[1], h, z)
  {
    hide Lo, Hi;
    PixelClose(Lo(w), c[24], m[0], c[26] % 0x1_0000, z, q);
    PixelClose(Hi(w), c[25], m[1], c[26] % 0x1_0000, z, q);
  }

  predicate Nearby(p: int, offset: int, ir: int, h: int, z: int) {
    -(9 * 0x8000 + 0x2_0000) * z <= 2 * (0x1_0000 * p * z - offset * z - ir * h * 0x1_0000) <= 9 * 0x8000 * z
  }

  lemma PixelClose(p: int, offset: int, ir: int, h: int, z: int, q: int)
    requires IsQuotient(q, h, z) && IsPixel(p, q * ir + offset) && IsI16(ir) && z > 0
    ensures Nearby(p, offset, ir, h, z)
  {
    var d := q * z - h * 0x1_0000;
    Spreads(d, ir, z);
    assert ir * d == q * ir * z - ir * h * 0x1_0000 by { Regroup(ir, q, z, h); }
    var r := q * ir + offset - 0x1_0000 * p;
    assert 0 <= r * z <= 0x1_0000 * z by { Bounded(r, z); }
    assert r * z == q * ir * z + offset * z - 0x1_0000 * p * z;
  }

  lemma Regroup(ir: int, q: int, z: int, h: int)
    ensures ir * (q * z - h * 0x1_0000) == q * ir * z - ir * h * 0x1_0000
  {
  }

  lemma Bounded(r: int, z: int)
    requires 0 <= r < 0x1_0000 && z > 0
    ensures 0 <= r * z <= 0x1_0000 * z
  {
  }

  lemma Spreads(d: int, ir: int, z: int)
    requires -9 * z <= 2 * d <= 9 * z && IsI16(ir) && z > 0
    ensures -9 * 0x8000 * z <= 2 * (ir * d) <= 9 * 0x8000 * z
  {
    var n := if ir < 0 then -ir else ir;
    assert -n * (9 * z) <= n * (2 * d) <= n * (9 * z);
    assert n * (9 * z) <= 0x8000 * (9 * z);
  }

  // ---- What saturates, and what is flagged --------------------------------------------------------

  predicate Fits44(v: int) { -TOP44 <= v < TOP44 }

  /** A channel raises a flag exactly when the exact sum leaves 44 bits after one of its
      products, and the first time it does says which. */
  lemma ChannelLaw(t: I32, p1: int, p2: int, p3: int, ch: int, a: int, b: int, c: int)
    requires IsProduct(p1) && IsProduct(p2) && IsProduct(p3) && 1 <= ch <= 3
    requires a == t * 0x1000 + p1 && b == a + p2 && c == b + p3
    ensures var f := Row(t, p1, p2, p3, ch).flags;
            (f == {} <==> Fits44(a) && Fits44(b) && Fits44(c)) && f <= {31 - ch, 28 - ch} &&
            (!Fits44(a) ==> Side(a, ch) in f) && (Fits44(a) && !Fits44(b) ==> Side(b, ch) in f) &&
            (Fits44(a) && Fits44(b) && !Fits44(c) ==> Side(c, ch) in f)
  {
    var a0 := Begin(t * 0x1000, ch);
    var a1 := Accumulate(a0, p1, ch);
    var a2 := Accumulate(a1, p2, ch);
    Overflow(t * 0x1000, ch);
    Overflow(a, ch);
    Overflow(a1.hw + p2, ch);
    Overflow(a2.hw + p3, ch);
    assert Fits44(t * 0x1000);
    hide MacFlags, Wrap44;
  }

  /** The flag for a sum beyond 44 bits: 30 to 28 above, 27 to 25 below. */
  function Side(v: int, ch: int): int { if v > 0 then 31 - ch else 28 - ch }

  lemma Overflow(v: int, n: int)
    ensures MacFlags(v, n) == if Fits44(v) then {} else {Side(v, n)}
    ensures Fits44(v) ==> Wrap44(v) == v
  {
  }

  /** MVMVA is a store of the exact sums, with the flags of the channels. */
  lemma MvmvaStage(s: State, sf: bool, lm: bool, mx: nat, v: nat, cv: nat)
    requires Halves(s.d) && cv != 2
    ensures Mvmva(s, sf, lm, mx, v, cv) ==
            StoreMacIr(s, SumOf(s, mx, v, cv, 0), SumOf(s, mx, v, cv, 1), SumOf(s, mx, v, cv, 2), sf, lm)
             .Raise(MatrixRow(s, mx, v, cv, 0).flags + MatrixRow(s, mx, v, cv, 1).flags + MatrixRow(s, mx, v, cv, 2).flags)
  {
    hide StoreMacIr, MatrixRow, SumOf, Halves;
    RowLaw(s, mx, v, cv, 0);
    RowLaw(s, mx, v, cv, 1);
    RowLaw(s, mx, v, cv, 2);
  }

  /** Toward the far colour with the distance u limited on the way: a store, with the flags of
      the distances and of their limits. */
  lemma InterpolateStage(s: State, x: Triple, sf: bool, lm: bool) returns (d: Triple, u: Triple, r: Triple, bits: set<int>)
    requires Halves(s.d)
    requires sf ==> Fits44(0x1000 * s.c[21] - x[0]) && Fits44(0x1000 * s.c[22] - x[1]) && Fits44(0x1000 * s.c[23] - x[2])
    ensures d == [0x1000 * s.c[21] - x[0], 0x1000 * s.c[22] - x[1], 0x1000 * s.c[23] - x[2]] && AreMacs(u, d, sf)
    ensures r == [Limited(u[0], -0x8000, 0x7FFF) * s.d[8] + x[0], Limited(u[1], -0x8000, 0x7FFF) * s.d[8] + x[1],
                  Limited(u[2], -0x8000, 0x7FFF) * s.d[8] + x[2]]
    ensures Interpolate(s, x[0], x[1], x[2], sf, lm) == StoreMacIr(s, r[0], r[1], r[2], sf, lm).Raise(bits)
    ensures forall b :: b in bits <==> DistanceFlag(d[0], u[0], 1, b) || DistanceFlag(d[1], u[1], 2, b) || DistanceFlag(d[2], u[2], 3, b)
  {
    hide *;
    d := [0x1000 * s.c[21] - x[0], 0x1000 * s.c[22] - x[1], 0x1000 * s.c[23] - x[2]];
    u := Distances(d, sf);
    DistancesAre(d, u, sf);
    r := [Limited(u[0], -0x8000, 0x7FFF) * s.d[8] + x[0], Limited(u[1], -0x8000, 0x7FFF) * s.d[8] + x[1],
          Limited(u[2], -0x8000, 0x7FFF) * s.d[8] + x[2]];
    bits := DistanceBits(d, u);
    InterpolateIs(s, x, sf, lm, d, u, r);
  }

  function Distances(d: Triple, sf: bool): Triple { [Wrap32(Shift(d[0], sf)), Wrap32(Shift(d[1], sf)), Wrap32(Shift(d[2], sf))] }

  lemma DistancesAre(d: Triple, u: Triple, sf: bool)
    requires u == Distances(d, sf) && (sf ==> Fits44(d[0]) && Fits44(d[1]) && Fits44(d[2]))
    ensures AreMacs(u, d, sf)
  {
    MacIs(d[0], sf);
    MacIs(d[1], sf);
    MacIs(d[2], sf);
    hide Wrap32, Shift, IsMac;
  }

  lemma InterpolateIs(s: State, x: Triple, sf: bool, lm: bool, d: Triple, u: Triple, r: Triple)
    requires Halves(s.d) && d == [0x1000 * s.c[21] - x[0], 0x1000 * s.c[22] - x[1], 0x1000 * s.c[23] - x[2]] && u == Distances(d, sf)
    requires r == [Limited(u[0], -0x8000, 0x7FFF) * s.d[8] + x[0], Limited(u[1], -0x8000, 0x7FFF) * s.d[8] + x[1],
                   Limited(u[2], -0x8000, 0x7FFF) * s.d[8] + x[2]]
    ensures Interpolate(s, x[0], x[1], x[2], sf, lm) ==
            StoreMacIr(s, r[0], r[1], r[2], sf, lm)
             .Raise(MacFlags(d[0], 1) + MacFlags(d[1], 2) + MacFlags(d[2], 3) +
                    IrFlags(u[0], 1, false) + IrFlags(u[1], 2, false) + IrFlags(u[2], 3, false))
  {
    hide *;
    var f := Factors(s, x[0], x[1], x[2], sf);
    FactorsAre(s, x, sf, d, u, f);
    InterpolateBy(s, x[0], x[1], x[2], sf, lm, f, d, u);
  }

  /** The distance of each channel, limited, times IR0. */
  function Factors(s: State, x: int, y: int, z: int, sf: bool): Triple {
    [SatIr(Wrap32(Shift(s.c[21] * 0x1000 - x, sf)), false) * s.Ir(0), SatIr(Wrap32(Shift(s.c[22] * 0x1000 - y, sf)), false) * s.Ir(0),
     SatIr(Wrap32(Shift(s.c[23] * 0x1000 - z, sf)), false) * s.Ir(0)]
  }

  lemma FactorsAre(s: State, x: Triple, sf: bool, d: Triple, u: Triple, f: Triple)
    requires Halves(s.d) && d == [0x1000 * s.c[21] - x[0], 0x1000 * s.c[22] - x[1], 0x1000 * s.c[23] - x[2]] && u == Distances(d, sf)
    requires f == Factors(s, x[0], x[1], x[2], sf)
    ensures f == [Limited(u[0], -0x8000, 0x7FFF) * s.d[8], Limited(u[1], -0x8000, 0x7FFF) * s.d[8], Limited(u[2], -0x8000, 0x7FFF) * s.d[8]]
  {
    Wrap16Is(s.d[8]);
    LimitIs(u[0]);
    LimitIs(u[1]);
    LimitIs(u[2]);
    hide Wrap16, Wrap32, Shift, SatIr, Limited;
    assert d[0] == s.c[21] * 0x1000 - x[0] && d[1] == s.c[22] * 0x1000 - x[1] && d[2] == s.c[23] * 0x1000 - x[2];
  }

  lemma InterpolateBy(s: State, x: int, y: int, z: int, sf: bool, lm: bool, f: Triple, d: Triple, u: Triple)
    requires f == Factors(s, x, y, z, sf) && u == Distances(d, sf)
    requires d[0] == s.c[21] * 0x1000 - x && d[1] == s.c[22] * 0x1000 - y && d[2] == s.c[23] * 0x1000 - z
    ensures Interpolate(s, x, y, z, sf, lm) ==
            StoreMacIr(s, f[0] + x, f[1] + y, f[2] + z, sf, lm)
             .Raise(MacFlags(d[0], 1) + MacFlags(d[1], 2) + MacFlags(d[2], 3) +
                    IrFlags(u[0], 1, false) + IrFlags(u[1], 2, false) + IrFlags(u[2], 3, false))
  {
    hide Wrap16, Wrap32, Shift, MacFlags, StoreMacIr, IrFlags, SatIr;
  }

  lemma LimitIs(u: int)
    ensures SatIr(u, false) == Limited(u, -0x8000, 0x7FFF)
  {
  }

  lemma DistanceBits(d: Triple, u: Triple) returns (bits: set<int>)
    ensures bits == MacFlags(d[0], 1) + MacFlags(d[1], 2) + MacFlags(d[2], 3) +
                    IrFlags(u[0], 1, false) + IrFlags(u[1], 2, false) + IrFlags(u[2], 3, false)
    ensures forall b :: b in bits <==> DistanceFlag(d[0], u[0], 1, b) || DistanceFlag(d[1], u[1], 2, b) || DistanceFlag(d[2], u[2], 3, b)
  {
    DistanceFlags(d[0], u[0], 1);
    DistanceFlags(d[1], u[1], 2);
    DistanceFlags(d[2], u[2], 3);
    hide MacFlags, IrFlags, DistanceFlag;
    bits := MacFlags(d[0], 1) + MacFlags(d[1], 2) + MacFlags(d[2], 3) +
            IrFlags(u[0], 1, false) + IrFlags(u[1], 2, false) + IrFlags(u[2], 3, false);
  }

  predicate DistanceFlag(d: int, u: int, ch: int, b: int) {
    (!Fits44(d) && b == Side(d, ch)) || (!IsI16(u) && b == 25 - ch)
  }

  lemma DistanceFlags(d: int, u: int, ch: int)
    ensures forall b :: b in MacFlags(d, ch) + IrFlags(u, ch, false) <==> DistanceFlag(d, u, ch, b)
  {
    Overflow(d, ch);
    IrFlagsAre(u, ch, false);
  }

  /** RTPS up to the depth: IR3's flag looks at a 4096th of the sum whatever the shift. */
  lemma RotatedStage(s: State, v: nat, m: Triple, sf: bool, lm: bool) returns (bits: set<int>)
    requires Halves(s.d) && m == Shifted(s, v, sf)
    ensures var t := Rotated(s, v, m, sf, lm);
            var low := if lm then 0 else -0x8000;
            t.d == s.d[25 := m[0]][26 := m[1]][27 := m[2]][9 := Limited(m[0], low, 0x7FFF)]
                      [10 := Limited(m[1], low, 0x7FFF)][11 := Limited(m[2], low, 0x7FFF)] &&
            t.flag == s.flag + (MatrixRow(s, 0, v, 0, 0).flags + MatrixRow(s, 0, v, 0, 1).flags + MatrixRow(s, 0, v, 0, 2).flags + bits)
    ensures var low := if lm then 0 else -0x8000;
            forall b :: b in bits <==> (b == 24 && !(low <= m[0] <= 0x7FFF)) || (b == 23 && !(low <= m[1] <= 0x7FFF)) ||
                                       (b == 22 && !IsI16(SumOf(s, 0, v, 0, 2) / 0x1000))
  {
    RowLaw(s, 0, v, 0, 2);
    hide MatrixRow, SumOf, Shift;
    bits := IrFlags(m[0], 1, lm) + IrFlags(m[1], 2, lm) + Outside(MatrixRow(s, 0, v, 0, 2).sum / 0x1000, -0x8000, 0x7FFF, 22);
  }

  /** The quotient is 1FFFFh where it would not be below 2. */
  lemma QuotientLaw(h: Division.Half, z: Division.Half)
    ensures if h < 2 * z then IsQuotient(Division.Divided(h, z), h, z) else Division.Divided(h, z) == 0x1_FFFF
  {
    hide Division.Divided;
    if h < 2 * z { QuotientIs(h, z); } else { OverflowIs(h, z); }
  }

  /** The perspective part in full, with its flags before the position is limited. */
  lemma ProjectStage(s: State, m: Triple, last: bool)
      returns (h: Division.Half, z: Division.Half, q: int, x: int, y: int, w: int)
    requires IsU16(s.d[19]) && s.d[9] == m[0] && s.d[10] == m[1] && IsI16(m[0]) && IsI16(m[1])
    ensures h == s.c[26] % 0x1_0000 && z == s.d[19] && q == Division.Divided(h, z)
    ensures x == q * m[0] + s.c[24] && y == q * m[1] + s.c[25] && w == Lo(s.c[27]) * q + s.c[28]
    ensures var t := PushSxy(s.Raise(ProjectBits(h, z, x, y)), x / 0x1_0000, y / 0x1_0000);
            RtpsProject(s, last) == if last then WithCue(t, w) else t
  {
    h, z, q, x, y, w := ProjectsBy(s, m, last);
    QuotientRange(q, m[0], s.c[24]);
    QuotientRange(q, m[1], s.c[25]);
    hide RtpsProject, WithCue, ProjectBits, Lo, Division.Divided, IsI16, IsU16, Wrap32, PushSxy;
  }

  lemma BitsAre(h: int, z: int, x: int, y: int)
    ensures forall b :: b in ProjectBits(h, z, x, y) <==>
              (b == 17 && h >= 2 * z) || (b == 16 && (x > 0x7FFF_FFFF || y > 0x7FFF_FFFF)) ||
              (b == 15 && (x < -0x8000_0000 || y < -0x8000_0000))
  {
  }

  lemma QuotientRange(q: int, f: int, o: I32)
    requires 0 <= q <= 0x1_FFFF && IsI16(f)
    ensures var x := q * f + o;
            Wrap32(x / 0x1_0000) == x / 0x1_0000
  {
    ProductBound(q, f);
    PixelFits(q * f + o);
  }

  lemma ProductBound(q: int, f: int)
    requires 0 <= q <= 0x1_FFFF && IsI16(f)
    ensures -0x8000 * 0x1_FFFF <= q * f <= 0x8000 * 0x1_FFFF
  {
    assert -0x8000 * q <= q * f <= 0x8000 * q;
  }

  lemma PixelFits(x: int)
    requires -0x4_0000_0000 <= x <= 0x4_0000_0000
    ensures Wrap32(x / 0x1_0000) == x / 0x1_0000
  {
  }

  /** The depth cue in full. */
  lemma CueStage(s: State, w: int)
    ensures var t := WithCue(s, w);
            IsMac(t.d[24], w, false) && t.d[8] == Limited(w / 0x1000, 0, 0x1000) &&
            Gains(s.flag, t.flag, 16, w > 0x7FFF_FFFF) && Gains(s.flag, t.flag, 15, w < -0x8000_0000) &&
            Gains(s.flag, t.flag, 12, !(0 <= w / 0x1000 <= 0x1000)) &&
            Only(s, t, {8, 24}) && forall bit :: bit !in {12, 15, 16} ==> Gains(s.flag, t.flag, bit, false)
  {
    MacIs(w, false);
  }

  lemma OverflowIs(h: Division.Half, z: Division.Half)
    requires h >= 2 * z
    ensures Division.Divided(h, z) == 0x1_FFFF
  {
    hide Division.Rounded;
  }

  /** The flags that the translation and the first product leave in MVMVA with the far colour. */
  lemma FarStage(s: State, sf: bool, mx: nat, v: nat, i: nat, d: int) returns (u: int)
    requires i < 3 && Halves(s.d) && d == Offset(s, 2)[i] * 0x1000 + Entries(s, mx)[i][0] * Operand(s, v)[0]
    ensures Fits44(d) || !sf ==> IsMac(u, d, sf)
    ensures forall b :: b in FarFlags(s, sf, mx, v, i) <==> DistanceFlag(d, u, i + 1, b)
  {
    MatrixIs(s, mx, i);
    VectorIs(s, v);
    OffsetIs(s, 2, i);
    u := Wrap32(Shift(d, sf));
    if Fits44(d) || !sf { MacIs(d, sf); }
    DistanceFlags(d, u, i + 1);
    hide Matrix, Vector, Translation, Entries, Operand, Offset, MacFlags, IrFlags, Wrap32, Shift, DistanceFlag, Halves;
  }

  /** MAC0 and OTZ in full. */
  lemma Mac0Stage(s: State, v: int)
    ensures var t := SetMac0(s, v);
            IsMac(t.d[24], v, false) && Only(s, t, {24}) && Gains(s.flag, t.flag, 16, v > 0x7FFF_FFFF) &&
            Gains(s.flag, t.flag, 15, v < -0x8000_0000) && forall b :: b !in {15, 16} ==> Gains(s.flag, t.flag, b, false)
    ensures var t, e := SetMac0(s, v), Average(s, v);
            e.d[7] == Limited(v / 0x1000, 0, 0xFFFF) && Only(t, e, {7}) &&
            Gains(t.flag, e.flag, 18, !(0 <= v / 0x1000 <= 0xFFFF)) && forall b :: b != 18 ==> Gains(t.flag, e.flag, b, false)
  {
    MacIs(v, false);
  }

  // ---- Register writes -------------------------------------------------------------------------

  /** IRGB: five bits of each colour, from the lowest, become IR1-IR3 in 128ths. */
  lemma IrgbLaw(s: State, v: I32, r: int, g: int, b: int)
    requires 0 <= r < 32 && 0 <= g < 32 && 0 <= b < 32 && v % 0x8000 == r + 0x20 * g + 0x400 * b
    ensures WriteData(s, 28, v) == s.(d := s.d[9 := 0x80 * r][10 := 0x80 * g][11 := 0x80 * b])
  {
    FivesAre(Unsigned(v), r, g, b);
  }

  lemma FivesAre(u: nat, r: int, g: int, b: int)
    requires 0 <= r < 32 && 0 <= g < 32 && 0 <= b < 32 && u % 0x8000 == r + 0x20 * g + 0x400 * b
    ensures u % 0x20 == r && u / 0x20 % 0x20 == g && u / 0x400 % 0x20 == b
  {
    var k := u / 0x8000;
    assert u == 0x8000 * k + r + 0x20 * g + 0x400 * b;
    assert u / 0x20 == 0x400 * k + g + 0x20 * b;
    assert u / 0x400 == 0x20 * k + b;
  }

  /** LZCS: LZCR counts the leading bits that are like the sign; n shifts to the left bring the
      first bit that is not to the top. */
  lemma LzcrLaw(s: State, v: I32, x: int, n: nat)
    requires x == (if v < 0 then -1 - (v as int) else v) && n <= 32
    requires if x == 0 then n == 32 else 0x8000_0000 <= x * Pow2(n) < 0x1_0000_0000
    ensures WriteData(s, 30, v) == s.(d := s.d[30 := v][31 := n])
  {
    hide Zeros;
    if x != 0 { ZerosAre(x, n, 32); }
  }

  lemma {:induction false} ZerosAre(x: nat, n: nat, limit: nat)
    requires n <= limit && 0x8000_0000 <= x * Pow2(n) < 0x1_0000_0000
    ensures Zeros(x, limit) == n
    decreases n
  {
    if n > 0 {
      assert x * Pow2(n) == 2 * x * Pow2(n - 1);
      Doubles(x, Pow2(n - 1));
      ZerosAre(2 * x, n - 1, limit - 1);
    }
  }

  lemma Doubles(x: nat, p: nat)
    requires p > 0 && 2 * x * p < 0x1_0000_0000
    ensures x < 0x8000_0000
  {
    assert x <= x * p && 2 * x * p == 2 * (x * p);
  }

  /** The other data registers: 16 bits with sign, 16 bits without, the screen FIFO, and the
      rest as they are. */
  lemma WriteLaw(s: State, reg: nat, v: I32)
    requires reg < 32 && reg != 28 && reg != 30
    ensures var t := WriteData(s, reg, v);
            if reg in {1, 3, 5, 8, 9, 10, 11} then t == s.(d := s.d[reg := Lo(v)])
            else if reg in {7, 16, 17, 18, 19} then t == s.(d := s.d[reg := v % 0x1_0000])
            else if reg == 15 then t == s.(d := s.d[12 := s.d[13]][13 := s.d[14]][14 := v][15 := v])
            else if reg in {29, 31} then t == s
            else t == s.(d := s.d[reg := v])
  {
    HalfIs(v);
  }

  /** Control registers: R33, L33, LB3, H, DQA, ZSF3 and ZSF4 keep 16 bits with sign; FLAG
      keeps bits 30 to 12 and sums up bits 30 to 23 and 18 to 13 in bit 31. */
  lemma ControlLaw(s: State, reg: nat, v: I32)
    requires reg < 32
    ensures var t := WriteCtrl(s, reg, v);
            if reg == 31 then
              t.d == s.d && t.c == s.c && (31 in t.flag <==> exists b :: b in t.flag && (23 <= b <= 30 || 13 <= b <= 18)) &&
              forall b :: b in t.flag && b != 31 <==> 12 <= b <= 30 && Unsigned(v) / Pow2(b) % 2 == 1
            else t == s.(c := s.c[reg := if reg in {4, 12, 20, 26, 27, 29, 30} then Lo(v) else v])
  {
    if reg == 31 { SummaryIs(BitsOf(v)); }
  }

  lemma SummaryIs(flag: set<int>)
    requires 31 !in flag
    ensures 31 in Summary(flag) <==> exists b :: b in flag && (23 <= b <= 30 || 13 <= b <= 18)
    ensures forall b :: b != 31 ==> (b in Summary(flag) <==> b in flag)
  {
    assert forall b :: b in ERRORS <==> 23 <= b <= 30 || 13 <= b <= 18;
    if flag !! ERRORS { } else {
      var b :| b in flag && b in ERRORS;
    }
  }
}
