/** The inverse DCT against cosines: each output is close to the sum of the inputs with the
    factors of the transform, for one line and for a block.  Then the zig-zag order and the
    values that the run-length data describes. */
module IdctLaws {
  import opened Arithmetic
  import opened Idct

  const UNIT := 1_000_000_000

  /** In billionths: the entry in row j and column k is cos((2j+1)kPi/16) / cos(kPi/16), and 1
      for k = 0; the divisors are left to the quantization table. */
  const COSINE: seq<seq<int>> := [
    [1000000000, 1000000000, 1000000000, 1000000000, 1000000000, 1000000000, 1000000000, 1000000000],
    [1000000000, 847759065, 414213562, -234633135, -1000000000, -1765366865, -2414213562, -2847759065],
    [1000000000, 566454497, -414213562, -1179580427, -1000000000, 351153302, 2414213562, 4261972627],
    [1000000000, 198912367, -1000000000, -668178638, 1000000000, 1496605763, -1000000000, -5027339492],
    [1000000000, -198912367, -1000000000, 668178638, 1000000000, -1496605763, -1000000000, 5027339492],
    [1000000000, -566454497, -414213562, 1179580427, -1000000000, -351153302, 2414213562, -4261972627],
    [1000000000, -847759065, 414213562, 234633135, -1000000000, 1765366865, -2414213562, 2847759065],
    [1000000000, -1000000000, 1000000000, -1000000000, 1000000000, -1000000000, 1000000000, -1000000000]
  ]

  /** Output j of the exact transform, in billionths. */
  function Ideal(j: int, l: seq<int>): int
    requires 0 <= j < 8 && |l| == 8
  {
    var c := COSINE[j];
    c[0] * l[0] + c[1] * l[1] + c[2] * l[2] + c[3] * l[3] + c[4] * l[4] + c[5] * l[5] + c[6] * l[6] + c[7] * l[7]
  }

  /** How large the inputs after the first are together. */
  function Norm(l: seq<int>): nat
    requires |l| == 8
  {
    Abs(l[1]) + Abs(l[2]) + Abs(l[3]) + Abs(l[4]) + Abs(l[5]) + Abs(l[6]) + Abs(l[7])
  }

  // ---- Without wrap-around ------------------------------------------------------------------

  const TWO32 := 0x1_0000_0000

  lemma InRange(x: int)
    requires -0x8000_0000 <= x < 0x8000_0000
    ensures Wrap(x) == x
  {
  }

  lemma AddIs(a: Int32, b: Int32)
    requires -0x8000_0000 <= a + b < 0x8000_0000
    ensures Add(a, b) == a + b
  {
    InRange(a + b);
  }

  lemma SubIs(a: Int32, b: Int32)
    requires -0x8000_0000 <= a - b < 0x8000_0000
    ensures Sub(a, b) == a - b
  {
    InRange(a - b);
  }

  lemma MulIs(a: Int32, c: Int32)
    requires -0x8000_0000 <= a * c < 0x8000_0000
    ensures Mul(a, c) == a * c
  {
    InRange(a * c);
  }

  lemma Wraps(x: int) returns (k: int)
    ensures Wrap(x) == x + k * TWO32
  {
    k := -((x + 0x8000_0000) / TWO32);
  }

  lemma Unwraps(r: Int32, x: int, k: int)
    requires x == r + k * TWO32
    ensures Wrap(x) == r
  {
    var y := r + 0x8000_0000;
    Residue(x + 0x8000_0000, k, y);
  }

  lemma Residue(x: int, k: int, y: int)
    requires 0 <= y < TWO32 && x == y + k * TWO32
    ensures x % TWO32 == y
  {
  }

  /** What wraps around on the way does no harm if the sum does not. */
  lemma SumsInRange(x: int, y: int)
    ensures -0x8000_0000 <= x + y < 0x8000_0000 ==> Add(Wrap(x), Wrap(y)) == x + y
    ensures -0x8000_0000 <= x - y < 0x8000_0000 ==> Sub(Wrap(x), Wrap(y)) == x - y
  {
    hide Wrap;
    var k := Wraps(x);
    var l := Wraps(y);
    if -0x8000_0000 <= x + y < 0x8000_0000 { Unwraps(x + y, Wrap(x) + Wrap(y), k + l); }
    if -0x8000_0000 <= x - y < 0x8000_0000 { Unwraps(x - y, Wrap(x) - Wrap(y), k - l); }
  }

  /** x / 4096, rounded down. */
  predicate IsScaled(s: int, x: int) { 4096 * s <= x < 4096 * s + 4096 }

  lemma ScaleIs(x: Int32)
    ensures IsScaled(Scale(x), x)
  {
  }

  /** Inputs small enough for the line to be transformed without wrapping around. */
  predicate Small(p: Line) { Abs(p[0]) <= 0x1000_0000 && Norm(p) <= 280_000 }

  predicate Within(x: int, n: nat) { x <= n && -x <= n }

  lemma AbsIs(x: int)
    ensures x <= Abs(x) && -x <= Abs(x)
  {
  }

  /** Sums and differences of inputs after the first. */
  lemma SmallSums(p: Line)
    requires Small(p)
    ensures Within(p[0], 0x1000_0000) && Within(p[4], 280_000)
    ensures Within(p[2] + p[6], 280_000) && Within(p[2] - p[6], 280_000)
    ensures Within(p[1] + p[7], 280_000) && Within(p[1] - p[7], 280_000)
    ensures Within(p[3] + p[5], 280_000) && Within(p[3] - p[5], 280_000)
    ensures Within(p[1] + p[7] + (p[3] + p[5]), 280_000) && Within(p[1] + p[7] - (p[3] + p[5]), 280_000)
    ensures Within(p[1] - p[7] + (p[3] - p[5]), 280_000) && Within(p[1] - p[7] - (p[3] - p[5]), 280_000)
  {
    hide Abs;
    AbsIs(p[0]);
    AbsIs(p[1]);
    AbsIs(p[2]);
    AbsIs(p[3]);
    AbsIs(p[4]);
    AbsIs(p[5]);
    AbsIs(p[6]);
    AbsIs(p[7]);
  }

  /** The even half; f is 1.41 times the difference of inputs 2 and 6. */
  lemma EvenIs(p: Line) returns (f: Int32)
    requires Small(p)
    ensures IsScaled(f, 5793 * (p[2] - p[6]))
    ensures var z := f - p[2] - p[6];
            Even(p) == (p[0] + p[4] + p[2] + p[6], p[0] - p[4] + z, p[0] - p[4] - z, p[0] + p[4] - p[2] - p[6])
  {
    SmallSums(p);
    hide Wrap, Add, Sub, Mul, Scale, MulScaled, Small, Even;
    SubIs(p[2], p[6]);
    AddIs(p[2], p[6]);
    f := Root(p[2] - p[6]);
    SubIs(f, p[2] + p[6]);
    AddIs(p[0], p[4]);
    SubIs(p[0], p[4]);
    AddIs(p[0] + p[4], p[2] + p[6]);
    SubIs(p[0] + p[4], p[2] + p[6]);
    var z := f - (p[2] + p[6]);
    AddIs(p[0] - p[4], z);
    SubIs(p[0] - p[4], z);
    EvenFrom(p, p[0] + p[4], p[0] - p[4], z, p[2] + p[6]);
  }

  lemma EvenFrom(p: Line, z10: Int32, z11: Int32, z12: Int32, z13: Int32)
    requires z10 == Add(p[0], p[4]) && z11 == Sub(p[0], p[4]) && z13 == Add(p[2], p[6])
    requires z12 == Sub(MulScaled(Sub(p[2], p[6]), FIX_1_41), z13)
    ensures Even(p) == (Add(z10, z13), Add(z11, z12), Sub(z11, z12), Sub(z10, z13))
  {
    hide Add, Sub, MulScaled;
  }

  lemma Root(d: Int32) returns (f: Int32)
    requires Within(d, 280_000)
    ensures IsScaled(f, 5793 * d) && f == MulScaled(d, FIX_1_41) && Within(f, 400_000)
  {
    hide Wrap, Mul, Scale;
    MulIs(d, FIX_1_41);
    f := Scale(d * FIX_1_41);
    ScaleIs(d * FIX_1_41);
  }

  /** The odd half from the sums and differences of its inputs; g and h are its products. */
  lemma OddSums(z10: Int32, z12: Int32) returns (g: Int32, h: Int32)
    requires Within(z10, 280_000) && Within(z12, 280_000) && Within(z12 + z10, 280_000) && Within(z12 - z10, 280_000)
    ensures IsScaled(g, 3135 * z10 + 7568 * z12) && IsScaled(h, 7568 * z10 - 3135 * z12)
    ensures Within(g, 600_000) && Within(h, 600_000)
    ensures var z5 := Mul(Sub(z12, z10), FIX_1_84);
            g == Scale(Add(Mul(z10, FIX_2_61), z5)) && h == Scale(Sub(Mul(z12, FIX_1_08), z5))
  {
    hide Wrap, Add, Sub, Mul, Scale;
    SubIs(z12, z10);
    var b, c, d := (z12 - z10) * FIX_1_84, z10 * FIX_2_61, z12 * FIX_1_08;
    Products(z10, z12, b, c, d);
    SumsInRange(c, b);
    SumsInRange(d, b);
    MulWraps(z12 - z10, FIX_1_84);
    MulWraps(z10, FIX_2_61);
    MulWraps(z12, FIX_1_08);
    g, h := Scale(c + b), Scale(d - b);
    ScaleIs(c + b);
    ScaleIs(d - b);
  }

  /** The outputs of the odd half. */
  lemma OddValues(z10: Int32, z11: Int32, z12: Int32, z13: Int32) returns (f: Int32, g: Int32, h: Int32, t: (Int32, Int32, Int32, Int32))
    requires Within(z10, 280_000) && Within(z12, 280_000) && Within(z12 + z10, 280_000) && Within(z12 - z10, 280_000)
    requires Within(z11 + z13, 280_000) && Within(z11 - z13, 280_000)
    ensures IsScaled(f, 5793 * (z11 - z13)) && IsScaled(g, 3135 * z10 + 7568 * z12) && IsScaled(h, 7568 * z10 - 3135 * z12)
    ensures t.3 == z11 + z13 && t.2 == g - t.3 && t.1 == f - t.2 && t.0 == h + t.1
    ensures var z5 := Mul(Sub(z12, z10), FIX_1_84);
            t.3 == Add(z11, z13) && t.2 == Sub(Scale(Add(Mul(z10, FIX_2_61), z5)), t.3) &&
            t.1 == Sub(MulScaled(Sub(z11, z13), FIX_1_41), t.2) && t.0 == Add(Scale(Sub(Mul(z12, FIX_1_08), z5)), t.1)
  {
    hide Wrap, Add, Sub, Mul, Scale, MulScaled, IsScaled;
    AddIs(z11, z13);
    SubIs(z11, z13);
    f := Root(z11 - z13);
    g, h := OddSums(z10, z12);
    var t7 := z11 + z13;
    SubIs(g, t7);
    var t6 := g - t7;
    SubIs(f, t6);
    var t5 := f - t6;
    AddIs(h, t5);
    t := (h + t5, t5, t6, t7);
  }

  lemma OddIs(p: Line) returns (f: Int32, g: Int32, h: Int32)
    requires Small(p)
    ensures IsScaled(f, 5793 * ((p[1] + p[7]) - (p[3] + p[5])))
    ensures IsScaled(g, 3135 * (p[3] - p[5]) + 7568 * (p[1] - p[7]))
    ensures IsScaled(h, 7568 * (p[3] - p[5]) - 3135 * (p[1] - p[7]))
    ensures Odd(p).3 == (p[1] + p[7]) + (p[3] + p[5]) && Odd(p).2 == g - Odd(p).3
    ensures Odd(p).1 == f - Odd(p).2 && Odd(p).0 == h + Odd(p).1
  {
    SmallSums(p);
    hide *;
    var z10, z11, z12, z13 := Sub(p[3], p[5]), Add(p[1], p[7]), Sub(p[1], p[7]), Add(p[3], p[5]);
    SumsIn(p[3], p[5]);
    SumsIn(p[1], p[7]);
    var t;
    f, g, h, t := OddValues(z10, z11, z12, z13);
    OddFrom(p, z10, z11, z12, z13, t.0, t.1, t.2, t.3);
  }

  lemma SumsIn(a: Int32, b: Int32)
    requires Within(a + b, 280_000) && Within(a - b, 280_000)
    ensures Add(a, b) == a + b && Sub(a, b) == a - b
  {
    AddIs(a, b);
    SubIs(a, b);
  }

  lemma OddFrom(p: Line, z10: Int32, z11: Int32, z12: Int32, z13: Int32, t4: Int32, t5: Int32, t6: Int32, t7: Int32)
    requires z10 == Sub(p[3], p[5]) && z11 == Add(p[1], p[7]) && z12 == Sub(p[1], p[7]) && z13 == Add(p[3], p[5])
    requires var z5 := Mul(Sub(z12, z10), FIX_1_84);
             t7 == Add(z11, z13) && t6 == Sub(Scale(Add(Mul(z10, FIX_2_61), z5)), t7) &&
             t5 == Sub(MulScaled(Sub(z11, z13), FIX_1_41), t6) && t4 == Add(Scale(Sub(Mul(z12, FIX_1_08), z5)), t5)
    ensures Odd(p) == (t4, t5, t6, t7)
  {
    hide Add, Sub, Mul, Scale, MulScaled;
  }

  lemma MulWraps(a: Int32, c: Int32)
    ensures Mul(a, c) == Wrap(a * c)
  {
  }

  lemma Products(z10: int, z12: int, b: int, c: int, d: int)
    requires Within(z12 + z10, 280_000) && Within(z12 - z10, 280_000)
    requires b == (z12 - z10) * 7568 && c == z10 * 10703 && d == z12 * 4433
    ensures c + b == 3135 * z10 + 7568 * z12 && d - b == 7568 * z10 - 3135 * z12
    ensures -0x8000_0000 <= c + b < 0x8000_0000 && -0x8000_0000 <= d - b < 0x8000_0000
  {
  }

  // ---- One line --------------------------------------------------------------------------------

  /** Within 3 and a 4000th of n of the ideal value. */
  predicate Near(x: int, ideal: int, n: nat) {
    UNIT * x - ideal <= 3 * UNIT + 250_000 * n && ideal - UNIT * x <= 3 * UNIT + 250_000 * n
  }

  lemma Joined(p: Line, t: (Int32, Int32, Int32, Int32), u: (Int32, Int32, Int32, Int32))
    requires t == Even(p) && u == Odd(p)
    requires Within(t.0, 0x2000_0000) && Within(t.1, 0x2000_0000) && Within(t.2, 0x2000_0000) && Within(t.3, 0x2000_0000)
    requires Within(u.0, 0x2000_0000) && Within(u.1, 0x2000_0000) && Within(u.2, 0x2000_0000) && Within(u.3, 0x2000_0000)
    ensures Butterfly(p) == [t.0 + u.3, t.1 + u.2, t.2 + u.1, t.3 - u.0, t.3 + u.0, t.2 - u.1, t.1 - u.2, t.0 - u.3]
  {
    hide Even, Odd, Add, Sub;
    AddIs(t.0, u.3);
    AddIs(t.1, u.2);
    AddIs(t.2, u.1);
    SubIs(t.3, u.0);
    AddIs(t.3, u.0);
    SubIs(t.2, u.1);
    SubIs(t.1, u.2);
    SubIs(t.0, u.3);
  }

  lemma Close0(p: seq<int>)
    requires |p| == 8
    ensures Near(p[0] + p[4] + p[2] + p[6] + (p[1] + p[7] + p[3] + p[5]), Ideal(0, p), Norm(p))
    ensures Near(p[0] + p[4] + p[2] + p[6] - (p[1] + p[7] + p[3] + p[5]), Ideal(7, p), Norm(p))
  {
    hide Abs;
    AllAbs(p);
    assert COSINE[0] == [1000000000, 1000000000, 1000000000, 1000000000, 1000000000, 1000000000, 1000000000, 1000000000];
    assert COSINE[7] == [1000000000, -1000000000, 1000000000, -1000000000, 1000000000, -1000000000, 1000000000, -1000000000];
  }

  lemma Close1(p: seq<int>, e: int, g: int)
    requires |p| == 8
    requires IsScaled(e, 5793 * (p[2] - p[6]))
    requires IsScaled(g, 3135 * (p[3] - p[5]) + 7568 * (p[1] - p[7]))
    ensures Near(p[0] - p[4] + (e - p[2] - p[6]) + (g - (p[1] + p[7] + p[3] + p[5])), Ideal(1, p), Norm(p))
    ensures Near(p[0] - p[4] + (e - p[2] - p[6]) - (g - (p[1] + p[7] + p[3] + p[5])), Ideal(6, p), Norm(p))
  {
    hide Abs;
    AllAbs(p);
    assert COSINE[1] == [1000000000, 847759065, 414213562, -234633135, -1000000000, -1765366865, -2414213562, -2847759065];
    assert COSINE[6] == [1000000000, -847759065, 414213562, 234633135, -1000000000, 1765366865, -2414213562, 2847759065];
  }

  lemma Close2(p: seq<int>, e: int, f: int, g: int)
    requires |p| == 8
    requires IsScaled(e, 5793 * (p[2] - p[6]))
    requires IsScaled(f, 5793 * (p[1] + p[7] - p[3] - p[5]))
    requires IsScaled(g, 3135 * (p[3] - p[5]) + 7568 * (p[1] - p[7]))
    ensures Near(p[0] - p[4] - (e - p[2] - p[6]) + (f - g + (p[1] + p[7] + p[3] + p[5])), Ideal(2, p), Norm(p))
    ensures Near(p[0] - p[4] - (e - p[2] - p[6]) - (f - g + (p[1] + p[7] + p[3] + p[5])), Ideal(5, p), Norm(p))
  {
    hide Abs;
    AllAbs(p);
    assert COSINE[2] == [1000000000, 566454497, -414213562, -1179580427, -1000000000, 351153302, 2414213562, 4261972627];
    assert COSINE[5] == [1000000000, -566454497, -414213562, 1179580427, -1000000000, -351153302, 2414213562, -4261972627];
  }

  lemma Close3(p: seq<int>, f: int, g: int, h: int)
    requires |p| == 8
    requires IsScaled(f, 5793 * (p[1] + p[7] - p[3] - p[5]))
    requires IsScaled(g, 3135 * (p[3] - p[5]) + 7568 * (p[1] - p[7]))
    requires IsScaled(h, 7568 * (p[3] - p[5]) - 3135 * (p[1] - p[7]))
    ensures Near(p[0] + p[4] - p[2] - p[6] - (h + f - g + (p[1] + p[7] + p[3] + p[5])), Ideal(3, p), Norm(p))
    ensures Near(p[0] + p[4] - p[2] - p[6] + (h + f - g + (p[1] + p[7] + p[3] + p[5])), Ideal(4, p), Norm(p))
  {
    hide Abs;
    AllAbs(p);
    assert COSINE[3] == [1000000000, 198912367, -1000000000, -668178638, 1000000000, 1496605763, -1000000000, -5027339492];
    assert COSINE[4] == [1000000000, -198912367, -1000000000, 668178638, 1000000000, -1496605763, -1000000000, 5027339492];
  }

  lemma AllAbs(p: seq<int>)
    requires |p| == 8
    ensures forall k :: 0 <= k < 8 ==> p[k] <= Abs(p[k]) && -p[k] <= Abs(p[k])
  {
  }

  /** Each output of a small line is close to the sum of the inputs with their cosines. */
  lemma LineIsClose(p: Line, j: int)
    requires Small(p) && 0 <= j < 8
    ensures Near(Butterfly(p)[j], Ideal(j, p), Norm(p))
  {
    hide Near, Ideal, Norm, Butterfly, Even, Odd;
    var e := EvenIs(p);
    var f, g, h := OddIs(p);
    SmallSums(p);
    Joined(p, Even(p), Odd(p));
    if j == 0 || j == 7 { Close0(p); }
    else if j == 1 || j == 6 { Close1(p, e, g); }
    else if j == 2 || j == 5 { Close2(p, e, f, g); }
    else { Close3(p, f, g, h); }
  }

  // ---- A block -----------------------------------------------------------------------------------

  /** Column u, from the top down. */
  function Down(b: Block, u: int): (l: seq<int>)
    requires 0 <= u < 8
    ensures |l| == 8
  {
    [b[u], b[8 + u], b[16 + u], b[24 + u], b[32 + u], b[40 + u], b[48 + u], b[56 + u]]
  }

  /** How large all entries but the first are together: the top row, then the columns below it. */
  function Weight(b: Block): nat {
    Norm(b[..8]) + Norm(Down(b, 0)) + Norm(Down(b, 1)) + Norm(Down(b, 2)) + Norm(Down(b, 3)) +
    Norm(Down(b, 4)) + Norm(Down(b, 5)) + Norm(Down(b, 6)) + Norm(Down(b, 7))
  }

  /** Row y after the exact transform of the columns. */
  function Middle(b: Block, y: int): (l: seq<int>)
    requires 0 <= y < 8
    ensures |l| == 8
  {
    [Ideal(y, Down(b, 0)), Ideal(y, Down(b, 1)), Ideal(y, Down(b, 2)), Ideal(y, Down(b, 3)),
     Ideal(y, Down(b, 4)), Ideal(y, Down(b, 5)), Ideal(y, Down(b, 6)), Ideal(y, Down(b, 7))]
  }

  /** The row of the block after the first pass. */
  function AfterColumns(b: Block, y: int): (l: Line)
    requires 0 <= y < 8
  {
    [Butterfly(Column(b, 0))[y], Butterfly(Column(b, 1))[y], Butterfly(Column(b, 2))[y], Butterfly(Column(b, 3))[y],
     Butterfly(Column(b, 4))[y], Butterfly(Column(b, 5))[y], Butterfly(Column(b, 6))[y], Butterfly(Column(b, 7))[y]]
  }

  lemma FullIs(b: Block, y: int, x: int)
    requires 0 <= y < 8 && 0 <= x < 8
    ensures Full(b)[8 * y + x] == Butterfly(AfterColumns(b, y))[x]
  {
    hide Butterfly;
    var c := ColumnPass(b);
    forall u | 0 <= u < 8 ensures c[8 * y + u] == AfterColumns(b, y)[u] {
      assert (8 * y + u) % 8 == u && (8 * y + u) / 8 == y;
    }
    assert Row(c, y) == AfterColumns(b, y);
    assert (8 * y + x) % 8 == x && (8 * y + x) / 8 == y;
  }

  /** No factor is above 5.03, and those of one output are below 11.4 together. */
  lemma IdealBound(j: int, l: seq<int>)
    requires 0 <= j < 8 && |l| == 8
    ensures Abs(Ideal(j, l)) <= UNIT * Abs(l[0]) + 5_028_000_000 * Norm(l)
  {
    hide Abs;
    AllAbs(l);
    AbsIs(Ideal(j, l));
    BoundIs(j, l);
    AbsCases(Ideal(j, l));
  }

  lemma AbsCases(x: int)
    ensures Abs(x) == x || Abs(x) == -x
  {
  }

  lemma BoundIs(j: int, l: seq<int>)
    requires 0 <= j < 8 && |l| == 8
    ensures Ideal(j, l) <= UNIT * Abs(l[0]) + 5_028_000_000 * Norm(l)
    ensures -Ideal(j, l) <= UNIT * Abs(l[0]) + 5_028_000_000 * Norm(l)
  {
    hide Abs;
    AllAbs(l);
    Factors(j);
  }

  lemma Factors(j: int)
    requires 0 <= j < 8
    ensures j == 0 ==> COSINE[j] == [1000000000, 1000000000, 1000000000, 1000000000, 1000000000, 1000000000, 1000000000, 1000000000]
    ensures j == 1 ==> COSINE[j] == [1000000000, 847759065, 414213562, -234633135, -1000000000, -1765366865, -2414213562, -2847759065]
    ensures j == 2 ==> COSINE[j] == [1000000000, 566454497, -414213562, -1179580427, -1000000000, 351153302, 2414213562, 4261972627]
    ensures j == 3 ==> COSINE[j] == [1000000000, 198912367, -1000000000, -668178638, 1000000000, 1496605763, -1000000000, -5027339492]
    ensures j == 4 ==> COSINE[j] == [1000000000, -198912367, -1000000000, 668178638, 1000000000, -1496605763, -1000000000, 5027339492]
    ensures j == 5 ==> COSINE[j] == [1000000000, -566454497, -414213562, 1179580427, -1000000000, -351153302, 2414213562, -4261972627]
    ensures j == 6 ==> COSINE[j] == [1000000000, -847759065, 414213562, 234633135, -1000000000, 1765366865, -2414213562, 2847759065]
    ensures j == 7 ==> COSINE[j] == [1000000000, -1000000000, 1000000000, -1000000000, 1000000000, -1000000000, 1000000000, -1000000000]
  {
  }

  lemma Term(c: int, d: int, e: nat, n: nat)
    requires d <= e && -d <= e && Abs(c) <= 5_028_000_000 && e == 3 * UNIT + 250_000 * n
    ensures c * d <= 3 * UNIT * Abs(c) + 1_257_000 * UNIT * n && -(c * d) <= 3 * UNIT * Abs(c) + 1_257_000 * UNIT * n
  {
    assert c * d <= Abs(c) * e && -(c * d) <= Abs(c) * e;
    assert Abs(c) * e == 3 * UNIT * Abs(c) + 250_000 * (Abs(c) * n);
    assert Abs(c) * n <= 5_028_000_000 * n;
  }

  /** The factors of one output together. */
  lemma FactorSum(x: int)
    requires 0 <= x < 8
    ensures var c := COSINE[x];
            (forall u :: 0 <= u < 8 ==> Abs(c[u]) <= 5_028_000_000) &&
            Abs(c[0]) + Abs(c[1]) + Abs(c[2]) + Abs(c[3]) + Abs(c[4]) + Abs(c[5]) + Abs(c[6]) + Abs(c[7]) <= 11_400_000_000
  {
    Factors(x);
  }

  /** What the columns are off by reaches output x of a row through its factors. */
  lemma Spread(x: int, q: seq<int>, i: seq<int>, n: seq<nat>)
    requires 0 <= x < 8 && |q| == |i| == |n| == 8 && forall u :: 0 <= u < 8 ==> Near(q[u], i[u], n[u])
    ensures var e := 35 * UNIT * UNIT + 1_257_000 * UNIT * (n[0] + n[1] + n[2] + n[3] + n[4] + n[5] + n[6] + n[7]);
            UNIT * Ideal(x, q) - Ideal(x, i) <= e && Ideal(x, i) - UNIT * Ideal(x, q) <= e
  {
    hide Abs;
    FactorSum(x);
    var c := COSINE[x];
    forall u | 0 <= u < 8
      ensures var t := 3 * UNIT * Abs(c[u]) + 1_257_000 * UNIT * n[u];
              UNIT * (c[u] * q[u]) - c[u] * i[u] <= t && c[u] * i[u] - UNIT * (c[u] * q[u]) <= t
    {
      Term(c[u], UNIT * q[u] - i[u], 3 * UNIT + 250_000 * n[u], n[u]);
      Apart(c[u], q[u], i[u]);
    }
  }

  lemma Apart(c: int, q: int, i: int)
    ensures c * (UNIT * q - i) == UNIT * (c * q) - c * i
  {
  }

  /** A block that is transformed without wrapping around. */
  predicate Tame(b: Block) { Abs(b[0]) <= 0x800_0000 && Weight(b) <= 50_000 }

  lemma ColumnNear(b: Block, y: int, u: int)
    requires Tame(b) && 0 <= y < 8 && 0 <= u < 8
    ensures Near(AfterColumns(b, y)[u], Middle(b, y)[u], Norm(Down(b, u)))
    ensures UNIT * Abs(AfterColumns(b, y)[u]) <= UNIT * Abs(b[u]) + 5_028_250_000 * Norm(Down(b, u)) + 3 * UNIT
  {
    hide Butterfly, Ideal, Abs;
    var q, i, n := AfterColumns(b, y)[u], Ideal(y, Down(b, u)), Norm(Down(b, u));
    assert Column(b, u) == Down(b, u);
    assert Abs(b[u]) <= Abs(b[0]) + Norm(b[..8]);
    LineIsClose(Column(b, u), y);
    IdealBound(y, Down(b, u));
    AbsIs(i);
    AbsCases(q);
  }

  lemma RowSmall(b: Block, y: int)
    requires Tame(b) && 0 <= y < 8
    ensures Small(AfterColumns(b, y))
    ensures UNIT * Norm(AfterColumns(b, y)) <= 5_028_250_000 * Weight(b) + 21 * UNIT
  {
    hide Abs, AfterColumns, Down, Near, Middle;
    var q := AfterColumns(b, y);
    assert forall u :: 0 <= u < 8 ==> b[..8][u] == b[u];
    ColumnNear(b, y, 0);
    ColumnNear(b, y, 1);
    ColumnNear(b, y, 2);
    ColumnNear(b, y, 3);
    ColumnNear(b, y, 4);
    ColumnNear(b, y, 5);
    ColumnNear(b, y, 6);
    ColumnNear(b, y, 7);
  }

  function Norms(b: Block): (n: seq<nat>)
    ensures |n| == 8 && n[0] + n[1] + n[2] + n[3] + n[4] + n[5] + n[6] + n[7] <= Weight(b)
  {
    [Norm(Down(b, 0)), Norm(Down(b, 1)), Norm(Down(b, 2)), Norm(Down(b, 3)),
     Norm(Down(b, 4)), Norm(Down(b, 5)), Norm(Down(b, 6)), Norm(Down(b, 7))]
  }

  /** Each output of a tame block is within 39 and a 330th of its weight of the double sum of
      the inputs with their cosines; a grey level is 1024. */
  lemma BlockIsClose(b: Block, y: int, x: int)
    requires Tame(b) && 0 <= y < 8 && 0 <= x < 8
    ensures var e := 39 * UNIT * UNIT + 3_000_000 * UNIT * Weight(b);
            var ideal := Ideal(x, Middle(b, y));
            UNIT * UNIT * Full(b)[8 * y + x] - ideal <= e && ideal - UNIT * UNIT * Full(b)[8 * y + x] <= e
  {
    hide Butterfly, AfterColumns, Middle, Ideal, Full, Tame, Small, Weight, Norms, Norm;
    var q, n := AfterColumns(b, y), Norms(b);
    FullIs(b, y, x);
    RowSmall(b, y);
    LineIsClose(q, x);
    ColumnsNear(b, y);
    Spread(x, q, Middle(b, y), n);
    hide Near;
    Together(Full(b)[8 * y + x], Ideal(x, q), Ideal(x, Middle(b, y)), Norm(q),
             n[0] + n[1] + n[2] + n[3] + n[4] + n[5] + n[6] + n[7], Weight(b));
  }

  lemma ColumnsNear(b: Block, y: int)
    requires Tame(b) && 0 <= y < 8
    ensures forall u :: 0 <= u < 8 ==> Near(AfterColumns(b, y)[u], Middle(b, y)[u], Norms(b)[u])
  {
    hide Near, AfterColumns, Middle, Norm, Tame, Down;
    forall u | 0 <= u < 8 ensures Near(AfterColumns(b, y)[u], Middle(b, y)[u], Norms(b)[u]) { ColumnNear(b, y, u); }
  }

  lemma Together(out: int, row: int, ideal: int, norm: nat, n: nat, w: nat)
    requires Near(out, row, norm) && UNIT * norm <= 5_028_250_000 * w + 21 * UNIT && n <= w
    requires UNIT * row - ideal <= 35 * UNIT * UNIT + 1_257_000 * UNIT * n
    requires ideal - UNIT * row <= 35 * UNIT * UNIT + 1_257_000 * UNIT * n
    ensures UNIT * UNIT * out - ideal <= 39 * UNIT * UNIT + 3_000_000 * UNIT * w
    ensures ideal - UNIT * UNIT * out <= 39 * UNIT * UNIT + 3_000_000 * UNIT * w
  {
  }

  // ---- Run-length data -----------------------------------------------------------------------------

  /** The place after (r, c) on the zig-zag way through the block: up and to the right on even
      diagonals, down and to the left on odd ones, turning at the edges. */
  function ZigZag(r: int, c: int): (int, int) {
    if (r + c) % 2 == 0 then if c == 7 then (r + 1, c) else if r == 0 then (r, c + 1) else (r - 1, c + 1)
    else if r == 7 then (r, c + 1) else if c == 0 then (r + 1, c) else (r + 1, c - 1)
  }

  lemma ZigZagOrder(k: int)
    requires 0 <= k < 63
    ensures ZSCAN[0] == 0
    ensures (ZSCAN[k + 1] / 8, ZSCAN[k + 1] % 8) == ZigZag(ZSCAN[k] / 8, ZSCAN[k] % 8)
  {
    if k < 16 { ZigZagFrom0(k); } else if k < 32 { ZigZagFrom16(k); } else if k < 48 { ZigZagFrom32(k); } else { ZigZagFrom48(k); }
    assert Steps(k);
  }

  predicate Steps(k: int)
    requires 0 <= k < 63
  {
    (ZSCAN[k + 1] / 8, ZSCAN[k + 1] % 8) == ZigZag(ZSCAN[k] / 8, ZSCAN[k] % 8)
  }

  lemma ZigZagFrom0(k: int)
    requires 0 <= k < 16
    ensures Steps(k)
  {
  }

  lemma ZigZagFrom16(k: int)
    requires 16 <= k < 32
    ensures Steps(k)
  {
  }

  lemma ZigZagFrom32(k: int)
    requires 32 <= k < 48
    ensures Steps(k)
  {
  }

  lemma ZigZagFrom48(k: int)
    requires 48 <= k < 63
    ensures Steps(k)
  {
  }

  /** Where on the way each place of the block is. */
  const WAY: seq<int> :=
    [0, 1, 5, 6, 14, 15, 27, 28] +
    [2, 4, 7, 13, 16, 26, 29, 42] +
    [3, 8, 12, 17, 25, 30, 41, 43] +
    [9, 11, 18, 24, 31, 40, 44, 53] +
    [10, 19, 23, 32, 39, 45, 52, 54] +
    [20, 22, 33, 38, 46, 51, 55, 60] +
    [21, 34, 37, 47, 50, 56, 59, 61] +
    [35, 36, 48, 49, 57, 58, 62, 63]

  /** The way visits every place once. */
  lemma EveryPlaceOnce(k: int)
    requires 0 <= k < 64
    ensures WAY[ZSCAN[k]] == k
  {
    if k < 16 { OnceFrom0(k); } else if k < 32 { OnceFrom16(k); } else if k < 48 { OnceFrom32(k); } else { OnceFrom48(k); }
  }

  lemma OnceFrom0(k: int)
    requires 0 <= k < 16
    ensures WAY[ZSCAN[k]] == k
  {
  }

  lemma OnceFrom16(k: int)
    requires 16 <= k < 32
    ensures WAY[ZSCAN[k]] == k
  {
  }

  lemma OnceFrom32(k: int)
    requires 32 <= k < 48
    ensures WAY[ZSCAN[k]] == k
  {
  }

  lemma OnceFrom48(k: int)
    requires 48 <= k < 64
    ensures WAY[ZSCAN[k]] == k
  {
  }

  /** A halfword: six bits of run, ten bits of level in two's complement. */
  lemma HalfwordIs(w: Halfword, run: int, level: int)
    requires w == 1024 * run + (if level < 0 then level + 1024 else level) && -512 <= level < 512
    ensures Run(w) == run && Val(w) == level
  {
    Fields(w, run, if level < 0 then level + 1024 else level);
  }

  lemma Fields(n: int, q: int, r: int)
    requires n == 1024 * q + r && 0 <= r < 1024
    ensures n / 1024 == q && n % 1024 == r
  {
  }

  /** Halfway values round upwards, and the first coefficient has nine more digits to lose. */
  lemma FirstIs(w: Halfword, iq: Table, c: int)
    requires var x := Val(w) * iq[0];
             -0x8000_0000 <= x && x + 256 < 0x8000_0000 && 512 * c - 256 <= x < 512 * c + 256
    ensures First(w, iq) == c
  {
    hide Val;
    var x := Val(w) * iq[0];
    MulIs(Val(w), iq[0]);
    AddIs(x, 0x100);
    Fields512(x + 256, c);
  }

  lemma Fields512(x: int, c: int)
    requires 512 * c <= x < 512 * c + 512
    ensures x / 512 == c
  {
  }

  lemma CoefficientIs(w: Halfword, iq: Table, k: int, q: nat, c: int)
    requires 0 <= k < 64 && q < 64
    requires var y := Val(w) * iq[k];
             -0x8000_0000 <= y < 0x8000_0000 && -0x8000_0000 <= y * q && y * q + 2048 < 0x8000_0000 &&
             4096 * c - 2048 <= y * q < 4096 * c + 2048
    ensures Coefficient(w, iq, k, q) == c
  {
    hide Val;
    var y := Val(w) * iq[k];
    MulIs(Val(w), iq[k]);
    MulIs(y, q);
    AddIs(y * q, 0x800);
    Fields4096(y * q + 2048, c);
  }

  lemma Fields4096(x: int, c: int)
    requires 4096 * c <= x < 4096 * c + 4096
    ensures x / 4096 == c
  {
  }

  /** The position of the i-th halfword after the first: each is beyond the one before it by its
      run and one. */
  function Position(rl: Stream, i: nat): nat {
    if i == 0 then 0 else Position(rl, i - 1) + rl(i) / 1024 + 1
  }

  lemma {:induction false} PositionsAscend(rl: Stream, i: nat, j: nat)
    requires i < j
    ensures Position(rl, i) < Position(rl, j)
    decreases j
  {
    if i < j - 1 { PositionsAscend(rl, i, j - 1); }
  }

  /** The i-th halfword gives the coefficient at its position on the zig-zag way, by the table's
      entry there and the scale from the first halfword. */
  lemma RunLaw(rl: Stream, iq: Table, i: nat)
    requires i > 0 && Position(rl, i) < 64
    ensures Coefficients(rl, iq)[ZSCAN[Position(rl, i)]] == Coefficient(rl(i), iq, Position(rl, i), rl(0) / 1024)
  {
    FilledHolds(seq(64, j => 0)[0 := First(rl(0), iq)], rl, 1, iq, Run(rl(0)), i);
  }

  /** One halfword's worth of filling. */
  lemma FilledStep(b: Block, rl: Stream, at: nat, iq: Table, q: nat)
    requires at > 0 && q < 64
    ensures var n, k := Position(rl, at - 1), Position(rl, at);
            n < k && Filled(b, rl, at, n, iq, q) ==
                     if k < 64 then Filled(b[ZSCAN[k] := Coefficient(rl(at), iq, k, q)], rl, at + 1, k, iq, q) else b
  {
    hide Coefficient;
  }

  /** Filling goes on from halfword `at`. */
  lemma {:induction false} FilledHolds(b: Block, rl: Stream, at: nat, iq: Table, q: nat, i: nat)
    requires 0 < at <= i && Position(rl, i) < 64 && q < 64
    ensures Filled(b, rl, at, Position(rl, at - 1), iq, q)[ZSCAN[Position(rl, i)]] ==
            Coefficient(rl(i), iq, Position(rl, i), q)
    decreases i - at
  {
    hide Coefficient, Filled, Position;
    var k := Position(rl, at);
    if at < i { PositionsAscend(rl, at, i); }
    FilledStep(b, rl, at, iq, q);
    var b' := b[ZSCAN[k] := Coefficient(rl(at), iq, k, q)];
    if at < i {
      FilledHolds(b', rl, at + 1, iq, q, i);
    } else {
      forall j | j > at ensures Position(rl, j) != k { PositionsAscend(rl, at, j); }
      FilledKeeps(b', rl, at + 1, iq, q, k);
    }
  }

  /** A place that no halfword from `at` on names stays as it is. */
  lemma {:induction false} FilledKeeps(b: Block, rl: Stream, at: nat, iq: Table, q: nat, k: nat)
    requires 0 < at && q < 64 && k < 64 && forall j :: j >= at ==> Position(rl, j) != k
    ensures Filled(b, rl, at, Position(rl, at - 1), iq, q)[ZSCAN[k]] == b[ZSCAN[k]]
    decreases 64 - Position(rl, at - 1)
  {
    hide Coefficient, Filled, Position;
    FilledStep(b, rl, at, iq, q);
    var next := Position(rl, at);
    if next < 64 {
      EveryPlaceOnce(k);
      EveryPlaceOnce(next);
      FilledKeeps(b[ZSCAN[next] := Coefficient(rl(at), iq, next, q)], rl, at + 1, iq, q, k);
    }
  }

  /** A place that no halfword names is zero. */
  lemma UnnamedLaw(rl: Stream, iq: Table, k: nat)
    requires 0 < k < 64 && forall i :: i > 0 ==> Position(rl, i) != k
    ensures Coefficients(rl, iq)[ZSCAN[k]] == 0
  {
    hide Filled, First;
    var b: Block := seq(64, j => 0)[0 := First(rl(0), iq)];
    EveryPlaceOnce(k);
    EveryPlaceOnce(0);
    assert Position(rl, 0) == 0;
    FilledKeeps(b, rl, 1, iq, Run(rl(0)), k);
  }

  lemma FirstLaw(rl: Stream, iq: Table)
    ensures Coefficients(rl, iq)[0] == First(rl(0), iq)
  {
    hide Filled, First;
    var b: Block := seq(64, j => 0)[0 := First(rl(0), iq)];
    forall i: nat | i > 0 ensures Position(rl, i) != 0 { PositionsAscend(rl, 0, i); }
    assert Position(rl, 0) == 0;
    assert ZSCAN[0] == 0 by { ZigZagOrder(0); }
    FilledKeeps(b, rl, 1, iq, Run(rl(0)), 0);
  }
}
