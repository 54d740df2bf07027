/** The GTE's perspective division: a table of reciprocals and one Newton step. */
module GteDivide {
  import opened Arithmetic

  /** gte_unr_table, sixteen entries a row. */
  const UNR_TABLE: seq<seq<nat>> := [
    [0xFF, 0xFD, 0xFB, 0xF9, 0xF7, 0xF5, 0xF3, 0xF1, 0xEF, 0xEE, 0xEC, 0xEA, 0xE8, 0xE6, 0xE4, 0xE3],
    [0xE1, 0xDF, 0xDD, 0xDC, 0xDA, 0xD8, 0xD6, 0xD5, 0xD3, 0xD1, 0xD0, 0xCE, 0xCD, 0xCB, 0xC9, 0xC8],
    [0xC6, 0xC5, 0xC3, 0xC1, 0xC0, 0xBE, 0xBD, 0xBB, 0xBA, 0xB8, 0xB7, 0xB5, 0xB4, 0xB2, 0xB1, 0xB0],
    [0xAE, 0xAD, 0xAB, 0xAA, 0xA9, 0xA7, 0xA6, 0xA4, 0xA3, 0xA2, 0xA0, 0x9F, 0x9E, 0x9C, 0x9B, 0x9A],
    [0x99, 0x97, 0x96, 0x95, 0x94, 0x92, 0x91, 0x90, 0x8F, 0x8D, 0x8C, 0x8B, 0x8A, 0x89, 0x87, 0x86],
    [0x85, 0x84, 0x83, 0x82, 0x81, 0x7F, 0x7E, 0x7D, 0x7C, 0x7B, 0x7A, 0x79, 0x78, 0x77, 0x75, 0x74],
    [0x73, 0x72, 0x71, 0x70, 0x6F, 0x6E, 0x6D, 0x6C, 0x6B, 0x6A, 0x69, 0x68, 0x67, 0x66, 0x65, 0x64],
    [0x63, 0x62, 0x61, 0x60, 0x5F, 0x5E, 0x5D, 0x5D, 0x5C, 0x5B, 0x5A, 0x59, 0x58, 0x57, 0x56, 0x55],
    [0x54, 0x53, 0x53, 0x52, 0x51, 0x50, 0x4F, 0x4E, 0x4D, 0x4D, 0x4C, 0x4B, 0x4A, 0x49, 0x48, 0x48],
    [0x47, 0x46, 0x45, 0x44, 0x43, 0x43, 0x42, 0x41, 0x40, 0x3F, 0x3F, 0x3E, 0x3D, 0x3C, 0x3C, 0x3B],
    [0x3A, 0x39, 0x39, 0x38, 0x37, 0x36, 0x36, 0x35, 0x34, 0x33, 0x33, 0x32, 0x31, 0x31, 0x30, 0x2F],
    [0x2E, 0x2E, 0x2D, 0x2C, 0x2C, 0x2B, 0x2A, 0x2A, 0x29, 0x28, 0x28, 0x27, 0x26, 0x26, 0x25, 0x24],
    [0x24, 0x23, 0x22, 0x22, 0x21, 0x20, 0x20, 0x1F, 0x1E, 0x1E, 0x1D, 0x1D, 0x1C, 0x1B, 0x1B, 0x1A],
    [0x19, 0x19, 0x18, 0x18, 0x17, 0x16, 0x16, 0x15, 0x15, 0x14, 0x14, 0x13, 0x12, 0x12, 0x11, 0x11],
    [0x10, 0x0F, 0x0F, 0x0E, 0x0E, 0x0D, 0x0D, 0x0C, 0x0C, 0x0B, 0x0A, 0x0A, 0x09, 0x09, 0x08, 0x08],
    [0x07, 0x07, 0x06, 0x06, 0x05, 0x05, 0x04, 0x04, 0x03, 0x03, 0x02, 0x02, 0x01, 0x01, 0x00, 0x00],
    [0x00]]

  /** The entries come from rounding 40000h / (i + 100h) / 2. */
  function Unr(i: nat): nat {
    var v := (0x40000 / (i + 0x100) + 1) / 2;
    if v < 0x101 then 0 else v - 0x101
  }

  ghost predicate RowFollows(r: nat)
    requires r < |UNR_TABLE|
  {
    forall j :: 0 <= j < |UNR_TABLE[r]| ==> UNR_TABLE[r][j] == Unr(16 * r + j)
  }

  lemma Row0()
    ensures RowFollows(0)
  {
  }

  lemma Row1()
    ensures RowFollows(1)
  {
  }

  lemma Row2()
    ensures RowFollows(2)
  {
  }

  lemma Row3()
    ensures RowFollows(3)
  {
  }

  lemma Row4()
    ensures RowFollows(4)
  {
  }

  lemma Row5()
    ensures RowFollows(5)
  {
  }

  lemma Row6()
    ensures RowFollows(6)
  {
  }

  lemma Row7()
    ensures RowFollows(7)
  {
  }

  lemma Row8()
    ensures RowFollows(8)
  {
  }

  lemma Row9()
    ensures RowFollows(9)
  {
  }

  lemma Row10()
    ensures RowFollows(10)
  {
  }

  lemma Row11()
    ensures RowFollows(11)
  {
  }

  lemma Row12()
    ensures RowFollows(12)
  {
  }

  lemma Row13()
    ensures RowFollows(13)
  {
  }

  lemma Row14()
    ensures RowFollows(14)
  {
  }

  lemma Row15()
    ensures RowFollows(15)
  {
  }

  lemma Row16()
    ensures RowFollows(16)
  {
  }

  /** Every entry of the table is the formula's value. */
  lemma TableFollows(i: nat)
    requires i <= 0x100
    ensures i / 16 < |UNR_TABLE| && i % 16 < |UNR_TABLE[i / 16]| && UNR_TABLE[i / 16][i % 16] == Unr(i)
  {
    hide RowFollows;
    assert |UNR_TABLE| == 17;
    var r, j := i / 16, i % 16;
    assert i == 16 * r + j;
    assert RowFollows(r) by {
      if r < 8 {
        if r == 0 { Row0(); } else if r == 1 { Row1(); } else if r == 2 { Row2(); } else if r == 3 { Row3(); }
        else if r == 4 { Row4(); } else if r == 5 { Row5(); } else if r == 6 { Row6(); } else { Row7(); }
      } else {
        if r == 8 { Row8(); } else if r == 9 { Row9(); } else if r == 10 { Row10(); } else if r == 11 { Row11(); }
        else if r == 12 { Row12(); } else if r == 13 { Row13(); } else if r == 14 { Row14(); } else if r == 15 { Row15(); }
        else { Row16(); }
      }
    }
    RowEntry(r, j, i);
  }

  lemma RowEntry(r: nat, j: nat, i: nat)
    requires r < 17 && j < 16 && i == 16 * r + j <= 0x100 && RowFollows(r)
    ensures |UNR_TABLE| == 17 && j < |UNR_TABLE[r]| && UNR_TABLE[r][j] == Unr(i)
  {
    hide Unr;
    assert r == 16 ==> j == 0;
  }

  // ---- One Newton step -------------------------------------------------------------------

  function Index(d: nat): int { (d - 0x7FC0) / 128 }

  /** The first approximation of 2^24 / d. */
  function First(d: nat): nat
    requires 0x8000 <= d <= 0xFFFF
  {
    Unr(Index(d)) + 0x101
  }

  function Step1(d: nat, u: nat): int { (0x200_0080 - d * u) / 256 }

  function Step2(d1: int, u: nat): int { (0x80 + d1 * u) / 256 }

  /** The second approximation, of 2^32 / d. */
  function Second(d: nat): int
    requires 0x8000 <= d <= 0xFFFF
  {
    Step2(Step1(d, First(d)), First(d))
  }

  lemma IndexInTable(d: nat)
    requires 0x8000 <= d <= 0xFFFF
    ensures 0 <= Index(d) <= 0x100
    ensures 128 * (Index(d) + 0x100) - 64 <= d <= 128 * (Index(d) + 0x100) + 63
  {
  }

  /** Twice an entry, plus 202h, is 40000h / k up to one. */
  lemma EntryBounds(k: nat, u: nat)
    requires 0x100 <= k <= 0x200 && u == Unr(k - 0x100) + 0x101
    ensures 0x101 <= u <= 0x200
    ensures if k == 0x200 then u == 0x101 else 0x40000 - k <= 2 * (u * k) <= 0x40000 + k
  {
    var q := 0x40000 / k;
    assert q * k <= 0x40000 < (q + 1) * k;
    QuotientRange(k, q);
    if k < 0x200 {
      assert 2 * u == q || 2 * u == q + 1;
      assert 2 * (u * k) == if 2 * u == q then q * k else (q + 1) * k by { assert 2 * (u * k) == (2 * u) * k; }
    }
  }

  lemma QuotientRange(k: nat, q: nat)
    requires 0x100 <= k <= 0x200 && q * k <= 0x40000 < (q + 1) * k
    ensures 0x200 <= q <= 0x400 && (k < 0x200 ==> q >= 0x201)
  {
    CancelStrict(0x200, q + 1, k);
    CancelLess(q, 0x400, k);
    if k < 0x200 { CancelStrict(0x201, q + 1, k); }
  }

  lemma CancelStrict(a: int, b: int, p: nat)
    requires p > 0 && a * p < b * p
    ensures a < b
  {
    if a >= b { Scale(p, a - b, 0, a - b); Distributes(p, a, 0 - b); }
  }

  /** The first approximation is good to one part in 256. */
  lemma FirstIsClose(d: nat)
    requires 0x8000 <= d <= 0xFFFF
    ensures 0x101 <= First(d) <= 0x200
    ensures 0x100_0000 - 0x1_0000 <= d * First(d) <= 0x100_0000 + 0x1_0000
  {
    IndexInTable(d);
    var k, u := Index(d) + 0x100, First(d);
    EntryBounds(k, u);
    Spread(d, k, d - 128 * k, u);
  }

  lemma Spread(d: nat, k: nat, r: int, u: nat)
    requires d == 128 * k + r <= 0xFFFF && -64 <= r <= 63 && 0x100 <= k <= 0x200 && 0x101 <= u <= 0x200
    requires if k == 0x200 then u == 0x101 else 0x40000 - k <= 2 * (u * k) <= 0x40000 + k
    ensures 0x100_0000 - 0x1_0000 <= d * u <= 0x100_0000 + 0x1_0000
  {
    SpreadParts(d, k, r, u);
    SpreadLinear(d, k, r, u, u * k, u * r, d * u);
  }

  lemma SpreadParts(d: nat, k: nat, r: int, u: nat)
    requires d == 128 * k + r && -64 <= r <= 63
    ensures d * u == 128 * (u * k) + u * r && -64 * u <= u * r <= 63 * u
  {
    Distributes(u, 128 * k, r);
    Reorder(u, 128, k);
    Scale(u, r, -64, 63);
  }

  lemma SpreadLinear(d: nat, k: nat, r: int, u: nat, uk: nat, ur: int, ud: nat)
    requires d == 128 * k + r <= 0xFFFF && -64 <= r <= 63 && k <= 0x200 && u <= 0x200
    requires -64 * u <= ur <= 63 * u && ud == 128 * uk + ur
    requires if k == 0x200 then u == 0x101 && uk == 0x101 * 0x200 && ur == 0x101 * r
             else 0x40000 - k <= 2 * uk <= 0x40000 + k
    ensures 0x100_0000 - 0x1_0000 <= ud <= 0x100_0000 + 0x1_0000
  {
  }

  /** The step squares the error, and every intermediate value fits into 32 bits. */
  lemma SecondIsClose(d: nat)
    requires 0x8000 <= d <= 0xFFFF
    ensures 0 < Second(d) < 0x4_0000
    ensures 0 <= Step1(d, First(d)) < 0x2_0000 && 0 <= Step1(d, First(d)) * First(d) + 0x80 < 0x1_0000_0000
    ensures -0x2_0000 <= d * Second(d) - 0x1_0000_0000 <= 0x2_0000
  {
    FirstIsClose(d);
    hide First, Step1, Step2;
    var u := First(d);
    var d1 := Step1(d, u);
    StepOne(d, u, d1);
    StepTwo(d, u, d1, Step2(d1, u));
  }

  lemma StepOne(d: nat, u: nat, d1: int)
    requires 0x100_0000 - 0x1_0000 <= d * u <= 0x100_0000 + 0x1_0000 && d1 == Step1(d, u)
    ensures 0xFE00 <= d1 <= 0x1_0200
    ensures 0x200_0080 - d * u - 255 <= 256 * d1 <= 0x200_0080 - d * u
  {
  }

  lemma StepTwo(d: nat, u: nat, d1: int, d2: int)
    requires 0x8000 <= d <= 0xFFFF && 0x101 <= u <= 0x200 && 0xFE00 <= d1 <= 0x1_0200 && d2 == Step2(d1, u)
    requires 0x100_0000 - 0x1_0000 <= d * u <= 0x100_0000 + 0x1_0000
    requires 0x200_0080 - d * u - 255 <= 256 * d1 <= 0x200_0080 - d * u
    ensures 0 < d2 < 0x4_0000 && 0 <= d1 * u + 0x80 < 0x1_0000_0000
    ensures -0x2_0000 <= d * d2 - 0x1_0000_0000 <= 0x2_0000
  {
    Product(d1, u);
    var b := 0x80 + d1 * u;
    assert b - 255 <= 256 * d2 <= b;
    Newton(d, u, d1, d2);
  }

  lemma Product(d1: int, u: nat)
    requires 0xFE00 <= d1 <= 0x1_0200 && 0x101 <= u <= 0x200
    ensures 0xFE00 * 0x101 <= d1 * u <= 0x1_0200 * 0x200
  {
    Scale(d1, u, 0x101, 0x200);
  }

  lemma Newton(d: nat, u: nat, d1: int, d2: int)
    requires 0x8000 <= d <= 0xFFFF && 0x100_0000 - 0x1_0000 <= d * u <= 0x100_0000 + 0x1_0000
    requires 0x200_0080 - d * u - 255 <= 256 * d1 <= 0x200_0080 - d * u
    requires 0x80 + d1 * u - 255 <= 256 * d2 <= 0x80 + d1 * u
    ensures -0x2_0000 <= d * d2 - 0x1_0000_0000 <= 0x2_0000
  {
    var x := d * u;
    Scale(d, 256 * d2, 0x80 + d1 * u - 255, 0x80 + d1 * u);
    assert d * (256 * d2) == 256 * (d * d2);
    assert d * (0x80 + d1 * u) == 0x80 * d + x * d1 by { assert d * (d1 * u) == x * d1; }
    assert d * (0x80 + d1 * u - 255) == 0x80 * d + x * d1 - 255 * d;
    Scale(x, 256 * d1, 0x200_0080 - x - 255, 0x200_0080 - x);
    assert x * (256 * d1) == 256 * (x * d1);
    Square(x);
    assert x * (0x200_0080 - x - 255) == x * (0x200_0080 - x) - 255 * x;
  }

  lemma Scale(a: nat, v: int, lo: int, hi: int)
    requires lo <= v <= hi
    ensures a * lo <= a * v <= a * hi
  {
  }

  lemma Square(x: nat)
    requires 0x100_0000 - 0x1_0000 <= x <= 0x100_0000 + 0x1_0000
    ensures 0x1_0000_0000_0000 - 0x1_0000_0000 <= x * (0x200_0000 - x) <= 0x1_0000_0000_0000
    ensures x * (0x200_0080 - x) == x * (0x200_0000 - x) + 0x80 * x
  {
    var e := x - 0x100_0000;
    DifferenceOfSquares(0x100_0000, e);
    SmallSquare(e, 0x1_0000);
    Distributes(x, 0x200_0000 - x, 0x80);
  }

  lemma DifferenceOfSquares(a: int, e: int)
    ensures (a + e) * (a - e) == a * a - e * e
  {
  }

  lemma SmallSquare(e: int, m: nat)
    requires 0 - m <= e <= m
    ensures 0 <= e * e <= m * m
  {
    if e >= 0 { Scale(e, e, 0, m); Scale(m, e, 0, m); } else { Scale(-e, -e, 0, m); Scale(m, -e, 0, m); }
  }

  lemma Distributes(x: int, a: int, b: int)
    ensures x * (a + b) == x * a + b * x
  {
  }

  // ---- gte_divide ------------------------------------------------------------------------------

  const LIMIT := 0x1FFFF

  type Half = v: nat | v < 0x1_0000 witness 0

  /** n * 65536 / d from the second approximation, rounded. */
  function Rounded(n: nat, d: nat): int
    requires 0x8000 <= d <= 0xFFFF
  {
    (n * Second(d) + 0x8000) / 0x1_0000
  }

  function Capped(v: int): int { if v > LIMIT then LIMIT else v }

  /** The result is within four and a half of n * 65536 / d. */
  lemma RoundedIsClose(n: nat, d: nat)
    requires 0x8000 <= d <= 0xFFFF && n < 2 * d
    ensures 0 <= Rounded(n, d) && n * Second(d) + 0x8000 < 0x1_0000_0000_0000_0000
    ensures -9 * d <= 2 * (Capped(Rounded(n, d)) * d - n * 0x1_0000) <= 9 * d
  {
    SecondIsClose(d);
    hide Second;
    var r, v := Rounded(n, d), n * Second(d);
    Scale(n, Second(d), 0, 0x4_0000);
    assert v - 0x8000 <= r * 0x1_0000 <= v + 0x8000;
    Near(n, d, Second(d));
    RoundError(n, d, v, r);
    if r > LIMIT { CapCloser(n, d, r); }
  }

  lemma Near(n: nat, d: nat, second: int)
    requires -0x2_0000 <= d * second - 0x1_0000_0000 <= 0x2_0000
    ensures -0x2_0000 * n <= d * (n * second) - 0x1_0000_0000 * n <= 0x2_0000 * n
  {
    Scale(n, d * second - 0x1_0000_0000, -0x2_0000, 0x2_0000);
    Distributes(n, d * second, -0x1_0000_0000);
    Reorder(n, d, second);
  }

  lemma Reorder(a: int, b: int, c: int)
    ensures a * (b * c) == b * (a * c)
  {
  }

  lemma RoundError(n: nat, d: nat, v: nat, r: int)
    requires v - 0x8000 <= r * 0x1_0000 <= v + 0x8000 && n < 2 * d
    requires -0x2_0000 * n <= d * v - 0x1_0000_0000 * n <= 0x2_0000 * n
    ensures -9 * d <= 2 * (r * d - n * 0x1_0000) <= 9 * d
  {
    Scale(d, r * 0x1_0000 - v, -0x8000, 0x8000);
    Distributes(d, r * 0x1_0000, 0 - v);
    Reorder(d, r, 0x1_0000);
  }

  /** The exact quotient is below 20000h, so cutting off at 1FFFFh comes closer to it. */
  lemma CapCloser(n: nat, d: nat, r: int)
    requires n < 2 * d && r > LIMIT && 2 * (r * d - n * 0x1_0000) <= 9 * d
    ensures -9 * d <= 2 * (LIMIT * d - n * 0x1_0000) <= 9 * d
  {
    assert LIMIT * d <= r * d;
  }

  /** Left shifts that bring the top bit of a half word up. */
  function Shifts(s: Half): nat
    requires s > 0
    decreases 0x8000 - s
  {
    if s >= 0x8000 then 0 else 1 + Shifts(2 * s)
  }

  lemma {:induction false} ShiftsNormalize(s: Half)
    requires s > 0
    ensures 0x8000 <= s * Pow2(Shifts(s)) <= 0xFFFF
    decreases 0x8000 - s
  {
    hide Pow2;
    if s < 0x8000 {
      ShiftsNormalize(2 * s);
      DoubledShift(s, Shifts(2 * s));
    } else {
      PowOne();
    }
  }

  lemma DoubledShift(s: nat, k: nat)
    ensures s * Pow2(1 + k) == 2 * s * Pow2(k)
  {
    Reorder(s, 2, Pow2(k));
  }

  lemma {:induction false} PowSixteen(z: nat)
    requires z >= 16
    ensures Pow2(z) >= 0x1_0000
  {
    if z == 16 {
      assert Pow2(8) == 256;
      assert Pow2(12) == 4096;
    } else {
      PowSixteen(z - 1);
    }
  }

  lemma ShiftsBelow(s: Half)
    requires s > 0
    ensures Shifts(s) <= 15
  {
    hide Pow2, Shifts;
    ShiftsNormalize(s);
    if Shifts(s) >= 16 {
      PowSixteen(Shifts(s));
    }
  }

  /** The quotient as a function. */
  function Divided(h: Half, sz3: Half): (q: int)
    ensures 0 <= q <= LIMIT
  {
    if h >= 2 * sz3 then LIMIT
    else
      var p := Pow2(Shifts(sz3));
      ShiftsNormalize(sz3);
      Below(h, 2 * sz3, p);
      Reorder(2, sz3, p);
      RoundedIsClose(h * p, sz3 * p);
      Capped(Rounded(h * p, sz3 * p))
  }

  /** It is below five away from h * 65536 / sz3. */
  lemma DividedIsClose(h: Half, sz3: Half)
    requires h < 2 * sz3
    ensures -9 * sz3 <= 2 * (Divided(h, sz3) * sz3 - h * 0x1_0000) <= 9 * sz3
  {
    hide Pow2, Rounded, Shifts;
    var p := Pow2(Shifts(sz3));
    ShiftsNormalize(sz3);
    Below(h, 2 * sz3, p);
    Reorder(2, sz3, p);
    RoundedIsClose(h * p, sz3 * p);
    Unscale(Divided(h, sz3), h, sz3, p);
  }

  /** Every intermediate value of the quotient of n by d fits the word that holds it. */
  predicate StepsFit(n: nat, d: Half)
    requires 0x8000 <= d
  {
    var u := First(d);
    && 0 <= Index(d) <= 0x100
    && d * u <= 0x200_0080
    && 0 <= Step1(d, u) && 0 <= Step1(d, u) * u + 0x80 < 0x1_0000_0000
    && 0 <= Second(d) && n * Second(d) + 0x8000 < 0x1_0000_0000_0000_0000
  }

  /** gte_divide: saturated to 1FFFFh, and the flag is raised exactly when h >= 2 * sz3.
      No intermediate value leaves 32 bits (64 for the last product), and the table index
      stays in the table. */
  method Divide(h: Half, sz3: Half) returns (q: nat, overflow: bool)
    ensures q == Divided(h, sz3) && overflow == (h >= 2 * sz3)
    ensures !overflow ==> exists d: Half :: 0x8000 <= d == sz3 * Pow2(Shifts(sz3)) && StepsFit(h * Pow2(Shifts(sz3)), d)
  {
    hide Pow2, Unr, Rounded, Shifts, StepsFit;
    if h >= 2 * sz3 { return LIMIT, true; }
    var z, d := Normalize(sz3);
    Below(h, 2 * sz3, Pow2(z));
    Reorder(2, sz3, Pow2(z));
    q := Quotient(h * Pow2(z), d);
    overflow := false;
  }

  /** Shifts the divisor left until its top bit is set. */
  method Normalize(sz3: Half) returns (z: nat, d: Half)
    requires sz3 > 0
    ensures z == Shifts(sz3) && d == sz3 * Pow2(z) && 0x8000 <= d
  {
    hide Pow2;
    PowOne();
    z, d := 0, sz3;
    ShiftsBelow(sz3);
    while z < 16 && d < 0x8000
      invariant 0 < d && d == sz3 * Pow2(z) && z + Shifts(d) == Shifts(sz3)
      decreases 0x8000 - d
    {
      PowStep(z, sz3);
      z, d := z + 1, 2 * d;
    }
  }

  /** Table lookup, the two halves of the Newton step, the rounded product. */
  method Quotient(n: nat, d: Half) returns (q: nat)
    requires 0x8000 <= d && n < 2 * d
    ensures q == Capped(Rounded(n, d)) && StepsFit(n, d)
  {
    FirstIsClose(d);
    hide Unr;
    IndexInTable(d);
    var i := Index(d);
    TableFollows(i);
    var u := UNR_TABLE[i / 16][i % 16] + 0x101;
    SecondIsClose(d);
    RoundedIsClose(n, d);
    var du: nat := (0x200_0080 - d * u) / 256;
    du := (0x80 + du * u) / 256;
    var v := (n * du + 0x8000) / 0x1_0000;
    q := if v > LIMIT then LIMIT else v;
  }

  lemma PowOne()
    ensures Pow2(0) == 1
  {
  }

  lemma PowStep(z: nat, s: nat)
    ensures s * Pow2(z + 1) == 2 * (s * Pow2(z))
  {
  }

  lemma Below(a: nat, b: nat, p: nat)
    requires a < b && p > 0
    ensures a * p < b * p
  {
  }

  /** The common factor of numerator and denominator drops out. */
  lemma Unscale(q: int, h: nat, s: nat, p: nat)
    requires p > 0 && -9 * (s * p) <= 2 * (q * (s * p) - h * p * 0x1_0000) <= 9 * (s * p)
    ensures -9 * s <= 2 * (q * s - h * 0x1_0000) <= 9 * s
  {
    var e := 2 * (q * s - h * 0x1_0000);
    assert 2 * (q * (s * p) - h * p * 0x1_0000) == e * p by {
      assert q * (s * p) == (q * s) * p && h * p * 0x1_0000 == (h * 0x1_0000) * p;
      Distributes(p, 2 * (q * s), -2 * (h * 0x1_0000));
    }
    assert 9 * (s * p) == (9 * s) * p && -9 * (s * p) == (-9 * s) * p;
    CancelLess(-9 * s, e, p);
    CancelLess(e, 9 * s, p);
  }

  lemma CancelLess(a: int, b: int, p: nat)
    requires p > 0 && a * p <= b * p
    ensures a <= b
  {
    if a > b { Scale(p, a - b, 1, a - b); Distributes(p, a, -b); }
  }
}
