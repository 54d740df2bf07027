// The inverse DCT of the macroblock decoder (src/mdec.c:196-294) with its shortcuts for
// sparse blocks, and the run-length decoder that says which columns are in use
// (src/mdec.c:298-361).  The shortcuts are proved to change nothing.

module Idct {

  // ---------------------------------------------------------------------------
  // 32-bit arithmetic
  // ---------------------------------------------------------------------------

  type Int32 = x: int | -0x8000_0000 <= x < 0x8000_0000

  function Wrap(x: int): (r: Int32) {
    (x + 0x8000_0000) % 0x1_0000_0000 - 0x8000_0000
  }

  function Add(a: Int32, b: Int32): Int32 { Wrap(a + b) }

  function Sub(a: Int32, b: Int32): Int32 { Wrap(a - b) }

  function Mul(a: Int32, b: Int32): Int32 { Wrap(a * b) }

  /** `SCALE(x, 12)`: an arithmetic shift, which rounds downwards. */
  function Scale(x: Int32): Int32 { x / 0x1000 }

  /** `SCALER(x, n)` for the two widths in use, with the rounding half added first. */
  function Round9(x: Int32): Int32 { Add(x, 0x100) / 0x200 }

  function Round12(x: Int32): Int32 { Add(x, 0x800) / 0x1000 }

  function MulScaled(a: Int32, c: Int32): Int32 { Scale(Mul(a, c)) }

  /** The constants at 12 fractional bits, rounded from 24. */
  const FIX_1_08: Int32 := 4433
  const FIX_1_41: Int32 := 5793
  const FIX_1_84: Int32 := 7568
  const FIX_2_61: Int32 := 10703

  lemma ConstantsAreRounded()
    ensures FIX_1_08 == (18159528 + 0x800) / 0x1000 && FIX_1_41 == (23726566 + 0x800) / 0x1000
    ensures FIX_1_84 == (31000253 + 0x800) / 0x1000 && FIX_2_61 == (43840978 + 0x800) / 0x1000
  {
  }

  // ---------------------------------------------------------------------------
  // One butterfly
  // ---------------------------------------------------------------------------

  type Line = l: seq<Int32> | |l| == 8 witness [0, 0, 0, 0, 0, 0, 0, 0]

  /** The even half: what inputs 0, 2, 4 and 6 come to. */
  function Even(p: Line): (Int32, Int32, Int32, Int32) {
    var z10, z11 := Add(p[0], p[4]), Sub(p[0], p[4]);
    var z13 := Add(p[2], p[6]);
    var z12 := Sub(MulScaled(Sub(p[2], p[6]), FIX_1_41), z13);
    (Add(z10, z13), Add(z11, z12), Sub(z11, z12), Sub(z10, z13))
  }

  /** The odd half: what inputs 1, 3, 5 and 7 come to, from `tmp4` to `tmp7`. */
  function Odd(p: Line): (Int32, Int32, Int32, Int32) {
    var z13, z10 := Add(p[3], p[5]), Sub(p[3], p[5]);
    var z11, z12 := Add(p[1], p[7]), Sub(p[1], p[7]);
    var t7 := Add(z11, z13);
    var z5 := Mul(Sub(z12, z10), FIX_1_84);
    var t6 := Sub(Scale(Add(Mul(z10, FIX_2_61), z5)), t7);
    var t5 := Sub(MulScaled(Sub(z11, z13), FIX_1_41), t6);
    var t4 := Add(Scale(Sub(Mul(z12, FIX_1_08), z5)), t5);
    (t4, t5, t6, t7)
  }

  function Butterfly(p: Line): Line {
    var (t0, t1, t2, t3) := Even(p);
    var (t4, t5, t6, t7) := Odd(p);
    [Add(t0, t7), Add(t1, t6), Add(t2, t5), Sub(t3, t4), Add(t3, t4), Sub(t2, t5), Sub(t1, t6), Sub(t0, t7)]
  }

  function Level(v: Int32): Line { [v, v, v, v, v, v, v, v] }

  function Lone(v: Int32): Line { [v, 0, 0, 0, 0, 0, 0, 0] }

  lemma Zeros(v: Int32, c: Int32)
    ensures Add(v, 0) == v && Sub(v, 0) == v && Mul(0, c) == 0 && MulScaled(0, c) == 0 && Scale(0) == 0
  {
  }

  lemma EvenOfLone(v: Int32)
    ensures Even(Lone(v)) == (v, v, v, v)
  {
    Zeros(v, FIX_1_41);
    Zeros(0, FIX_1_41);
    hide Add, Sub, MulScaled;
  }

  lemma OddOfLone(v: Int32)
    ensures Odd(Lone(v)) == (0, 0, 0, 0)
  {
    OddOfZeros(Lone(v));
    hide Odd;
  }

  lemma OddOfZeros(p: Line)
    requires p[1] == 0 && p[3] == 0 && p[5] == 0 && p[7] == 0
    ensures Odd(p) == (0, 0, 0, 0)
  {
    Zeros(0, FIX_1_41);
    Zeros(0, FIX_1_84);
    Zeros(0, FIX_1_08);
    Zeros(0, FIX_2_61);
    hide Add, Sub, Mul, Scale, MulScaled, Wrap;
  }

  /** The fact behind every shortcut: a line that is zero after its first entry comes out level. */
  lemma LoneComesOutLevel(v: Int32)
    ensures Butterfly(Lone(v)) == Level(v)
  {
    Zeros(v, 0);
    EvenOfLone(v);
    OddOfLone(v);
    hide Add, Sub, Even, Odd, Lone;
  }

  // ---------------------------------------------------------------------------
  // The two passes
  // ---------------------------------------------------------------------------

  type Block = b: seq<Int32> | |b| == 64 witness seq(64, i => 0)

  type Index = i: int | 0 <= i < 8

  function Column(b: Block, i: Index): Line {
    [b[i], b[8 + i], b[16 + i], b[24 + i], b[32 + i], b[40 + i], b[48 + i], b[56 + i]]
  }

  function Row(b: Block, i: Index): Line { b[8 * i..8 * i + 8] }

  function ColumnPass(b: Block): Block {
    seq(64, p requires 0 <= p < 64 => Butterfly(Column(b, p % 8))[p / 8])
  }

  function RowPass(b: Block): Block {
    seq(64, p requires 0 <= p < 64 => Butterfly(Row(b, p / 8))[p % 8])
  }

  /** The transform with no shortcut taken. */
  function Full(b: Block): Block { RowPass(ColumnPass(b)) }

  /** Columns not in `used` are zero below their first row. */
  predicate Sparse(b: Block, used: set<Index>) {
    forall p :: 8 <= p < 64 && p % 8 !in used ==> b[p] == 0
  }

  /** The block after the first `n` columns of the first pass. */
  function Columns(b: Block, n: int): Block {
    seq(64, p requires 0 <= p < 64 => if p % 8 < n then ColumnPass(b)[p] else b[p])
  }

  /** The block after the first `n` rows of the second pass. */
  function Rows(b: Block, n: int): Block {
    seq(64, p requires 0 <= p < 64 => if p / 8 < n then RowPass(b)[p] else b[p])
  }

  lemma Ends(b: Block)
    ensures Columns(b, 0) == b && Columns(b, 8) == ColumnPass(b)
    ensures Rows(b, 0) == b && Rows(b, 8) == RowPass(b)
  {
    hide ColumnPass, RowPass;
  }

  lemma ColumnIsLone(b: Block, i: Index, used: set<Index>)
    requires Sparse(b, used) && i !in used
    ensures Column(b, i) == Lone(b[i])
  {
    forall j | 1 <= j < 8 ensures b[8 * j + i] == 0 {
      assert (8 * j + i) % 8 == i;
    }
  }

  lemma RowIsLone(b: Block, i: Index)
    requires forall p :: 0 <= p < 64 && p % 8 != 0 ==> b[p] == 0
    ensures Row(b, i) == Lone(b[8 * i])
  {
    forall j | 0 <= j < 8 ensures Row(b, i)[j] == Lone(b[8 * i])[j] {
      assert (8 * i + j) % 8 == j;
    }
  }

  /** The block is a lone first coefficient: every pixel comes out as that. */
  lemma DcIsLevel(b: Block)
    requires forall p :: 1 <= p < 64 ==> b[p] == 0
    ensures Full(b) == seq(64, p => b[0])
  {
    hide Butterfly;
    forall p | 0 <= p < 64 ensures Full(b)[p] == b[0] {
      var c := ColumnPass(b);
      forall q | 0 <= q < 64 ensures c[q] == if q % 8 == 0 then b[0] else 0 {
        ColumnIsLone(b, q % 8, {});
        LoneComesOutLevel(b[q % 8]);
      }
      RowIsLone(c, p / 8);
      LoneComesOutLevel(b[0]);
    }
  }

  // ---------------------------------------------------------------------------
  // In place
  // ---------------------------------------------------------------------------

  /** The temporaries of one butterfly. */
  method Transform(p: Line) returns (q: Line)
    ensures q == Butterfly(p)
  {
    hide Add, Sub, Mul, Scale, MulScaled;
    var z10 := Add(p[0], p[4]);
    var z11 := Sub(p[0], p[4]);
    var z13 := Add(p[2], p[6]);
    var z12 := Sub(MulScaled(Sub(p[2], p[6]), FIX_1_41), z13);
    var tmp0 := Add(z10, z13);
    var tmp3 := Sub(z10, z13);
    var tmp1 := Add(z11, z12);
    var tmp2 := Sub(z11, z12);
    z13 := Add(p[3], p[5]);
    z10 := Sub(p[3], p[5]);
    z11 := Add(p[1], p[7]);
    z12 := Sub(p[1], p[7]);
    var tmp7 := Add(z11, z13);
    var z5 := Mul(Sub(z12, z10), FIX_1_84);
    var tmp6 := Sub(Scale(Add(Mul(z10, FIX_2_61), z5)), tmp7);
    var tmp5 := Sub(MulScaled(Sub(z11, z13), FIX_1_41), tmp6);
    var tmp4 := Add(Scale(Sub(Mul(z12, FIX_1_08), z5)), tmp5);
    q := [Add(tmp0, tmp7), Add(tmp1, tmp6), Add(tmp2, tmp5), Sub(tmp3, tmp4),
          Add(tmp3, tmp4), Sub(tmp2, tmp5), Sub(tmp1, tmp6), Sub(tmp0, tmp7)];
  }

  /** A block with one column, or one row, replaced. */
  function WithColumn(b: Block, i: Index, l: Line): Block {
    seq(64, p requires 0 <= p < 64 => if p % 8 == i then l[p / 8] else b[p])
  }

  function WithRow(b: Block, i: Index, l: Line): Block {
    seq(64, p requires 0 <= p < 64 => if p / 8 == i then l[p % 8] else b[p])
  }

  method StoreColumn(blk: array<Int32>, i: Index, l: Line)
    requires blk.Length == 64
    modifies blk
    ensures blk[..] == WithColumn(old(blk[..]), i, l)
  {
    for j := 0 to 8
      invariant forall p :: 0 <= p < 64 ==> blk[p] == if p % 8 == i && p / 8 < j then l[p / 8] else old(blk[p])
    {
      blk[8 * j + i] := l[j];
    }
  }

  method StoreRow(blk: array<Int32>, i: Index, l: Line)
    requires blk.Length == 64
    modifies blk
    ensures blk[..] == WithRow(old(blk[..]), i, l)
  {
    for j := 0 to 8
      invariant forall p :: 0 <= p < 64 ==> blk[p] == if p / 8 == i && p % 8 < j then l[p % 8] else old(blk[p])
    {
      blk[8 * i + j] := l[j];
    }
  }

  /** Column `i` of the first pass. */
  lemma NextColumn(b: Block, i: Index)
    ensures Column(Columns(b, i), i) == Column(b, i)
    ensures WithColumn(Columns(b, i), i, Butterfly(Column(b, i))) == Columns(b, i + 1)
  {
    hide Butterfly;
    var c := Columns(b, i);
    forall j | 0 <= j < 8 ensures c[8 * j + i] == b[8 * j + i] {
      assert (8 * j + i) % 8 == i;
    }
  }

  lemma NextRow(b: Block, i: Index)
    ensures Row(Rows(b, i), i) == Row(b, i)
    ensures WithRow(Rows(b, i), i, Butterfly(Row(b, i))) == Rows(b, i + 1)
  {
    hide Butterfly;
    var c := Rows(b, i);
    assert forall p :: 8 * i <= p < 8 * i + 8 ==> c[p] == b[p];
  }

  /** A column that is zero from top to bottom stays so. */
  lemma ZeroColumnAt(b: Block, p: int)
    requires 0 <= p < 64 && Column(b, p % 8) == Lone(0)
    ensures b[p] == 0 && ColumnPass(b)[p] == 0
  {
    hide Butterfly;
    LoneComesOutLevel(0);
    assert Column(b, p % 8)[p / 8] == b[p] && Level(0)[p / 8] == 0;
  }

  lemma ZeroColumn(b: Block, i: Index)
    requires Column(b, i) == Lone(0)
    ensures Columns(b, i + 1) == Columns(b, i)
  {
    hide ColumnPass, Column;
    forall p | 0 <= p < 64 ensures Columns(b, i + 1)[p] == Columns(b, i)[p] {
      if p % 8 == i {
        ZeroColumnAt(b, p);
      }
    }
  }

  /** Columns outside `used` are zero from top to bottom. */
  predicate Cleared(b: Block, used: set<Index>) {
    forall p :: 0 <= p < 64 && p % 8 !in used ==> b[p] == 0
  }

  lemma ClearedAfter(b: Block, used: set<Index>)
    requires forall k: Index :: k !in used ==> Column(b, k) == Lone(0)
    ensures Cleared(ColumnPass(b), used)
  {
    hide ColumnPass, Column;
    forall p | 0 <= p < 64 && p % 8 !in used ensures ColumnPass(b)[p] == 0 {
      ZeroColumnAt(b, p);
    }
  }

  lemma HeadOf(b: Block, i: Index)
    ensures Columns(b, i)[i] == b[i]
  {
  }

  method ReadColumn(blk: array<Int32>, i: Index) returns (l: Line)
    requires blk.Length == 64
    ensures l == Column(blk[..], i)
  {
    l := [blk[i], blk[8 + i], blk[16 + i], blk[24 + i], blk[32 + i], blk[40 + i], blk[48 + i], blk[56 + i]];
  }

  /** The first pass, with its skips; `used` grows by the columns that were filled. */
  method PassColumns(blk: array<Int32>, usedIn: set<Index>) returns (used: set<Index>)
    requires blk.Length == 64 && Sparse(blk[..], usedIn)
    modifies blk
    ensures blk[..] == ColumnPass(old(blk[..])) && Cleared(blk[..], used)
  {
    hide Butterfly, ColumnPass, Columns, WithColumn, Column;
    ghost var b: Block := blk[..];
    Ends(b);
    used := usedIn;
    for i := 0 to 8
      invariant blk[..] == Columns(b, i)
      invariant forall k: Index :: k < i && k !in used ==> Column(b, k) == Lone(0)
      invariant forall k: Index :: i <= k ==> (k in used <==> k in usedIn)
    {
      NextColumn(b, i);
      if i !in used {
        ColumnIsLone(b, i, usedIn);
        HeadOf(b, i);
        if blk[i] != 0 {
          LoneComesOutLevel(b[i]);
          StoreColumn(blk, i, Level(blk[i]));
          used := used + {i};
        } else {
          ZeroColumn(b, i);
        }
      } else {
        var line := ReadColumn(blk, i);
        var out := Transform(line);
        StoreColumn(blk, i, out);
      }
    }
    ClearedAfter(b, used);
  }

  lemma HeadOfRow(b: Block, i: Index)
    ensures Rows(b, i)[8 * i] == b[8 * i]
  {
  }

  method ReadRow(blk: array<Int32>, i: Index) returns (l: Line)
    requires blk.Length == 64
    ensures l == Row(blk[..], i)
  {
    l := blk[8 * i..8 * i + 8];
  }

  lemma ClearedRow(b: Block, i: Index)
    requires Cleared(b, {0})
    ensures Butterfly(Row(b, i)) == Level(b[8 * i])
  {
    hide Butterfly, Row;
    assert forall p :: 0 <= p < 64 && p % 8 != 0 ==> p % 8 !in {0};
    RowIsLone(b, i);
    LoneComesOutLevel(b[8 * i]);
  }

  /** The second pass, with its shortcut for a lone first column. */
  method PassRows(blk: array<Int32>, used: set<Index>)
    requires blk.Length == 64 && Cleared(blk[..], used)
    modifies blk
    ensures blk[..] == RowPass(old(blk[..]))
  {
    hide *;
    ghost var b: Block := blk[..];
    Ends(b);
    for i := 0 to 8
      invariant blk[..] == Rows(b, i)
    {
      NextRow(b, i);
      if used == {0} {
        ClearedRow(b, i);
        HeadOfRow(b, i);
        StoreRow(blk, i, Level(blk[8 * i]));
      } else {
        var line := ReadRow(blk, i);
        var out := Transform(line);
        StoreRow(blk, i, out);
      }
    }
  }

  /** What the caller knows of a block: that it is a lone first coefficient, or which columns
    * have anything below their first row. */
  datatype Usage = OnlyDc | InColumns(columns: set<Index>)

  predicate Fits(b: Block, usage: Usage) {
    match usage
    case OnlyDc => forall p :: 1 <= p < 64 ==> b[p] == 0
    case InColumns(columns) => Sparse(b, columns)
  }

  /** `idct`. */
  method InverseDct(blk: array<Int32>, usage: Usage)
    requires blk.Length == 64 && Fits(blk[..], usage)
    modifies blk
    ensures blk[..] == Full(old(blk[..]))
  {
    hide ColumnPass, RowPass;
    match usage
    case OnlyDc =>
      DcIsLevel(blk[..]);
      var v := blk[0];
      for i := 0 to 64
        invariant forall p :: 0 <= p < i ==> blk[p] == v
      {
        blk[i] := v;
      }
    case InColumns(columns) =>
      var used := PassColumns(blk, columns);
      PassRows(blk, used);
  }

  // ---------------------------------------------------------------------------
  // Run-length decoding
  // ---------------------------------------------------------------------------

  type Halfword = w: int | 0 <= w < 0x1_0000

  /** The compressed data from the block's first halfword on; the decoder never asks where it ends. */
  type Stream = nat -> Halfword

  type Table = t: seq<Int32> | |t| == 64 witness seq(64, i => 0)

  type Place = p: int | 0 <= p < 64

  const ZSCAN: seq<Place> :=
    [0, 1, 8, 16, 9, 2, 3, 10] +
    [17, 24, 32, 25, 18, 11, 4, 5] +
    [12, 19, 26, 33, 40, 48, 41, 34] +
    [27, 20, 13, 6, 7, 14, 21, 28] +
    [35, 42, 49, 56, 57, 50, 43, 36] +
    [29, 22, 15, 23, 30, 37, 44, 51] +
    [58, 59, 52, 45, 38, 31, 39, 46] +
    [53, 60, 61, 54, 47, 55, 62, 63]

  function Run(w: Halfword): (r: nat)
    ensures r < 64
  {
    w / 0x400
  }

  function Val(w: Halfword): Int32 {
    var low := w % 0x400;
    if low < 0x200 then low else low - 0x400
  }

  function First(w: Halfword, iq: Table): Int32 {
    Round9(Mul(Val(w), iq[0]))
  }

  function Coefficient(w: Halfword, iq: Table, k: int, q: nat): Int32
    requires 0 <= k < 64 && q < 64
  {
    Round12(Mul(Mul(Val(w), iq[k]), q))
  }

  /** The coefficients a block's halfwords describe: the next run from `at` on, after position `k`. */
  function Filled(b: Block, rl: Stream, at: nat, k: nat, iq: Table, q: nat): Block
    requires q < 64
    decreases 63 - k
  {
    if k >= 63 then b
    else
      var next := k + Run(rl(at)) + 1;
      if next < 64 then
        Filled(b[ZSCAN[next] := Coefficient(rl(at), iq, next, q)], rl, at + 1, next, iq, q)
      else b
  }

  function Coefficients(rl: Stream, iq: Table): Block {
    Filled(seq(64, i => 0)[0 := First(rl(0), iq)], rl, 1, 0, iq, Run(rl(0)))
  }

  /** The halfwords after the first, into a block that is clear but for its first coefficient. */
  method ReadRuns(blk: array<Int32>, rl: Stream, iq: Table, q: nat) returns (at: nat, k: nat, used: set<Index>)
    requires blk.Length == 64 && q < 64 && forall p :: 1 <= p < 64 ==> blk[p] == 0
    modifies blk
    ensures blk[..] == Filled(old(blk[..]), rl, 1, 0, iq, q) && Sparse(blk[..], used) && k >= 63
  {
    hide Coefficient;
    at, k, used := 1, 0, {};
    while k < 63
      invariant Filled(blk[..], rl, at, k, iq, q) == Filled(old(blk[..]), rl, 1, 0, iq, q)
      invariant Sparse(blk[..], used)
      decreases 63 - k
    {
      var w := rl(at);
      at := at + 1;
      k := k + Run(w) + 1;
      if k < 64 {
        blk[ZSCAN[k]] := Coefficient(w, iq, k, q);
        if ZSCAN[k] > 7 {
          used := used + {ZSCAN[k] % 8};
        }
      }
    }
  }

  /** One block in the normal mode, from halfwords to pixels: `rl2blk` for a nonzero
    * quantizer scale.  The column marks it keeps are the ones the transform relies on; its
    * test for a block of one coefficient never holds, as the position has moved by then. */
  method DecodeBlock(blk: array<Int32>, rl: Stream, iq: Table) returns (at: nat, usage: Usage)
    requires blk.Length == 64 && Run(rl(0)) > 0
    modifies blk
    ensures blk[..] == Full(Coefficients(rl, iq))
    ensures usage != OnlyDc && Fits(Coefficients(rl, iq), usage)
  {
    hide Full, First, Coefficient, Run, Filled, Sparse;
    for i := 0 to 64
      invariant forall p :: 0 <= p < i ==> blk[p] == 0
    {
      blk[i] := 0;
    }
    blk[0] := First(rl(0), iq);
    assert blk[..] == seq(64, i => 0)[0 := First(rl(0), iq)];
    var k, used;
    at, k, used := ReadRuns(blk, rl, iq, Run(rl(0)));
    usage := if k == 0 then OnlyDc else InColumns(used);
    InverseDct(blk, usage);
  }
}
