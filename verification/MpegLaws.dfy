/** The bit stream of a macroblock and the values in it, written out: block order, predictors,
    codes, and the dequantization of the coefficients. */
module MpegLaws {
  import opened Arithmetic
  import opened Mpeg

  // ---- Macroblocks -----------------------------------------------------------------------

  /** h is half the DC value, rounded down; unsigned output is biased by 1024 first. */
  predicate IsHalf(h: int, dc: int, signedOut: bool) {
    var target := if signedOut then dc else dc + 1024;
    2 * h <= target < 2 * h + 2
  }

  /** The DC values of Y1 to Y4, Cb and Cr. */
  predicate AreHalves(h: seq<int>, bs: Six, signedOut: bool)
    requires |h| == 6
  {
    IsHalf(h[0], bs[2].dc, signedOut) && IsHalf(h[1], bs[3].dc, signedOut) &&
    IsHalf(h[2], bs[4].dc, signedOut) && IsHalf(h[3], bs[5].dc, signedOut) &&
    IsHalf(h[4], bs[1].dc, signedOut) && IsHalf(h[5], bs[0].dc, signedOut)
  }

  lemma HalfIs(b: MdecBlock, h: int, signedOut: bool)
    requires Clipped(b) && IsHalf(h, b.dc, signedOut)
    ensures DcHalf(b, signedOut) == h && -512 <= h <= 1023
  {
  }

  /** The blocks come in the order Y1, Y2, Y3, Y4, Cb, Cr.  The decoder reads back their DC
      values and their coefficients. */
  lemma MacroblockIsReadBack(bs: Six, signedOut: bool, h: seq<int>, rest: Bits)
    requires |h| == 6 && AreHalves(h, bs, signedOut)
    ensures DecodeMacroblock(MacroBits(bs, signedOut) + rest) ==
            Read([Block(h[0], bs[2].ac), Block(h[1], bs[3].ac), Block(h[2], bs[4].ac),
                  Block(h[3], bs[5].ac), Block(h[4], bs[1].ac), Block(h[5], bs[0].ac)], rest)
  {
    hide DecodeMacroblock, MacroBits, DcHalf, IsHalf;
    MacroRoundTrip(bs, signedOut, rest);
    HalvesAre(bs, signedOut, h);
    assert Expected(bs, signedOut, 0) ==
           [Block(h[0], bs[2].ac), Block(h[1], bs[3].ac), Block(h[2], bs[4].ac),
            Block(h[3], bs[5].ac), Block(h[4], bs[1].ac), Block(h[5], bs[0].ac)];
  }

  lemma HalvesAre(bs: Six, signedOut: bool, h: seq<int>)
    requires |h| == 6 && AreHalves(h, bs, signedOut)
    ensures DcHalf(bs[2], signedOut) == h[0] && DcHalf(bs[3], signedOut) == h[1] && DcHalf(bs[4], signedOut) == h[2]
    ensures DcHalf(bs[5], signedOut) == h[3] && DcHalf(bs[1], signedOut) == h[4] && DcHalf(bs[0], signedOut) == h[5]
    ensures forall i :: 0 <= i < 6 ==> -512 <= h[i] <= 1023
  {
    hide DcHalf, IsHalf;
    HalfIs(bs[2], h[0], signedOut);
    HalfIs(bs[3], h[1], signedOut);
    HalfIs(bs[4], h[2], signedOut);
    HalfIs(bs[5], h[3], signedOut);
    HalfIs(bs[1], h[4], signedOut);
    HalfIs(bs[0], h[5], signedOut);
  }

  /** Each difference is to the block of the same colour component before it, and to 512 for
      the first one of a component. */
  function Differences(h: seq<int>): (d: seq<int>)
    requires |h| == 6
    ensures |d| == 6
  {
    [h[0] - 512, h[1] - h[0], h[2] - h[1], h[3] - h[2], h[4] - 512, h[5] - 512]
  }

  predicate HasCode(diff: int) { BitLength(Abs(diff)) <= 11 }

  /** The bits of a block whose DC difference has a code. */
  function Coded(diff: int, chroma: bool, ac: Ac): Bits
    requires HasCode(diff)
  {
    BlockBits(diff, chroma, ac)
  }

  lemma MacroblockBits(bs: Six, signedOut: bool, h: seq<int>, d: seq<int>)
    requires |h| == 6 && AreHalves(h, bs, signedOut) && d == Differences(h)
    ensures forall i :: 0 <= i < 6 ==> HasCode(d[i])
    ensures MacroBits(bs, signedOut) ==
            [true] + (Coded(d[0], false, bs[2].ac) + (Coded(d[1], false, bs[3].ac) + (Coded(d[2], false, bs[4].ac) +
            (Coded(d[3], false, bs[5].ac) + (Coded(d[4], true, bs[1].ac) + Coded(d[5], true, bs[0].ac))))))
  {
    hide DcHalf, IsHalf, AreHalves, BlocksBits, BlockBits, HasCode;
    HalvesAre(bs, signedOut, h);
    Unfold(bs, signedOut, 0, RESET, [h[0], 512, 512], h[0], d[0]);
    Unfold(bs, signedOut, 1, [h[0], 512, 512], [h[1], 512, 512], h[1], d[1]);
    Unfold(bs, signedOut, 2, [h[1], 512, 512], [h[2], 512, 512], h[2], d[2]);
    Unfold(bs, signedOut, 3, [h[2], 512, 512], [h[3], 512, 512], h[3], d[3]);
    Unfold(bs, signedOut, 4, [h[3], 512, 512], [h[3], h[4], 512], h[4], d[4]);
    Unfold(bs, signedOut, 5, [h[3], h[4], 512], [h[3], h[4], h[5]], h[5], d[5]);
    NoBlocksLeft(bs, signedOut, [h[3], h[4], h[5]]);
    assert Coded(d[5], true, bs[0].ac) + [] == Coded(d[5], true, bs[0].ac);
  }

  lemma Unfold(bs: Six, signedOut: bool, idx: nat, preds: Predictors, preds': Predictors, h: int, d: int)
    requires idx < 6 && preds' == preds[COMPONENT[idx] := h] && h == DcHalf(bs[ORDER[idx]], signedOut) && d == h - preds[COMPONENT[idx]]
    ensures HasCode(d)
    ensures BlocksBits(bs, signedOut, idx, preds) ==
            Coded(d, idx >= 4, bs[ORDER[idx]].ac) + BlocksBits(bs, signedOut, idx + 1, preds')
  {
    hide DcHalf, BlocksBits, BlockBits, BitLength;
    BlocksUnfold(bs, signedOut, idx, preds);
  }

  // ---- Codes --------------------------------------------------------------------------------

  /** A binary digit string. */
  function Spelled(s: string): Bits {
    seq(|s|, i requires 0 <= i < |s| => s[i] == '1')
  }

  const LUMINANCE := ["100", "00", "01", "101", "110", "1110", "11110", "111110",
                      "1111110", "11111110", "111111110", "111111111"]
  const CHROMINANCE := ["00", "01", "10", "110", "1110", "11110", "111110", "1111110",
                        "11111110", "111111110", "1111111110", "1111111111"]

  /** The codes of Tables B.12 and B.13 of ISO/IEC 13818-2. */
  lemma SizeCodesAre(size: nat)
    requires size <= 11
    ensures SizeBits(false, size) == Spelled(LUMINANCE[size])
    ensures SizeBits(true, size) == Spelled(CHROMINANCE[size])
  {
    hide Bin;
    ShortSizes();
    if size >= 4 { LongCodes(false, size); }
    if size >= 2 { LongCodes(true, size); }
    hide SizeBits;
    LongSpelled(size);
  }

  lemma ShortSizes()
    ensures SizeBits(false, 0) == [true, false, false] && SizeBits(false, 1) == [false, false]
    ensures SizeBits(false, 2) == [false, true] && SizeBits(false, 3) == [true, false, true]
    ensures SizeBits(true, 0) == [false, false] && SizeBits(true, 1) == [false, true]
  {
    hide Bin;
    BinTwo(0);
    BinTwo(1);
    BinThree(4);
    BinThree(5);
  }

  lemma BinTwo(v: nat)
    requires v < 4
    ensures Bin(v, 2) == [v / 2 == 1, v % 2 == 1]
  {
  }

  lemma BinThree(v: nat)
    requires v < 8
    ensures Bin(v, 3) == [v / 4 == 1, v / 2 % 2 == 1, v % 2 == 1]
  {
    hide Bin;
    BinTwo(v / 2);
    BinLast(v, 3);
    assert v / 2 / 2 == v / 4;
  }

  lemma BinLast(v: nat, n: nat)
    requires n > 0
    ensures Bin(v, n) == Bin(v / 2, n - 1) + [v % 2 == 1]
  {
  }

  lemma LongSpelled(size: nat)
    requires size <= 11
    ensures size >= 4 ==> Spelled(LUMINANCE[size]) == if size == 11 then AllOnes(9) else AllOnes(size - 2) + [false]
    ensures size >= 2 ==> Spelled(CHROMINANCE[size]) == if size == 11 then AllOnes(10) else AllOnes(size - 1) + [false]
  {
  }

  /** The digits of a difference: itself, or for a negative one, its ones' complement. */
  lemma DifferenceBits(diff: int, chroma: bool)
    requires HasCode(diff)
    ensures var size := BitLength(Abs(diff));
            var n := |SizeBits(chroma, size)|;
            var b := DcBits(diff, chroma);
            |b| == n + size && b[..n] == SizeBits(chroma, size) &&
            Val(b[n..]) == if diff >= 0 then diff else diff + Pow2(size) - 1
  {
    hide Bin, Val, Pow2, BitLength, SizeBits;
    var size := BitLength(Abs(diff));
    DiffOfCode(diff, size);
    ValBin(DiffCode(diff, size), size);
    var b, n := DcBits(diff, chroma), |SizeBits(chroma, size)|;
    assert b[..n] == SizeBits(chroma, size) && b[n..] == Bin(DiffCode(diff, size), size);
  }

  /** A digit string spells the number of its first digit and of the rest. */
  lemma ValFront(b: Bits)
    requires b != []
    ensures Val(b) == (if b[0] then Pow2(|b| - 1) else 0) + Val(b[1..])
  {
    hide Val, Pow2;
    assert b == [b[0]] + b[1..];
    ValJoin([b[0]], b[1..]);
    ValOne(b[0]);
  }

  lemma ValOne(d: bool)
    ensures Val([d]) == if d then 1 else 0
  {
    assert [d][..0] == [];
  }

  /** An escape: 000001, the run in six bits, the level in twelve in two's complement. */
  lemma EscapeLayout(c: Coef)
    requires c.run < 64 && -1024 <= c.level <= 1023
    ensures var b := EscapeBits(c);
            |b| == 24 && b[..6] == [false, false, false, false, false, true] && Val(b[6..12]) == c.run &&
            Val(b[12..]) == if c.level < 0 then c.level + 4096 else c.level
  {
    hide Bin, Val, Pow2;
    var b := EscapeBits(c);
    EscapeLength(c);
    EscapeStarts();
    PowersOfTwo();
    ValBin(c.run, 6);
    ValBin(c.level % 4096, 12);
    assert b[..6] == Bin(1, 6) && b[6..12] == Bin(c.run, 6) && b[12..] == Bin(c.level % 4096, 12);
  }

  /** A block: its difference, its coefficients in order, End of Block. */
  lemma BlockLayout(diff: int, chroma: bool, ac: Ac)
    requires HasCode(diff)
    ensures var b, n := BlockBits(diff, chroma, ac), |DcBits(diff, chroma)|;
            |b| == n + 24 * |ac| + 2 && b[..n] == DcBits(diff, chroma) && b[n + 24 * |ac|..] == [true, false] &&
            forall i :: 0 <= i < |ac| ==> b[n + 24 * i..n + 24 * i + 24] == EscapeBits(ac[i])
  {
    hide DcBits, EscapeBits, BitLength, AcBits;
    var b, n := BlockBits(diff, chroma, ac), |DcBits(diff, chroma)|;
    AcLength(ac);
    assert b[..n] == DcBits(diff, chroma) && b[n + 24 * |ac|..] == [true, false];
    forall i | 0 <= i < |ac| ensures b[n + 24 * i..n + 24 * i + 24] == EscapeBits(ac[i]) {
      EscapeAt(ac, i);
      assert b[n + 24 * i..n + 24 * i + 24] == AcBits(ac)[24 * i..24 * i + 24];
    }
  }

  lemma {:induction false} EscapeAt(ac: Ac, i: nat)
    requires i < |ac|
    ensures |AcBits(ac)| == 24 * |ac| && AcBits(ac)[24 * i..24 * i + 24] == EscapeBits(ac[i])
    decreases |ac|
  {
    hide EscapeBits;
    AcLength(ac);
    AcLength(ac[..|ac| - 1]);
    EscapeLength(ac[|ac| - 1]);
    if i < |ac| - 1 {
      EscapeAt(ac[..|ac| - 1], i);
      assert AcBits(ac)[24 * i..24 * i + 24] == AcBits(ac[..|ac| - 1])[24 * i..24 * i + 24];
    }
  }

  // ---- The stream in memory ----------------------------------------------------------------------

  /** The bits put for a code are its n highest, as they are in the word. */
  lemma PutLaw(code: Word32, n: nat)
    requires n <= 32
    ensures var b := Bin(Top(code, n), n);
            |b| == n && Val(b) * Pow2(32 - n) <= code < (Val(b) + 1) * Pow2(32 - n)
  {
    hide Bin, Val, Pow2, Shr, Low;
    TopBelow(code, n);
    ValBin(Top(code, n), n);
    ShrLow(code, 32 - n);
    NextMultiple(Top(code, n), Pow2(32 - n));
  }

  lemma NextMultiple(x: nat, p: nat)
    ensures (x + 1) * p == x * p + p
  {
  }

  /** A little-endian machine keeps the lowest byte of a word first; so the bytes in memory are
      the stream, eight bits each. */
  lemma StreamLaw(words: seq<Word32>, out: Bits, k: nat)
    requires Spells(words, out) && k < |words|
    ensures words[k] % 0x100 == Val(out[32 * k..32 * k + 8])
    ensures words[k] / 0x100 % 0x100 == Val(out[32 * k + 8..32 * k + 16])
    ensures words[k] / 0x1_0000 % 0x100 == Val(out[32 * k + 16..32 * k + 24])
    ensures words[k] / 0x100_0000 == Val(out[32 * k + 24..32 * k + 32])
  {
    hide Val, Swap;
    var c := Chunk(out, k);
    SliceOf(out, 32 * k, 0);
    SliceOf(out, 32 * k, 8);
    SliceOf(out, 32 * k, 16);
    SliceOf(out, 32 * k, 24);
    assert c == out[32 * k..32 * k + 32] && c[24..] == c[24..32] && c[..8] == c[0..8];
    SwapTwice(words[k]);
    ChunkBytes(c);
  }

  lemma SliceOf(out: Bits, at: nat, i: nat)
    requires at + 32 <= |out| && i + 8 <= 32
    ensures out[at..at + 32][i..i + 8] == out[at + i..at + i + 8]
  {
    var c := out[at..at + 32];
    var a, b := c[i..i + 8], out[at + i..at + i + 8];
    forall j | 0 <= j < 8 ensures a[j] == b[j] {
      assert a[j] == c[i + j] == out[at + i + j];
    }
  }

  lemma ChunkBytes(c: Bits)
    requires |c| == 32
    ensures Val(c) < WORD
    ensures var w := Swap(Val(c));
            w % 0x100 == Val(c[..8]) && w / 0x100 % 0x100 == Val(c[8..16]) &&
            w / 0x1_0000 % 0x100 == Val(c[16..24]) && w / 0x100_0000 == Val(c[24..])
  {
    hide Val, Swap, Pow2;
    ByteBelow(c[..8]);
    ByteBelow(c[8..16]);
    ByteBelow(c[16..24]);
    ByteBelow(c[24..]);
    ByteJoins(c[..8], c[8..16]);
    ByteJoins(c[..16], c[16..24]);
    ByteJoins(c[..24], c[24..]);
    assert c[..8] + c[8..16] == c[..16] && c[..16] + c[16..24] == c[..24] && c[..24] + c[24..] == c;
    SwapBytes(Val(c[..8]), Val(c[8..16]), Val(c[16..24]), Val(c[24..]));
    BytesOf(Val(c[24..]), Val(c[16..24]), Val(c[8..16]), Val(c[..8]));
  }

  lemma ByteBelow(b: Bits)
    requires |b| == 8
    ensures Val(b) < 0x100
  {
    hide Val;
    BinVal(b);
    assert Pow2(4) == 16;
  }

  lemma ByteJoins(a: Bits, b: Bits)
    requires |b| == 8
    ensures Val(a + b) == 0x100 * Val(a) + Val(b)
  {
    hide Val;
    ValJoin(a, b);
    assert Pow2(4) == 16;
  }

  lemma BytesOf(a: nat, b: nat, c: nat, d: nat)
    requires a < 0x100 && b < 0x100 && c < 0x100 && d < 0x100
    ensures var v := a * 0x100_0000 + b * 0x1_0000 + c * 0x100 + d;
            v % 0x100 == d && v / 0x100 % 0x100 == c && v / 0x1_0000 % 0x100 == b && v / 0x100_0000 == a
  {
    var y := a * 0x100 + b;
    var x := y * 0x100 + c;
    LastByte(x, d);
    LastByte(y, c);
    LastByte(a, b);
    BytesApart(x * 0x100 + d);
  }

  // ---- Coefficients ----------------------------------------------------------------------------

  /** A halfword: six bits of run, ten bits of level in two's complement. */
  lemma HalfwordLaw(hw: HalfWord, run: int, level: int)
    requires hw == 1024 * run + (if level < 0 then level + 1024 else level) && -512 <= level < 512
    ensures RunOf(hw) == run && LevelOf(hw) == level
  {
    Fields(hw, run, if level < 0 then level + 1024 else level);
  }

  lemma Fields(n: int, q: int, r: int)
    requires n == 1024 * q + r && 0 <= r < 1024
    ensures n / 1024 == q && n % 1024 == r
  {
  }

  /** x / 8 toward zero. */
  predicate IsEighth(d: int, x: int) {
    if x >= 0 then 8 * d <= x < 8 * d + 8 else 8 * d - 8 < x <= 8 * d
  }

  /** d, or the bound it is beyond. */
  predicate IsClipped(c: int, d: int) {
    (c == d && -1024 <= d <= 1023) || (c == -1024 && d < -1024) || (c == 1023 && d > 1023)
  }

  /** The place of the i-th coefficient: each is beyond the one before it by its run and one. */
  function Place(p: seq<HalfWord>, i: nat): nat
    requires i <= |p|
  {
    if i == 0 then 0 else Place(p, i - 1) + p[i - 1] / 1024 + 1
  }

  /** The i-th coefficient of a block: level by the table's entry for its place by the scale,
      rounded, an eighth of that, clipped.  The list ends with FE00h, with the data, or before
      a coefficient outside the block. */
  lemma CoefficientLaw(p: seq<HalfWord>, qt: QuantTable, scale: nat, i: nat, level: int, d: int)
    requires i < |Terms(p, qt, scale, 0)| && i < |p|
    requires -512 <= level < 512 && p[i] % 1024 == if level < 0 then level + 1024 else level
    requires Place(p, i + 1) < 64 ==> IsEighth(d, level * qt[Place(p, i + 1)] * scale + 4)
    ensures Place(p, i + 1) < 64 && p[i] != 0xFE00
    ensures Terms(p, qt, scale, 0)[i].run == p[i] / 1024 && IsClipped(Terms(p, qt, scale, 0)[i].level, d)
  {
    hide Dequantized, IsEighth, IsClipped, Terms;
    TermsFrom(p, qt, scale, i);
    TermsHead(p[i..], qt, scale, Place(p, i));
    DequantizedLaw(p[i], qt, scale, Place(p, i + 1), level, d);
  }

  /** Where the list ends. */
  lemma CoefficientsEnd(p: seq<HalfWord>, qt: QuantTable, scale: nat)
    ensures var n := |Terms(p, qt, scale, 0)|;
            n <= |p| && (n == |p| || p[n] == 0xFE00 || Place(p, n + 1) >= 64)
  {
    hide Terms, Dequantized;
    var n := |Terms(p, qt, scale, 0)|;
    TermsFrom(p, qt, scale, n);
    TermsEmpty(p[n..], qt, scale, Place(p, n));
  }

  lemma TermsHead(p: seq<HalfWord>, qt: QuantTable, scale: nat, k: nat)
    requires Terms(p, qt, scale, k) != []
    ensures p != [] && p[0] != 0xFE00 && k + p[0] / 1024 + 1 < 64
    ensures Terms(p, qt, scale, k) ==
            [Coef(p[0] / 1024, Dequantized(p[0], qt, scale, k + p[0] / 1024 + 1))] + Terms(p[1..], qt, scale, k + p[0] / 1024 + 1)
  {
    hide Dequantized;
  }

  lemma TermsEmpty(p: seq<HalfWord>, qt: QuantTable, scale: nat, k: nat)
    requires Terms(p, qt, scale, k) == []
    ensures p == [] || p[0] == 0xFE00 || k + p[0] / 1024 + 1 >= 64
  {
    hide Dequantized;
  }

  lemma {:induction false} TermsFrom(p: seq<HalfWord>, qt: QuantTable, scale: nat, i: nat)
    requires i <= |Terms(p, qt, scale, 0)|
    ensures i <= |p| && Terms(p, qt, scale, 0)[i..] == Terms(p[i..], qt, scale, Place(p, i))
    decreases i
  {
    hide Dequantized, Terms;
    if i == 0 {
      assert p[0..] == p;
    } else {
      TermsFrom(p, qt, scale, i - 1);
      TermsHead(p[i - 1..], qt, scale, Place(p, i - 1));
      assert p[i - 1..][1..] == p[i..];
      assert Terms(p, qt, scale, 0)[i..] == Terms(p, qt, scale, 0)[i - 1..][1..];
    }
  }

  lemma DequantizedLaw(hw: HalfWord, qt: QuantTable, scale: nat, k: nat, level: int, d: int)
    requires k < 64 && -512 <= level < 512 && hw % 1024 == if level < 0 then level + 1024 else level
    requires IsEighth(d, level * qt[k] * scale + 4)
    ensures IsClipped(Dequantized(hw, qt, scale, k), d)
  {
    assert LevelOf(hw) == level;
    EighthIs(level * qt[k] * scale + 4, d);
  }

  lemma EighthIs(x: int, d: int)
    requires IsEighth(d, x)
    ensures Eighth(x) == d
  {
  }
}
