/** Re-encoding of MDEC macroblocks as MPEG-2 intra macroblocks: the bit writer, the codes it
    writes, and a decoder after ISO/IEC 13818-2 that reads them back. */
module Mpeg {
  import opened Arithmetic

  type Bits = seq<bool>

  // ---- Binary numbers -----------------------------------------------------------------

  /** The number that bits spell, most significant first. */
  function Val(b: Bits): nat {
    if b == [] then 0 else 2 * Val(b[..|b| - 1]) + if b[|b| - 1] then 1 else 0
  }

  /** The last n binary digits of v. */
  function Bin(v: nat, n: nat): (b: Bits)
    ensures |b| == n
  {
    if n == 0 then [] else Bin(v / 2, n - 1) + [v % 2 == 1]
  }

  lemma {:induction false} Pow2Adds(a: nat, b: nat)
    ensures Pow2(a + b) == Pow2(a) * Pow2(b)
  {
    if a > 0 {
      Pow2Adds(a - 1, b);
      assert Pow2(a) * Pow2(b) == 2 * Pow2(a - 1) * Pow2(b);
    }
  }

  lemma {:induction false} ValBin(v: nat, n: nat)
    requires v < Pow2(n)
    ensures Val(Bin(v, n)) == v
  {
    if n > 0 { ValBin(v / 2, n - 1); }
  }

  lemma {:induction false} BinVal(b: Bits)
    ensures Bin(Val(b), |b|) == b && Val(b) < Pow2(|b|)
  {
    if b != [] { BinVal(b[..|b| - 1]); }
  }

  lemma {:induction false} ValJoin(a: Bits, b: Bits)
    ensures Val(a + b) == Val(a) * Pow2(|b|) + Val(b)
    decreases |b|
  {
    if b == [] {
      assert a + b == a;
    } else {
      var b' := b[..|b| - 1];
      ValJoin(a, b');
      assert (a + b)[..|a + b| - 1] == a + b';
      assert Val(a) * Pow2(|b|) == 2 * (Val(a) * Pow2(|b'|));
    }
  }

  /** v >> k, and the k bits that are shifted out. */
  function Shr(v: nat, k: nat): nat { if k == 0 then v else Shr(v / 2, k - 1) }

  function Low(v: nat, k: nat): nat { if k == 0 then 0 else 2 * Low(v / 2, k - 1) + v % 2 }

  lemma {:induction false} ShrLow(v: nat, k: nat)
    ensures v == Shr(v, k) * Pow2(k) + Low(v, k) && Low(v, k) < Pow2(k)
  {
    if k > 0 {
      ShrLow(v / 2, k - 1);
      assert Shr(v, k) * Pow2(k) == 2 * (Shr(v, k) * Pow2(k - 1));
    }
  }

  lemma {:induction false} ShrBelow(v: nat, n: nat, k: nat)
    requires k <= n && v < Pow2(n)
    ensures Shr(v, k) < Pow2(n - k)
  {
    if k > 0 { ShrBelow(v / 2, n - 1, k - 1); }
  }

  lemma {:induction false} ShrShifted(x: nat, k: nat)
    ensures Shr(x * Pow2(k), k) == x
  {
    if k > 0 {
      assert x * Pow2(k) == 2 * (x * Pow2(k - 1));
      ShrShifted(x, k - 1);
    }
  }

  lemma {:induction false} BinLow(v: nat, k: nat)
    ensures Val(Bin(v, k)) == Low(v, k)
  {
    if k > 0 { BinLow(v / 2, k - 1); }
  }

  /** Splitting a number splits its digits. */
  lemma {:induction false} BinSplit(v: nat, n: nat, k: nat)
    requires k <= n
    ensures Bin(v, n) == Bin(Shr(v, k), n - k) + Bin(v, k)
  {
    if k > 0 {
      BinSplit(v / 2, n - 1, k - 1);
    } else {
      assert Bin(v, n) + [] == Bin(v, n);
    }
  }

  // ---- The bit writer -------------------------------------------------------------------

  const WORD := 0x1_0000_0000

  type Word32 = v: nat | v < 0x1_0000_0000 witness 0

  /** __builtin_bswap32. */
  function Swap(v: Word32): Word32 {
    (v % 0x100) * 0x100_0000 + (v / 0x100 % 0x100) * 0x1_0000 + (v / 0x1_0000 % 0x100) * 0x100 + v / 0x100_0000
  }

  lemma SwapTwice(v: Word32)
    ensures Swap(Swap(v)) == v
  {
    var x, y := v / 0x100, v / 0x1_0000;
    assert x / 0x100 == y && y / 0x100 == v / 0x100_0000;
    var a, b, c, d := y / 0x100, y % 0x100, x % 0x100, v % 0x100;
    assert v == a * 0x100_0000 + b * 0x1_0000 + c * 0x100 + d;
    SwapIs(v, a, b, c, d);
    SwapBytes(d, c, b, a);
  }

  lemma SwapIs(v: Word32, a: nat, b: nat, c: nat, d: nat)
    requires a < 0x100 && b < 0x100 && c < 0x100 && d < 0x100
    requires v == a * 0x100_0000 + b * 0x1_0000 + c * 0x100 + d
    ensures Swap(v) == d * 0x100_0000 + c * 0x1_0000 + b * 0x100 + a
  {
    hide Swap;
    SwapBytes(a, b, c, d);
  }

  lemma SwapBytes(a: nat, b: nat, c: nat, d: nat)
    requires a < 0x100 && b < 0x100 && c < 0x100 && d < 0x100
    ensures var v := a * 0x100_0000 + b * 0x1_0000 + c * 0x100 + d;
            v < WORD && Swap(v) == d * 0x100_0000 + c * 0x1_0000 + b * 0x100 + a
  {
    var y := a * 0x100 + b;
    var x := y * 0x100 + c;
    var v := x * 0x100 + d;
    LastByte(x, d);
    LastByte(y, c);
    LastByte(a, b);
    BytesApart(v);
  }

  lemma LastByte(x: nat, d: nat)
    requires d < 0x100
    ensures (x * 0x100 + d) / 0x100 == x && (x * 0x100 + d) % 0x100 == d
  {
  }

  lemma BytesApart(v: nat)
    ensures v / 0x1_0000 == v / 0x100 / 0x100 && v / 0x100_0000 == v / 0x100 / 0x100 / 0x100
  {
  }

  lemma WordIsPow2()
    ensures Pow2(32) == WORD
  {
    assert Pow2(4) == 16;
    Pow2Adds(4, 4);
    Pow2Adds(8, 8);
    Pow2Adds(16, 16);
  }

  /** The n most significant bits of a word. */
  function Top(code: Word32, n: nat): nat
    requires n <= 32
  {
    Shr(code, 32 - n)
  }

  lemma TopBelow(code: Word32, n: nat)
    requires n <= 32
    ensures Top(code, n) < Pow2(n)
  {
    hide Pow2;
    WordIsPow2();
    ShrBelow(code, 32, 32 - n);
  }

  /** The words of buf spell the first 32 * |words| bits of out. */
  ghost predicate Spells(words: seq<Word32>, out: Bits) {
    32 * |words| <= |out| && forall k :: 0 <= k < |words| ==> Swap(words[k]) == Val(Chunk(out, k))
  }

  function Chunk(out: Bits, k: nat): Bits
    requires 32 * k + 32 <= |out|
  {
    out[32 * k..32 * k + 32]
  }

  lemma SpellsMore(words: seq<Word32>, out: Bits, more: Bits)
    requires Spells(words, out)
    ensures Spells(words, out + more)
  {
    hide Val, Swap;
    forall k | 0 <= k < |words| ensures Swap(words[k]) == Val(Chunk(out + more, k)) {
      assert Chunk(out + more, k) == Chunk(out, k);
    }
  }

  lemma SpellsNext(words: seq<Word32>, w: Word32, out: Bits)
    requires Spells(words, out) && |out| == 32 * |words| + 32 && w == Val(out[32 * |words|..])
    ensures Spells(words + [Swap(w)], out)
  {
    hide Val, Swap;
    SwapTwice(w);
    assert Chunk(out, |words|) == out[32 * |words|..];
  }

  class BitWriter {
    const buf: array<Word32>
    var accum: nat
    /** Free bits in accum. */
    var bits: nat
    var words: nat
    /** Everything put so far. */
    ghost var out: Bits

    ghost predicate Valid()
      reads this, buf
    {
      bits <= 32 && words <= buf.Length && |out| == 32 * words + 32 - bits &&
      accum == Val(out[32 * words..]) * Pow2(bits) && Spells(buf[..words], out)
    }

    constructor (size: nat)
      ensures Valid() && fresh(buf) && out == [] && buf.Length == size
    {
      buf := new Word32[size](_ => 0);
      accum, bits, words, out := 0, 32, 0, [];
    }

    /** bw_put: the nbits most significant bits of code. */
    method Put(code: Word32, nbits: nat)
      requires Valid() && 1 <= nbits <= 32 && words < buf.Length
      modifies this, buf
      ensures Valid() && out == old(out) + Bin(Top(code, nbits), nbits)
    {
      hide Val, Pow2, Bin, Top, Spells;
      TopBelow(code, nbits);
      var val := Top(code, nbits);
      if nbits <= bits { PutWithin(val, nbits); } else { PutAcross(val, nbits); }
    }

    /** The bits fit into the accumulator; they and the bits there do not overlap. */
    method PutWithin(val: nat, nbits: nat)
      requires Valid() && 1 <= nbits <= bits && val < Pow2(nbits)
      modifies this
      ensures Valid() && out == old(out) + Bin(val, nbits)
    {
      hide Val, Pow2, Bin, Spells;
      ghost var tail := out[32 * words..];
      PutFits(tail, val, nbits, bits - nbits);
      SpellsMore(buf[..words], out, Bin(val, nbits));
      bits := bits - nbits;
      accum := accum + val * Pow2(bits);
      out := out + Bin(val, nbits);
      assert out[32 * words..] == tail + Bin(val, nbits);
    }

    /** The accumulator is full: it is written out in big-endian order. */
    method StoreWord(ghost more: Bits)
      requires words < buf.Length && |out| + |more| == 32 * words + 32 && Spells(buf[..words], out)
      requires accum < WORD && accum == Val(out[32 * words..] + more) && 32 * words <= |out|
      modifies this`words, this`out, buf
      ensures words == old(words) + 1 && out == old(out) + more && Spells(buf[..words], out) && |out| == 32 * words
    {
      hide Val, Spells, Swap;
      ghost var before := buf[..words];
      SpellsMore(before, out, more);
      assert (out + more)[32 * words..] == out[32 * words..] + more;
      SpellsNext(before, accum, out + more);
      buf[words] := Swap(accum);
      words := words + 1;
      assert buf[..words] == before + [Swap(accum)];
      out := out + more;
    }

    /** The bits fill up the accumulator, which goes to the buffer; the rest stays. */
    method PutAcross(val: nat, nbits: nat)
      requires Valid() && bits < nbits <= 32 && val < Pow2(nbits) && words < buf.Length
      modifies this, buf
      ensures Valid() && out == old(out) + Bin(val, nbits)
    {
      hide Val, Pow2, Bin, Spells;
      var overflow := nbits - bits;
      BinSplit(val, nbits, overflow);
      ShrBelow(val, nbits, overflow);
      ghost var hi, lo := Bin(Shr(val, overflow), bits), Bin(val, overflow);
      ghost var tail := out[32 * words..];
      PutFits(tail, Shr(val, overflow), bits, 0);
      PowZero();
      accum := accum + Shr(val, overflow);
      BinVal(tail + hi);
      WordIsPow2();
      StoreWord(hi);
      bits := 32 - overflow;
      accum := Low(val, overflow) * Pow2(bits);
      BinLow(val, overflow);
      SpellsMore(buf[..words], out, lo);
      ghost var before := out;
      out := out + lo;
      assert out[32 * words..] == lo;
      assert before + lo == old(out) + (hi + lo);
    }

    /** Writes a whole word when none is started. */
    method PadWord(w: Word32)
      requires Valid() && bits == 32 && words < buf.Length
      modifies this, buf
      ensures Valid() && bits == 32 && words == old(words) + 1 && out == old(out) + Bin(w, 32)
    {
      hide Val, Bin, Spells;
      WordIsPow2();
      ValBin(w, 32);
      assert out[32 * words..] + Bin(w, 32) == Bin(w, 32);
      accum := w;
      StoreWord(Bin(w, 32));
      accum := 0;
      EmptyTail(out, words);
    }

    /** bw_flush: a started word is filled up with zero bits. */
    method Flush()
      requires Valid() && (bits < 32 ==> words < buf.Length)
      modifies this, buf
      ensures Valid() && bits == 32 && |out| == 32 * words && words <= old(words) + 1
      ensures out == old(out) + Bin(0, if old(bits) < 32 then old(bits) else 0)
    {
      hide Val, Pow2, Bin, Spells;
      BinZero();
      if bits < 32 {
        ghost var tail := out[32 * words..];
        PutFits(tail, 0, bits, 0);
        PowZero();
        BinVal(tail + Bin(0, bits));
        WordIsPow2();
        StoreWord(Bin(0, bits));
        accum, bits := 0, 32;
      }
      EmptyTail(out, words);
    }
  }

  lemma BinZero()
    ensures Bin(0, 0) == []
  {
  }

  lemma EmptyTail(out: Bits, words: nat)
    requires |out| == 32 * words
    ensures Val(out[32 * words..]) == 0
  {
  }

  lemma PowZero()
    ensures Pow2(0) == 1
  {
  }

  lemma PutFits(tail: Bits, val: nat, nbits: nat, bits: nat)
    requires val < Pow2(nbits)
    ensures Val(tail) * Pow2(bits + nbits) + val * Pow2(bits) == Val(tail + Bin(val, nbits)) * Pow2(bits)
  {
    ValBin(val, nbits);
    ValJoin(tail, Bin(val, nbits));
    Pow2Adds(nbits, bits);
    Distributes(Val(tail), Pow2(nbits), val, Pow2(bits));
  }

  lemma Distributes(a: nat, b: nat, c: nat, d: nat)
    ensures a * (b * d) + c * d == (a * b + c) * d
  {
  }

  // ---- Codes of ISO/IEC 13818-2 ------------------------------------------------------------

  /** dct_dc_size codes and their lengths: Table B.12 for luminance, B.13 for chrominance. */
  const DC_LUM: seq<(nat, nat)> := [
    (0x04, 3), (0x00, 2), (0x01, 2), (0x05, 3), (0x06, 3), (0x0E, 4),
    (0x1E, 5), (0x3E, 6), (0x7E, 7), (0xFE, 8), (0x1FE, 9), (0x1FF, 9)]

  const DC_CHR: seq<(nat, nat)> := [
    (0x00, 2), (0x01, 2), (0x02, 2), (0x06, 3), (0x0E, 4), (0x1E, 5),
    (0x3E, 6), (0x7E, 7), (0xFE, 8), (0x1FE, 9), (0x3FE, 10), (0x3FF, 10)]

  function SizeCode(chroma: bool, size: nat): (nat, nat)
    requires size <= 11
  {
    if chroma then DC_CHR[size] else DC_LUM[size]
  }

  function SizeBits(chroma: bool, size: nat): Bits
    requires size <= 11
  {
    Bin(SizeCode(chroma, size).0, SizeCode(chroma, size).1)
  }

  /** Digits of n. */
  function BitLength(n: nat): (k: nat)
    ensures n < Pow2(k) && (if n > 0 then k > 0 && Pow2(k - 1) <= n else k == 0)
  {
    if n == 0 then 0 else 1 + BitLength(n / 2)
  }

  /** dct_dc_differential: ones' complement for negative differences. */
  function DiffCode(diff: int, size: nat): nat
    requires size == BitLength(Abs(diff))
  {
    if diff >= 0 then diff else Pow2(size) - 1 + diff
  }

  /** A DC difference: its size, then its digits. */
  function DcBits(diff: int, chroma: bool): Bits
    requires BitLength(Abs(diff)) <= 11
  {
    var size := BitLength(Abs(diff));
    SizeBits(chroma, size) + Bin(DiffCode(diff, size), size)
  }

  datatype Coef = Coef(run: nat, level: int)

  type Ac = s: seq<Coef> |
    forall i :: 0 <= i < |s| ==> s[i].run < 64 && -1024 <= s[i].level <= 1023

  function EscapeBits(c: Coef): Bits
    requires c.run < 64 && -1024 <= c.level <= 1023
  {
    Bin(1, 6) + Bin(c.run, 6) + Bin(c.level % 4096, 12)
  }

  const END_OF_BLOCK: Bits := [true, false]

  function AcBits(ac: Ac): Bits {
    if ac == [] then [] else AcBits(ac[..|ac| - 1]) + EscapeBits(ac[|ac| - 1])
  }

  // ---- A decoder after the standard ----------------------------------------------------------

  datatype Decoded<T> = Read(value: T, rest: Bits) | Bad

  /** How many ones lead b, looking no further than limit. */
  function Ones(b: Bits, limit: nat): (n: nat)
    ensures n <= limit && n <= |b|
  {
    if limit == 0 || b == [] || !b[0] then 0 else 1 + Ones(b[1..], limit - 1)
  }

  /** dct_dc_size: both tables are a few short codes and then ones up to a zero. */
  function DecodeSize(b: Bits, chroma: bool): Decoded<nat> {
    if |b| < 2 then Bad
    else if !b[0] then Read(if chroma then (if b[1] then 1 else 0) else (if b[1] then 2 else 1), b[2..])
    else
      var limit := if chroma then 10 else 9;
      var ones := Ones(b, limit);
      if ones == limit then Read(11, b[limit..])
      else if ones == |b| then Bad
      else if chroma then Read(ones + 1, b[ones + 1..])
      else if ones == 1 then
        if |b| < 3 then Bad else Read(if b[2] then 3 else 0, b[3..])
      else Read(ones + 2, b[ones + 1..])
  }

  /** Section 7.2.1: dct_diff from its size and dct_dc_differential. */
  function DecodeDiff(b: Bits, chroma: bool): Decoded<int> {
    match DecodeSize(b, chroma)
    case Bad => Bad
    case Read(size, rest) =>
      if size == 0 then Read(0, rest)
      else if |rest| < size then Bad
      else
        Read(DiffOf(Val(rest[..size]), size), rest[size..])
  }

  function DiffOf(differential: nat, size: nat): int
    requires size > 0
  {
    var half := Pow2(size - 1);
    if differential >= half then differential else differential + 1 - 2 * half
  }

  /** Section 7.2.2.3 and Table B.16: a level of twelve bits, two's complement. */
  function SignedLevel(v: nat): int { if v < 2048 then v else v - 4096 }

  /** Table B.14 as far as it is used: End of Block, and the escape of Table B.16. */
  function DecodeAc(b: Bits): Decoded<seq<Coef>>
    decreases |b|
  {
    if |b| >= 2 && b[0] && !b[1] then Read([], b[2..])
    else if |b| >= 24 && b[..6] == Bin(1, 6) then
      match DecodeAc(b[24..])
      case Bad => Bad
      case Read(more, rest) => Read([Coef(Val(b[6..12]), SignedLevel(Val(b[12..24])))] + more, rest)
    else Bad
  }

  /** One intra block: its DC value, from the predictor, and its coefficients. */
  datatype Block = Block(dc: int, ac: seq<Coef>)

  function DecodeBlock(b: Bits, chroma: bool, pred: int): Decoded<Block> {
    match DecodeDiff(b, chroma)
    case Bad => Bad
    case Read(diff, rest) =>
      match DecodeAc(rest)
      case Bad => Bad
      case Read(ac, rest') => Read(Block(pred + diff, ac), rest')
  }

  // ---- Decoding undoes encoding ---------------------------------------------------------------

  function AllOnes(n: nat): Bits { seq(n, _ => true) }

  lemma {:induction false} BinOnes(n: nat)
    ensures Bin(Pow2(n) - 1, n) == AllOnes(n)
    ensures n > 0 ==> Bin(Pow2(n) - 2, n) == AllOnes(n - 1) + [false]
  {
    if n > 0 {
      BinOnes(n - 1);
      assert (Pow2(n) - 1) / 2 == Pow2(n - 1) - 1 == (Pow2(n) - 2) / 2;
      assert AllOnes(n) == AllOnes(n - 1) + [true];
    }
  }

  lemma {:induction false} CountOnes(n: nat, rest: Bits, limit: nat)
    requires n <= limit && (n < limit ==> rest != [] && !rest[0])
    ensures Ones(AllOnes(n) + rest, limit) == n
  {
    if n > 0 {
      CountOnes(n - 1, rest, limit - 1);
      assert (AllOnes(n) + rest)[1..] == AllOnes(n - 1) + rest;
    } else {
      assert AllOnes(0) + rest == rest;
    }
  }

  lemma PowersOfTwo()
    ensures Pow2(1) == 2 && Pow2(2) == 4 && Pow2(3) == 8 && Pow2(4) == 16 && Pow2(5) == 32 && Pow2(6) == 64
    ensures Pow2(7) == 128 && Pow2(8) == 256 && Pow2(9) == 512 && Pow2(10) == 1024 && Pow2(11) == 2048 && Pow2(12) == 4096
  {
    assert Pow2(4) == 16;
    assert Pow2(8) == 256;
  }

  /** From size 4 (chrominance 2) on the codes are ones up to a zero, the last without it. */
  lemma LongCodes(chroma: bool, size: nat)
    requires (if chroma then 2 else 4) <= size <= 11
    ensures var n := if chroma then size - 1 else size - 2;
            SizeBits(chroma, size) == if size == 11 then AllOnes(if chroma then 10 else 9) else AllOnes(n) + [false]
  {
    hide Bin, Pow2;
    PowersOfTwo();
    BinOnes(if chroma then (if size == 11 then 10 else size) else (if size == 11 then 9 else size - 1));
  }

  lemma SizeRoundTrip(chroma: bool, size: nat, rest: Bits)
    requires size <= 11
    ensures DecodeSize(SizeBits(chroma, size) + rest, chroma) == Read(size, rest)
  {
    hide SizeBits, DecodeSize;
    if (if chroma then 2 else 4) <= size {
      LongCodes(chroma, size);
      LongCode(chroma, size, SizeBits(chroma, size), rest);
    } else {
      ShortCode(chroma, size, rest);
    }
  }

  lemma LongCode(chroma: bool, size: nat, code: Bits, rest: Bits)
    requires (if chroma then 2 else 4) <= size <= 11
    requires var n := if chroma then size - 1 else size - 2;
             code == if size == 11 then AllOnes(if chroma then 10 else 9) else AllOnes(n) + [false]
    ensures DecodeSize(code + rest, chroma) == Read(size, rest)
  {
    hide Ones;
    var limit := if chroma then 10 else 9;
    var n := if size == 11 then limit else if chroma then size - 1 else size - 2;
    var tail := if size == 11 then rest else [false] + rest;
    assert code + rest == AllOnes(n) + tail;
    CountOnes(n, tail, limit);
    assert (code + rest)[|code|..] == rest;
  }

  lemma ShortCode(chroma: bool, size: nat, rest: Bits)
    requires size < (if chroma then 2 else 4)
    ensures DecodeSize(SizeBits(chroma, size) + rest, chroma) == Read(size, rest)
  {
    var code := SizeBits(chroma, size);
    var b := code + rest;
    assert b[|code|..] == rest;
    if !chroma && (size == 0 || size == 3) {
      assert code == [true, false, size == 3];
      assert b == AllOnes(1) + ([false, size == 3] + rest);
      CountOnes(1, [false, size == 3] + rest, 9);
    }
  }

  /** The difference survives, whatever its sign. */
  lemma DiffRoundTrip(diff: int, chroma: bool, rest: Bits)
    requires BitLength(Abs(diff)) <= 11
    ensures DecodeDiff(DcBits(diff, chroma) + rest, chroma) == Read(diff, rest)
  {
    hide DecodeSize, SizeBits, Bin, Val, Pow2, BitLength, Abs, DiffOf;
    var size := BitLength(Abs(diff));
    var v := DiffCode(diff, size);
    assert DcBits(diff, chroma) + rest == SizeBits(chroma, size) + (Bin(v, size) + rest);
    SizeRoundTrip(chroma, size, Bin(v, size) + rest);
    DiffOfCode(diff, size);
    ValBin(v, size);
    assert [] + rest == rest;
    assert (Bin(v, size) + rest)[..size] == Bin(v, size) && (Bin(v, size) + rest)[size..] == rest;
  }

  lemma DiffOfCode(diff: int, size: nat)
    requires size == BitLength(Abs(diff))
    ensures DiffCode(diff, size) < Pow2(size) && if size == 0 then diff == 0 else DiffOf(DiffCode(diff, size), size) == diff
  {
    hide BitLength, Pow2;
    PowZero();
    if size > 0 { PowHalf(size); }
  }

  lemma PowHalf(n: nat)
    requires n > 0
    ensures Pow2(n) == 2 * Pow2(n - 1)
  {
  }

  lemma EscapeRoundTrip(c: Coef, rest: Bits)
    requires c.run < 64 && -1024 <= c.level <= 1023
    ensures var b := EscapeBits(c) + rest;
            |b| >= 24 && b[..6] == Bin(1, 6) && b[24..] == rest && !b[0] &&
            Val(b[6..12]) == c.run && SignedLevel(Val(b[12..24])) == c.level
  {
    hide Bin, Val, Pow2;
    PowersOfTwo();
    var b := EscapeBits(c) + rest;
    assert b[..6] == Bin(1, 6) && b[6..12] == Bin(c.run, 6) && b[12..24] == Bin(c.level % 4096, 12);
    ValBin(c.run, 6);
    ValBin(c.level % 4096, 12);
    EscapeStarts();
  }

  lemma EscapeStarts()
    ensures Bin(1, 6) == [false, false, false, false, false, true]
  {
    assert Bin(0, 3) == [false, false, false];
  }

  lemma {:induction false} AcFront(ac: Ac)
    requires ac != []
    ensures AcBits(ac) == EscapeBits(ac[0]) + AcBits(ac[1..])
  {
    hide EscapeBits;
    var n := |ac| - 1;
    if n > 0 {
      AcFront(ac[..n]);
      assert ac[..n][1..] == ac[1..][..n - 1];
    }
  }

  lemma {:induction false} AcRoundTrip(ac: Ac, rest: Bits)
    ensures var d := DecodeAc(AcBits(ac) + END_OF_BLOCK + rest);
            d.Read? && d.value == ac && d.rest == rest
    decreases |ac|
  {
    hide EscapeBits, Bin, Val, SignedLevel;
    var b := AcBits(ac) + END_OF_BLOCK + rest;
    if ac == [] {
      assert b == END_OF_BLOCK + rest;
      assert b[2..] == rest;
    } else {
      AcFront(ac);
      var b' := AcBits(ac[1..]) + END_OF_BLOCK + rest;
      assert b == EscapeBits(ac[0]) + b';
      EscapeRoundTrip(ac[0], b');
      AcRoundTrip(ac[1..], rest);
      assert [ac[0]] + ac[1..] == ac;
    }
  }

  function BlockBits(diff: int, chroma: bool, ac: Ac): Bits
    requires BitLength(Abs(diff)) <= 11
  {
    DcBits(diff, chroma) + AcBits(ac) + END_OF_BLOCK
  }

  lemma BlockRoundTrip(diff: int, chroma: bool, ac: Ac, pred: int, rest: Bits)
    requires BitLength(Abs(diff)) <= 11
    ensures DecodeBlock(BlockBits(diff, chroma, ac) + rest, chroma, pred) == Read(Block(pred + diff, ac), rest)
  {
    hide DecodeDiff, DecodeAc, DcBits, AcBits, BitLength, Abs;
    var tail := AcBits(ac) + END_OF_BLOCK + rest;
    assert BlockBits(diff, chroma, ac) + rest == DcBits(diff, chroma) + tail;
    DiffRoundTrip(diff, chroma, tail);
    AcRoundTrip(ac, rest);
  }

  // ---- Macroblocks -----------------------------------------------------------------------------

  /** A dequantized MDEC block; both DC and AC values are clipped to eleven bits. */
  datatype MdecBlock = MdecBlock(dc: int, ac: Ac)

  predicate Clipped(b: MdecBlock) { -1024 <= b.dc <= 1023 && |b.ac| <= 63 }

  /** The six blocks of a macroblock: Cr, Cb, Y1 to Y4. */
  type Six = s: seq<MdecBlock> | |s| == 6 && forall i :: 0 <= i < 6 ==> Clipped(s[i])
    witness seq(6, _ => MdecBlock(0, []))

  type Predictors = s: seq<int> | |s| == 3 && forall i :: 0 <= i < 3 ==> -512 <= s[i] <= 1023 witness [0, 0, 0]

  const RESET: Predictors := [512, 512, 512]

  /** MPEG order Y1, Y2, Y3, Y4, Cb, Cr, and the predictor that each uses. */
  const ORDER: seq<nat> := [2, 3, 4, 5, 1, 0]
  const COMPONENT: seq<nat> := [0, 0, 0, 0, 1, 2]

  /** Half the DC value, rounded down; unsigned output is biased by 1024 first. */
  function DcHalf(b: MdecBlock, signedOut: bool): (h: int)
    requires Clipped(b)
    ensures -512 <= h <= 1023
  {
    (if signedOut then b.dc else b.dc + 1024) / 2
  }

  lemma {:induction false} BitLengthBelow(n: nat, k: nat)
    requires n < Pow2(k)
    ensures BitLength(n) <= k
  {
    if n > 0 { BitLengthBelow(n / 2, k - 1); }
  }

  /** A difference of two predictors always has a code: the clamp before encoding never acts. */
  lemma DiffFits(a: int, b: int)
    requires -512 <= a <= 1023 && -512 <= b <= 1023
    ensures -2047 <= a - b <= 2047 && BitLength(Abs(a - b)) <= 11
  {
    PowersOfTwo();
    BitLengthBelow(Abs(a - b), 11);
  }

  /** The bits of blocks idx to 5 in MPEG order. */
  function BlocksBits(bs: Six, signedOut: bool, idx: nat, preds: Predictors): Bits
    requires idx <= 6
    decreases 6 - idx
  {
    if idx == 6 then []
    else
      var b, cc := bs[ORDER[idx]], COMPONENT[idx];
      var half := DcHalf(b, signedOut);
      DiffFits(half, preds[cc]);
      BlockBits(half - preds[cc], idx >= 4, b.ac) + BlocksBits(bs, signedOut, idx + 1, preds[cc := half])
  }

  /** macroblock_type '1' (intra), then the blocks. */
  function MacroBits(bs: Six, signedOut: bool): Bits {
    [true] + BlocksBits(bs, signedOut, 0, RESET)
  }

  function DecodeBlocks(b: Bits, idx: nat, preds: seq<int>): Decoded<seq<Block>>
    requires idx <= 6 && |preds| == 3
    decreases 6 - idx
  {
    if idx == 6 then Read([], b)
    else
      match DecodeBlock(b, idx >= 4, preds[COMPONENT[idx]])
      case Bad => Bad
      case Read(block, rest) =>
        match DecodeBlocks(rest, idx + 1, preds[COMPONENT[idx] := block.dc])
        case Bad => Bad
        case Read(more, rest') => Read([block] + more, rest')
  }

  function DecodeMacroblock(b: Bits): Decoded<seq<Block>> {
    if b == [] || !b[0] then Bad else DecodeBlocks(b[1..], 0, RESET)
  }

  function Expected(bs: Six, signedOut: bool, idx: nat): seq<Block>
    requires idx <= 6
  {
    seq(6 - idx, i requires 0 <= i < 6 - idx =>
      Block(DcHalf(bs[ORDER[idx + i]], signedOut), bs[ORDER[idx + i]].ac))
  }

  lemma {:induction false} BlocksRoundTrip(bs: Six, signedOut: bool, idx: nat, preds: Predictors, rest: Bits)
    requires idx <= 6
    ensures DecodeBlocks(BlocksBits(bs, signedOut, idx, preds) + rest, idx, preds) ==
            Read(Expected(bs, signedOut, idx), rest)
    decreases 6 - idx
  {
    hide DecodeBlock, BlockBits, DcHalf, BitLength;
    if idx == 6 {
      assert BlocksBits(bs, signedOut, idx, preds) + rest == rest;
      assert Expected(bs, signedOut, idx) == [];
    } else {
      var b, cc := bs[ORDER[idx]], COMPONENT[idx];
      var half := DcHalf(b, signedOut);
      DiffFits(half, preds[cc]);
      BlocksRoundTrip(bs, signedOut, idx + 1, preds[cc := half], rest);
      BlocksStep(bs, signedOut, idx, preds, rest, half, BlockBits(half - preds[cc], idx >= 4, b.ac));
    }
  }

  lemma BlocksStep(bs: Six, signedOut: bool, idx: nat, preds: Predictors, rest: Bits, half: int, bits: Bits)
    requires idx < 6 && half == DcHalf(bs[ORDER[idx]], signedOut) && -512 <= half <= 1023
    requires BitLength(Abs(half - preds[COMPONENT[idx]])) <= 11
    requires bits == BlockBits(half - preds[COMPONENT[idx]], idx >= 4, bs[ORDER[idx]].ac)
    requires var preds' := preds[COMPONENT[idx] := half];
             DecodeBlocks(BlocksBits(bs, signedOut, idx + 1, preds') + rest, idx + 1, preds') ==
             Read(Expected(bs, signedOut, idx + 1), rest)
    ensures DecodeBlocks(BlocksBits(bs, signedOut, idx, preds) + rest, idx, preds) ==
            Read(Expected(bs, signedOut, idx), rest)
  {
    hide DecodeBlock, DecodeBlocks, BlockBits, BlocksBits, DcHalf, BitLength, Expected;
    var b, cc := bs[ORDER[idx]], COMPONENT[idx];
    BlocksUnfold(bs, signedOut, idx, preds);
    var tail := BlocksBits(bs, signedOut, idx + 1, preds[cc := half]) + rest;
    assert BlocksBits(bs, signedOut, idx, preds) + rest == bits + tail;
    BlockRoundTrip(half - preds[cc], idx >= 4, b.ac, preds[cc], tail);
    ExpectedStep(bs, signedOut, idx);
    DecodeStep(bits + tail, idx, preds, Block(half, b.ac), tail, Expected(bs, signedOut, idx + 1), rest);
  }

  lemma DecodeStep(b: Bits, idx: nat, preds: seq<int>, block: Block, tail: Bits, more: seq<Block>, rest: Bits)
    requires idx < 6 && |preds| == 3 && DecodeBlock(b, idx >= 4, preds[COMPONENT[idx]]) == Read(block, tail)
    requires DecodeBlocks(tail, idx + 1, preds[COMPONENT[idx] := block.dc]) == Read(more, rest)
    ensures DecodeBlocks(b, idx, preds) == Read([block] + more, rest)
  {
    hide DecodeBlock;
  }

  lemma ExpectedStep(bs: Six, signedOut: bool, idx: nat)
    requires idx < 6
    ensures var b := bs[ORDER[idx]];
            Expected(bs, signedOut, idx) == [Block(DcHalf(b, signedOut), b.ac)] + Expected(bs, signedOut, idx + 1)
  {
    hide DcHalf;
  }

  /** A decoder reads back every block's halved DC value and its coefficient list. */
  lemma MacroRoundTrip(bs: Six, signedOut: bool, rest: Bits)
    ensures DecodeMacroblock(MacroBits(bs, signedOut) + rest) == Read(Expected(bs, signedOut, 0), rest)
  {
    hide DecodeBlocks, BlocksBits;
    assert (MacroBits(bs, signedOut) + rest)[1..] == BlocksBits(bs, signedOut, 0, RESET) + rest;
    BlocksRoundTrip(bs, signedOut, 0, RESET, rest);
  }

  // ---- The encoder ----------------------------------------------------------------------------------

  /** The most bits one block takes. */
  const BLOCK_BITS := 21 + 24 * 63 + 2

  lemma {:induction false} AcLength(ac: Ac)
    ensures |AcBits(ac)| == 24 * |ac|
  {
    hide EscapeBits;
    if ac != [] {
      AcLength(ac[..|ac| - 1]);
      EscapeLength(ac[|ac| - 1]);
    }
  }

  lemma EscapeLength(c: Coef)
    requires c.run < 64 && -1024 <= c.level <= 1023
    ensures |EscapeBits(c)| == 24
  {
    hide Bin;
  }

  lemma BlockLength(diff: int, chroma: bool, ac: Ac)
    requires BitLength(Abs(diff)) <= 11 && |ac| <= 63
    ensures |BlockBits(diff, chroma, ac)| <= BLOCK_BITS && |DcBits(diff, chroma)| <= 21
  {
    hide Bin, AcBits;
    AcLength(ac);
  }

  lemma ShiftedTop(x: nat, n: nat)
    requires x < Pow2(n) && n <= 32
    ensures x * Pow2(32 - n) < WORD && Top(x * Pow2(32 - n), n) == x
  {
    hide Pow2;
    WordIsPow2();
    Pow2Adds(n, 32 - n);
    ShrShifted(x, 32 - n);
    MulBelow(x, Pow2(n), Pow2(32 - n));
  }

  lemma MulBelow(x: nat, a: nat, b: nat)
    requires x < a && b > 0
    ensures x * b < a * b
  {
  }

  /** The n binary digits of x. */
  method PutNumber(bw: BitWriter, x: nat, n: nat)
    requires bw.Valid() && 1 <= n <= 32 && x < Pow2(n) && |bw.out| < 32 * bw.buf.Length
    modifies bw, bw.buf
    ensures bw.Valid() && bw.out == old(bw.out) + Bin(x, n)
  {
    hide Pow2, Bin, Top, Val, Spells;
    ShiftedTop(x, n);
    bw.Put(x * Pow2(32 - n), n);
  }

  lemma SizeFits(diff: int)
    requires -2047 <= diff <= 2047
    ensures BitLength(Abs(diff)) <= 11
  {
    PowersOfTwo();
    BitLengthBelow(Abs(diff), 11);
  }

  /** encode_dc. */
  method EncodeDc(bw: BitWriter, diff: int, chroma: bool)
    requires bw.Valid() && -2047 <= diff <= 2047 && |bw.out| + 21 < 32 * bw.buf.Length
    modifies bw, bw.buf
    ensures BitLength(Abs(diff)) <= 11 && bw.Valid() && bw.out == old(bw.out) + DcBits(diff, chroma)
  {
    hide Bin, bw.Valid, Pow2, BitLength, SizeCode, Abs;
    SizeFits(diff);
    var size := CountDigits(Abs(diff));
    size := if size > 11 then 11 else size;
    CodeFits(chroma, size);
    PutNumber(bw, SizeCode(chroma, size).0, SizeCode(chroma, size).1);
    EncodeDifferential(bw, diff, size);
  }

  /** dct_dc_differential: as many digits as the size says. */
  method EncodeDifferential(bw: BitWriter, diff: int, size: nat)
    requires bw.Valid() && size == BitLength(Abs(diff)) <= 11 && |bw.out| < 32 * bw.buf.Length
    modifies bw, bw.buf
    ensures bw.Valid() && bw.out == old(bw.out) + Bin(DiffCode(diff, size), size)
  {
    hide Bin, bw.Valid, Pow2;
    if size > 0 {
      DiffOfCode(diff, size);
      PutNumber(bw, if diff >= 0 then diff else Pow2(size) - 1 + diff, size);
    } else {
      BinZero();
    }
  }

  lemma CodeFits(chroma: bool, size: nat)
    requires size <= 11
    ensures SizeCode(chroma, size).0 < Pow2(SizeCode(chroma, size).1) && 1 <= SizeCode(chroma, size).1 <= 10
  {
    hide Pow2;
    PowersOfTwo();
  }

  method CountDigits(n: nat) returns (size: nat)
    ensures size == BitLength(n)
  {
    size := 0;
    var tmp := n;
    while tmp > 0
      invariant size + BitLength(tmp) == BitLength(n)
    {
      size := size + 1;
      tmp := tmp / 2;
    }
  }

  /** encode_ac_escape; the clamp never acts on a clipped level. */
  method EncodeAcEscape(bw: BitWriter, c: Coef)
    requires bw.Valid() && c.run < 64 && -1024 <= c.level <= 1023 && |bw.out| < 32 * bw.buf.Length
    modifies bw, bw.buf
    ensures bw.Valid() && bw.out == old(bw.out) + EscapeBits(c)
  {
    hide Bin, Val, Spells, Pow2;
    var level := if c.level > 2047 then 2047 else if c.level < -2048 then -2048 else c.level;
    var escape := 0x4_0000 + c.run % 64 * 0x1000 + level % 4096;
    EscapeNumber(c.run, level % 4096);
    PutNumber(bw, escape, 24);
  }

  lemma EscapeNumber(run: nat, level: nat)
    requires run < 64 && level < 4096
    ensures var v := 0x4_0000 + run * 0x1000 + level;
            v < Pow2(24) && Bin(v, 24) == Bin(1, 6) + Bin(run, 6) + Bin(level, 12)
  {
    hide Bin, Pow2;
    PowersOfTwo();
    Pow2Adds(12, 12);
    Pow2Adds(6, 6);
    var v := 0x4_0000 + run * 0x1000 + level;
    SplitAt(v, 64 + run, level, 24, 12);
    SplitAt(64 + run, 1, run, 12, 6);
  }

  /** A number put together from two has the digits of both. */
  lemma SplitAt(v: nat, hi: nat, lo: nat, n: nat, k: nat)
    requires k <= n && v == hi * Pow2(k) + lo && lo < Pow2(k) && hi < Pow2(n - k)
    ensures Bin(v, n) == Bin(hi, n - k) + Bin(lo, k)
  {
    ValBin(hi, n - k);
    ValBin(lo, k);
    ValJoin(Bin(hi, n - k), Bin(lo, k));
    BinVal(Bin(hi, n - k) + Bin(lo, k));
  }

  /** One block: DC difference, escapes, End of Block. */
  method EncodeBlock(bw: BitWriter, diff: int, chroma: bool, ac: Ac)
    requires bw.Valid() && -2047 <= diff <= 2047 && |ac| <= 63 && |bw.out| + BLOCK_BITS < 32 * bw.buf.Length
    modifies bw, bw.buf
    ensures BitLength(Abs(diff)) <= 11 && bw.Valid() && bw.out == old(bw.out) + BlockBits(diff, chroma, ac)
  {
    hide Bin, bw.Valid, Pow2, EscapeBits, DcBits, BitLength;
    EncodeDc(bw, diff, chroma);
    ghost var start := bw.out;
    BlockLength(diff, chroma, ac);
    for j := 0 to |ac|
      invariant bw.Valid() && bw.out == start + AcBits(ac[..j])
    {
      AcLength(ac[..j]);
      assert ac[..j + 1][..j] == ac[..j];
      EncodeAcEscape(bw, ac[j]);
    }
    assert ac[..|ac|] == ac;
    AcLength(ac);
    EndNumber();
    PutNumber(bw, 2, 2);
  }

  lemma EndNumber()
    ensures Bin(2, 2) == END_OF_BLOCK && Pow2(2) == 4 && Bin(1, 1) == [true] && Pow2(1) == 2
  {
  }

  /** The idx-th block in MPEG order, with its predictor brought up to date. */
  method EncodeNext(bw: BitWriter, bs: Six, signedOut: bool, idx: nat, preds: Predictors) returns (preds': Predictors)
    requires bw.Valid() && idx < 6 && |bw.out| + BLOCK_BITS < 32 * bw.buf.Length
    modifies bw, bw.buf
    ensures bw.Valid() && |bw.out| <= |old(bw.out)| + BLOCK_BITS
    ensures bw.out + BlocksBits(bs, signedOut, idx + 1, preds') == old(bw.out) + BlocksBits(bs, signedOut, idx, preds)
  {
    hide Bin, bw.Valid, Pow2, BlockBits, BitLength, BlocksBits, DcHalf;
    var b, cc := bs[ORDER[idx]], COMPONENT[idx];
    var half, diff := NextDiff(b, signedOut, preds[cc]);
    BlockLength(diff, idx >= 4, b.ac);
    BlocksUnfold(bs, signedOut, idx, preds);
    preds' := preds[cc := half];
    EncodeBlock(bw, diff, idx >= 4, b.ac);
  }

  lemma BlocksUnfold(bs: Six, signedOut: bool, idx: nat, preds: Predictors)
    requires idx < 6
    ensures var b, cc := bs[ORDER[idx]], COMPONENT[idx];
            var half := DcHalf(b, signedOut);
            BitLength(Abs(half - preds[cc])) <= 11 &&
            BlocksBits(bs, signedOut, idx, preds) ==
            BlockBits(half - preds[cc], idx >= 4, b.ac) + BlocksBits(bs, signedOut, idx + 1, preds[cc := half])
  {
    hide BlockBits, BitLength;
    DiffFits(DcHalf(bs[ORDER[idx]], signedOut), preds[COMPONENT[idx]]);
  }

  /** The halved DC value and its difference to the predictor, clamped to what has a code. */
  method NextDiff(b: MdecBlock, signedOut: bool, pred: int) returns (half: int, diff: int)
    requires Clipped(b) && -512 <= pred <= 1023
    ensures half == DcHalf(b, signedOut) && diff == half - pred && -2047 <= diff <= 2047
    ensures BitLength(Abs(diff)) <= 11
  {
    hide BitLength;
    var target := if signedOut then b.dc else b.dc + 1024;
    half := if target >= 0 then target / 2 else -((-target + 1) / 2);
    diff := half - pred;
    DiffFits(half, pred);
    diff := if diff > 2047 then 2047 else diff;
    diff := if diff < -2047 then -2047 else diff;
  }

  /** The second half of ipu_decode_macroblock: from dequantized blocks to the bit stream.
      The buffer of 1024 words is more than three times what any macroblock takes. */
  method EncodeMacroblock(bs: Six, signedOut: bool) returns (bw: BitWriter)
    ensures fresh(bw) && bw.Valid() && bw.buf.Length == 1024 && bw.out == MacroBits(bs, signedOut)
    ensures |bw.out| <= 1 + 6 * BLOCK_BITS && bw.words <= 287
  {
    hide Bin, Val, Spells, Pow2, BlocksBits;
    bw := new BitWriter(1024);
    EndNumber();
    PutNumber(bw, 1, 1);
    var preds: Predictors := RESET;
    for idx := 0 to 6
      invariant bw.Valid() && fresh(bw) && fresh(bw.buf) && bw.buf.Length == 1024
      invariant bw.out + BlocksBits(bs, signedOut, idx, preds) == MacroBits(bs, signedOut)
      invariant |bw.out| <= 1 + idx * BLOCK_BITS
    {
      preds := EncodeNext(bw, bs, signedOut, idx, preds);
    }
    NoBlocksLeft(bs, signedOut, preds);
  }

  lemma NoBlocksLeft(bs: Six, signedOut: bool, preds: Predictors)
    ensures BlocksBits(bs, signedOut, 6, preds) == []
  {
  }

  /** n zero bits. */
  function Zeros(n: nat): Bits { seq(n, _ => false) }

  lemma {:induction false} BinZeros(n: nat)
    ensures Bin(0, n) == Zeros(n)
  {
    if n > 0 { BinZeros(n - 1); }
  }

  /** The byte FFh after at least 32 zero bits, and 56 zero bits at least behind it. */
  function Marker(): Bits { Zeros(32) + Bin(0xFF00_0000, 32) + Zeros(32) }

  /** Slice termination: zeros to a whole word, the marker, and zeros to a whole quadword. */
  method Terminate(bw: BitWriter)
    requires bw.Valid() && bw.buf.Length == 1024 && |bw.out| <= 1 + 6 * BLOCK_BITS
    modifies bw, bw.buf
    ensures bw.Valid() && bw.bits == 32 && bw.words % 4 == 0 && bw.words <= 294
    ensures exists m, n :: 0 <= m < 32 && 0 <= n < 128 && bw.out == old(bw.out) + Zeros(m) + Marker() + Zeros(n)
    ensures |bw.out| == 32 * bw.words
  {
    assert bw.words <= 287 by { hide Bin, Val, Spells, Pow2; }
    hide Bin, bw.Valid, Marker, Zeros;
    ghost var m := if bw.bits < 32 then bw.bits else 0;
    BinZeros(m);
    bw.Flush();
    ghost var n := PadWords(bw);
  }

  method PadWords(bw: BitWriter) returns (ghost n: nat)
    requires bw.Valid() && bw.bits == 32 && bw.buf.Length == 1024 && bw.words <= 288
    modifies bw, bw.buf
    ensures bw.Valid() && bw.bits == 32 && bw.words % 4 == 0 && bw.words <= 294
    ensures n < 128 && bw.out == old(bw.out) + Marker() + Zeros(n)
  {
    hide Bin, bw.Valid, Zeros;
    BinZeros(32);
    bw.PadWord(0);
    bw.PadWord(0xFF00_0000);
    bw.PadWord(0);
    n := 0;
    NoZeros(bw.out);
    assert bw.out == old(bw.out) + Marker();
    hide Marker;
    for i := 0 to 3
      invariant bw.Valid() && bw.bits == 32 && bw.words <= 291 + i
      invariant n <= 32 * i && bw.out == old(bw.out) + Marker() + Zeros(n)
      invariant bw.words % 4 == 0 || (bw.words + 3 - i) % 4 <= 3 - i
    {
      if bw.words % 4 != 0 {
        MoreZeros(n);
        bw.PadWord(0);
        n := n + 32;
        assert bw.out == old(bw.out) + Marker() + (Zeros(n - 32) + Zeros(32));
      }
    }
  }

  lemma NoZeros(b: Bits)
    ensures b + Zeros(0) == b
  {
  }

  lemma MoreZeros(n: nat)
    ensures Zeros(n) + Zeros(32) == Zeros(n + 32)
  {
  }

  // ---- Run-length data and the coefficients it places --------------------------------------------

  const END_OF_DATA := 0xFE00

  type HalfWord = v: nat | v < 0x1_0000 witness 0

  function RunOf(hw: HalfWord): nat { hw / 1024 }

  function LevelOf(hw: HalfWord): int { if hw % 1024 < 512 then hw % 1024 else hw % 1024 - 1024 }

  function Clip(v: int): (c: int)
    ensures -1024 <= c <= 1023
  {
    if v < -1024 then -1024 else if v > 1023 then 1023 else v
  }

  /** Division by 8 toward zero. */
  function Eighth(v: int): int { if v >= 0 then v / 8 else -(-v / 8) }

  type QuantTable = s: seq<nat> | |s| == 64 witness seq(64, _ => 0)

  function Dequantized(hw: HalfWord, qt: QuantTable, scale: nat, k: nat): int
    requires k < 64
  {
    Clip(Eighth(LevelOf(hw) * qt[k] * scale + 4))
  }

  /** Every coefficient of a block after position k, those that dequantize to zero included. */
  function Terms(p: seq<HalfWord>, qt: QuantTable, scale: nat, k: nat): seq<Coef> {
    if p == [] || p[0] == END_OF_DATA || k >= 63 || k + RunOf(p[0]) + 1 >= 64 then []
    else
      var k' := k + RunOf(p[0]) + 1;
      [Coef(RunOf(p[0]), Dequantized(p[0], qt, scale, k'))] + Terms(p[1..], qt, scale, k')
  }

  /** The list that is encoded leaves zero coefficients out. */
  function Kept(ts: seq<Coef>): seq<Coef> {
    if ts == [] then [] else Kept(ts[..|ts| - 1]) + if ts[|ts| - 1].level != 0 then [ts[|ts| - 1]] else []
  }

  /** The AC loop of ipu_decode_macroblock.  There is always room for 63 coefficients. */
  method ParseAc(p: seq<HalfWord>, qt: QuantTable, scale: nat) returns (ac: seq<Coef>)
    ensures ac == Kept(Terms(p, qt, scale, 0)) && |ac| <= 63
    ensures forall i :: 0 <= i < |ac| ==> ac[i].run < 64 && ac[i].level != 0 && -1024 <= ac[i].level <= 1023
  {
    hide Dequantized, RunOf, Terms, Kept;
    ac := [];
    ghost var done: seq<Coef> := [];
    NothingKept();
    var k, i := 0, 0;
    while k < 63 && i < |p| && p[i] != END_OF_DATA && k + RunOf(p[i]) + 1 < 64
      invariant 0 <= i <= |p| && |ac| <= k <= 63
      invariant ac == Kept(done) && done + Terms(p[i..], qt, scale, k) == Terms(p[..], qt, scale, 0)
      invariant forall j :: 0 <= j < |ac| ==> ac[j].run < 64 && ac[j].level != 0 && -1024 <= ac[j].level <= 1023
    {
      var run := RunOf(p[i]);
      TermsStep(p, i, qt, scale, k);
      k := k + run + 1;
      var dq := Dequantized(p[i], qt, scale, k);
      DequantizedClipped(p[i], qt, scale, k);
      if dq != 0 && |ac| < 63 { ac := ac + [Coef(run, dq)]; }
      KeptMore(done, Coef(run, dq));
      done := done + [Coef(run, dq)];
      i := i + 1;
    }
    TermsEnd(p, i, qt, scale, k);
    assert done + [] == done && p[..] == p;
  }

  lemma NothingKept()
    ensures Kept([]) == []
  {
  }

  lemma KeptMore(ts: seq<Coef>, c: Coef)
    ensures Kept(ts + [c]) == Kept(ts) + if c.level != 0 then [c] else []
  {
    assert (ts + [c])[..|ts|] == ts;
  }

  lemma TermsStep(p: seq<HalfWord>, i: nat, qt: QuantTable, scale: nat, k: nat)
    requires i < |p| && k < 63 && p[i] != END_OF_DATA && k + RunOf(p[i]) + 1 < 64
    ensures var k' := k + RunOf(p[i]) + 1;
            Terms(p[i..], qt, scale, k) ==
            [Coef(RunOf(p[i]), Dequantized(p[i], qt, scale, k'))] + Terms(p[i + 1..], qt, scale, k')
  {
    assert p[i..][1..] == p[i + 1..];
  }

  lemma TermsEnd(p: seq<HalfWord>, i: nat, qt: QuantTable, scale: nat, k: nat)
    requires i <= |p| && (i < |p| && p[i] != END_OF_DATA && k < 63 ==> k + RunOf(p[i]) + 1 >= 64)
    ensures Terms(p[i..], qt, scale, k) == []
  {
  }

  lemma DequantizedClipped(hw: HalfWord, qt: QuantTable, scale: nat, k: nat)
    requires k < 64
    ensures -1024 <= Dequantized(hw, qt, scale, k) <= 1023
  {
  }

  /** Where a list of coefficients after position k puts its nonzero values. */
  function Places(ts: seq<Coef>, k: nat): seq<(nat, int)> {
    if ts == [] then []
    else
      var k' := k + ts[0].run + 1;
      (if ts[0].level != 0 then [(k', ts[0].level)] else []) + Places(ts[1..], k')
  }

  /** After the first zero coefficient there are only zeros. */
  ghost predicate ZerosLast(ts: seq<Coef>) {
    forall i, j :: 0 <= i < j < |ts| && ts[i].level == 0 ==> ts[j].level == 0
  }

  lemma {:induction false} KeptFront(ts: seq<Coef>)
    requires ts != []
    ensures Kept(ts) == (if ts[0].level != 0 then [ts[0]] else []) + Kept(ts[1..])
  {
    var n := |ts| - 1;
    if n > 0 {
      KeptFront(ts[..n]);
      assert ts[..n][1..] == ts[1..][..n - 1];
    }
  }

  lemma {:induction false} FirstPlace(ts: seq<Coef>, k: nat)
    ensures Kept(ts) == [] <==> forall i :: 0 <= i < |ts| ==> ts[i].level == 0
    ensures Kept(ts) == [] ==> Places(ts, k) == []
    ensures Kept(ts) != [] ==> Places(ts, k) != [] && Places(ts, k)[0].0 >= k + Kept(ts)[0].run + 1
  {
    if ts != [] {
      KeptFront(ts);
      FirstPlace(ts[1..], k + ts[0].run + 1);
      assert forall i :: 0 < i < |ts| ==> ts[i] == ts[1..][i - 1];
    }
  }

  /** A zero coefficient is left out together with its run, which moves the coefficients
      after it: the encoded list puts them where the MDEC does exactly when no zero
      coefficient has a nonzero one after it. */
  lemma {:induction false} DroppedZeroMoves(ts: seq<Coef>, k: nat)
    ensures Places(Kept(ts), k) == Places(ts, k) <==> ZerosLast(ts)
  {
    if ts != [] {
      hide Kept, ZerosLast;
      KeptFront(ts);
      if ts[0].level != 0 {
        DroppedZeroMoves(ts[1..], k + ts[0].run + 1);
        KeptHead(ts[0], ts[1..], Kept(ts[1..]), k);
        ZerosLastTail(ts);
        assert ts == [ts[0]] + ts[1..];
      } else {
        ZeroHead(ts, k);
      }
    } else {
      NothingKept();
    }
  }

  lemma KeptHead(c: Coef, ts: seq<Coef>, us: seq<Coef>, k: nat)
    requires c.level != 0
    ensures Places([c] + us, k) == Places([c] + ts, k) <==> Places(us, k + c.run + 1) == Places(ts, k + c.run + 1)
  {
    var x, k' := (k + c.run + 1, c.level), k + c.run + 1;
    assert ([c] + us)[1..] == us && ([c] + ts)[1..] == ts;
    assert ([x] + Places(us, k'))[1..] == Places(us, k') && ([x] + Places(ts, k'))[1..] == Places(ts, k');
  }

  lemma ZeroHead(ts: seq<Coef>, k: nat)
    requires ts != [] && ts[0].level == 0
    ensures Places(Kept(ts), k) == Places(ts, k) <==> ZerosLast(ts)
  {
    hide Kept, ZerosLast;
    KeptFront(ts);
    FirstPlace(ts[1..], k + ts[0].run + 1);
    ZeroFirst(ts);
    assert forall i :: 0 < i < |ts| ==> ts[i] == ts[1..][i - 1];
    assert Kept(ts) == Kept(ts[1..]);
    if Kept(ts) != [] {
      KeptNonzero(ts);
      assert Places(Kept(ts), k)[0].0 == k + Kept(ts)[0].run + 1;
      assert Places(ts, k) == Places(ts[1..], k + ts[0].run + 1);
    } else {
      assert Places(ts, k) == Places(ts[1..], k + ts[0].run + 1) == [];
    }
  }

  lemma ZerosLastTail(ts: seq<Coef>)
    requires ts != [] && ts[0].level != 0
    ensures ZerosLast(ts) <==> ZerosLast(ts[1..])
  {
    if ZerosLast(ts[1..]) {
      forall i, j | 0 <= i < j < |ts| && ts[i].level == 0 ensures ts[j].level == 0 {
        assert ts[1..][i - 1] == ts[i] && ts[1..][j - 1] == ts[j];
      }
    }
  }

  lemma ZeroFirst(ts: seq<Coef>)
    requires ts != [] && ts[0].level == 0
    ensures ZerosLast(ts) <==> forall i :: 0 <= i < |ts| ==> ts[i].level == 0
  {
  }

  lemma {:induction false} KeptNonzero(ts: seq<Coef>)
    ensures forall i :: 0 <= i < |Kept(ts)| ==> Kept(ts)[i].level != 0
  {
    if ts != [] { KeptNonzero(ts[..|ts| - 1]); }
  }

  const EXAMPLE: seq<HalfWord> := [1, 60, END_OF_DATA]

  lemma ExampleTerms(qt: QuantTable)
    requires qt[1] == qt[2] == 1
    ensures Terms(EXAMPLE, qt, 1, 0) == [Coef(0, 0), Coef(0, 8)]
  {
    TermsStep(EXAMPLE, 0, qt, 1, 0);
    TermsStep(EXAMPLE, 1, qt, 1, 1);
    TermsEnd(EXAMPLE, 2, qt, 1, 2);
    hide Terms;
    assert EXAMPLE[0..] == EXAMPLE;
    assert Dequantized(1, qt, 1, 1) == Clip(Eighth(1 * 1 * 1 + 4)) == 0;
    assert Dequantized(60, qt, 1, 2) == Clip(Eighth(60 * 1 * 1 + 4)) == 8;
  }

  /** A block of two halfwords, levels 1 and 60 with no runs, and quantizers and scale of 1:
      the levels dequantize to 0 and 8, and 8 moves from position 2 to position 1. */
  lemma DroppedZeroExample()
    ensures var ts := Terms(EXAMPLE, seq(64, _ => 1), 1, 0);
            Places(ts, 0) == [(2, 8)] && Places(Kept(ts), 0) == [(1, 8)] && !ZerosLast(ts)
  {
    ExampleTerms(seq(64, _ => 1));
    var ts := [Coef(0, 0), Coef(0, 8)];
    hide Terms;
    KeptFront(ts);
    KeptFront(ts[1..]);
    assert ts[1..] == [Coef(0, 8)] && ts[1..][1..] == [];
    assert ts[0].level == 0 && ts[1].level != 0;
  }
}
