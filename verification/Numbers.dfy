/** The integers that 32-bit words stand for, digit by digit. */
module Numbers {
  import opened Arithmetic

  function Half(v: bv32): bv32 { v >> 1 }

  predicate Odd(v: bv32) { v & 1 != 0 }

  function Joined(x: bv32, odd: bool): bv32 { (x << 1) | if odd then 1 else 0 }

  /** The number that the k lowest digits of v spell. */
  function Low(v: bv32, k: nat): (n: nat)
    ensures n < Pow2(k)
  {
    if k == 0 then 0 else 2 * Low(Half(v), k - 1) + if Odd(v) then 1 else 0
  }

  /** The k lowest binary digits of n. */
  function Digits(n: nat, k: nat): bv32 {
    if k == 0 then 0 else Joined(Digits(n / 2, k - 1), n % 2 == 1)
  }

  const TWO32 := 0x1_0000_0000

  /** v as an unsigned number. */
  function Value(v: bv32): (n: nat)
    ensures n < TWO32
  {
    PowerIs();
    Low(v, 32)
  }

  lemma PowerIs()
    ensures Pow2(31) == 0x8000_0000 && Pow2(32) == TWO32
  {
    assert Pow2(8) == 0x100;
    assert Pow2(16) == 0x1_0000;
    assert Pow2(24) == 0x100_0000;
  }

  /** x as a word, whatever it is modulo 2^32. */
  function ToWord(x: int): bv32 { Digits(x % TWO32, 32) }

  /** v as a number in two's complement. */
  function Signed(v: bv32): (x: int)
    ensures -0x8000_0000 <= x < 0x8000_0000
  {
    if Value(v) < 0x8000_0000 then Value(v) else Value(v) - TWO32
  }

  // ---- Words and numbers determine each other ------------------------------------------

  /** v has k digits at most. */
  predicate Fits(v: bv32, k: nat)
    decreases k
  {
    if k == 0 then v == 0 else Fits(Half(v), k - 1)
  }

  function Mask(k: nat): bv32 { if k == 0 then 1 else Joined(Mask(k - 1), false) }

  lemma MaskIs()
    ensures Mask(31) == 0x8000_0000
  {
    assert Mask(8) == 0x100;
    assert Mask(16) == 0x1_0000;
    assert Mask(24) == 0x100_0000;
  }

  lemma ZeroHalf()
    ensures Half(0) == 0 && !Odd(0)
  {
  }

  lemma {:induction false} FitsMore(v: bv32, k: nat, n: nat)
    requires Fits(v, k) && k <= n
    ensures Fits(v, n)
    decreases n
  {
    hide Half;
    ZeroHalf();
    if k > 0 {
      FitsMore(Half(v), k - 1, n - 1);
    } else if n > 0 {
      FitsMore(0, 0, n - 1);
    }
  }

  lemma {:induction false} TopClear(v: bv32, k: nat)
    requires Fits(v, k)
    ensures v & Mask(k) == 0
    decreases k
  {
    hide Half, Joined;
    if k > 0 {
      TopClear(Half(v), k - 1);
      MaskUp(v, Mask(k - 1));
    } else {
      assert 0 & Mask(0) == 0;
    }
  }

  lemma MaskUp(v: bv32, m: bv32)
    ensures Half(v) & m == 0 ==> v & Joined(m, false) == 0
    ensures m & 0x8000_0000 == 0 && v & Joined(m, false) == 0 ==> Half(v) & m == 0
  {
  }

  lemma JoinedParts(x: bv32, odd: bool)
    ensures x & 0x8000_0000 == 0 ==> Half(Joined(x, odd)) == x
    ensures Odd(Joined(x, odd)) == odd
  {
  }

  lemma {:induction false} DigitsFit(n: nat, k: nat)
    requires k <= 32
    ensures Fits(Digits(n, k), k) && Low(Digits(n, k), k) == n % Pow2(k)
    decreases k
  {
    hide Half, Joined, Odd;
    if k > 0 {
      var x := Digits(n / 2, k - 1);
      DigitsFit(n / 2, k - 1);
      FitsMore(x, k - 1, 31);
      TopClear(x, 31);
      MaskIs();
      JoinedParts(x, n % 2 == 1);
      LowDigit(n, Pow2(k - 1));
    }
  }

  lemma LowDigit(n: nat, p: nat)
    requires p > 0
    ensures n % (2 * p) == 2 * (n / 2 % p) + n % 2
  {
    var q := n / 2 / p;
    assert n / 2 == p * q + n / 2 % p;
    assert n == 2 * p * q + (2 * (n / 2 % p) + n % 2);
    Unique(n, 2 * p, q, 2 * (n / 2 % p) + n % 2);
  }

  lemma Multiple(d: nat, k: int)
    requires d * k < d && d * k > -(d as int)
    ensures k == 0
  {
  }

  lemma Unique(n: nat, d: nat, q: nat, r: nat)
    requires r < d && n == d * q + r
    ensures n % d == r
  {
    assert d * (n / d - q) == r - n % d;
    Multiple(d, n / d - q);
  }

  /** A number in range survives being put into a word. */
  lemma WordHolds(x: int)
    ensures Value(ToWord(x)) == x % TWO32
    ensures -0x8000_0000 <= x < 0x8000_0000 ==> Signed(ToWord(x)) == x
    ensures 0 <= x < TWO32 ==> Value(ToWord(x)) == x
  {
    hide Digits, Low;
    DigitsFit(x % TWO32, 32);
    PowerIs();
  }

  lemma {:induction false} LowInjective(v: bv32, w: bv32, k: nat)
    requires Fits(v, k) && Fits(w, k) && Low(v, k) == Low(w, k)
    ensures v == w
    decreases k
  {
    hide Half, Odd;
    if k > 0 {
      LowInjective(Half(v), Half(w), k - 1);
      Rejoined(v, w);
    }
  }

  lemma Rejoined(v: bv32, w: bv32)
    ensures Half(v) == Half(w) && Odd(v) == Odd(w) ==> v == w
  {
  }

  /** Negative words are those with the top bit set. */
  lemma {:induction false} TopBit(v: bv32, k: nat)
    requires k < 32
    ensures Low(v, k + 1) >= Pow2(k) <==> v & Mask(k) != 0
    decreases k
  {
    hide Half, Odd, Joined;
    if k == 0 {
      BottomBit(v);
    } else {
      TopBit(Half(v), k - 1);
      MaskBit(k - 1);
      MaskUp(v, Mask(k - 1));
    }
  }

  lemma BottomBit(v: bv32)
    ensures Odd(v) <==> v & Mask(0) != 0
    ensures Low(v, 1) >= Pow2(0) <==> Odd(v)
  {
    hide Odd;
    assert Low(Half(v), 0) == 0;
    assert Pow2(0) == 1;
    assert v & 1 != 0 <==> Odd(v) by { OddIs(v); }
  }

  lemma OddIs(v: bv32)
    ensures v & 1 != 0 <==> Odd(v)
  {
  }

  lemma {:induction false} MaskBit(k: nat)
    requires k < 31
    ensures Mask(k) & 0x8000_0000 == 0
  {
    FitsMask(k);
  }

  lemma {:induction false} FitsMask(k: nat)
    requires k < 31
    ensures Fits(Mask(k), k + 1) && Mask(k) & 0x8000_0000 == 0
  {
    hide Half, Joined;
    if k > 0 {
      FitsMask(k - 1);
      JoinedParts(Mask(k - 1), false);
      FitsMore(Mask(k), k + 1, 31);
    } else {
      assert Half(1) == 0 by { OneHalf(); }
      FitsMore(Mask(k), 1, 31);
    }
    TopClear(Mask(k), 31);
    MaskIs();
  }

  lemma OneHalf()
    ensures Half(1) == 0
  {
  }

  // ---- Every word has 32 digits ------------------------------------------------------------

  /** All digits from the k-th on. */
  function High(k: nat): bv32
    requires k <= 32
    decreases 32 - k
  {
    if k == 32 then 0 else Half(High(k + 1)) | 0x8000_0000
  }

  lemma HighIs()
    ensures High(0) == 0xFFFF_FFFF
  {
    assert High(24) == 0xFF00_0000;
    assert High(16) == 0xFFFF_0000;
    assert High(8) == 0xFFFF_FF00;
  }

  lemma HalfBelow(v: bv32, h: bv32)
    ensures v & h == 0 ==> Half(v) & (Half(h) | 0x8000_0000) == 0
  {
  }

  lemma {:induction false} FitsBelow(v: bv32, k: nat)
    requires k <= 32 && v & High(k) == 0
    ensures Fits(v, k)
    decreases k
  {
    hide Half;
    if k > 0 {
      HalfBelow(v, High(k));
      FitsBelow(Half(v), k - 1);
    } else {
      HighIs();
      AllOnes(v);
    }
  }

  lemma AllOnes(v: bv32)
    ensures v & 0xFFFF_FFFF == 0 ==> v == 0
  {
  }

  lemma ValueInjective(v: bv32, w: bv32)
    requires Value(v) == Value(w)
    ensures v == w
  {
    hide Low, Fits;
    assert v & 0 == 0 == w & 0;
    FitsBelow(v, 32);
    FitsBelow(w, 32);
    LowInjective(v, w, 32);
  }

  lemma SignedInjective(v: bv32, w: bv32)
    requires Signed(v) == Signed(w)
    ensures v == w
  {
    hide Value;
    ValueInjective(v, w);
  }

  lemma NegativeBit(v: bv32)
    ensures v & 0x8000_0000 != 0 <==> Signed(v) < 0
    ensures Signed(v) < 0 <==> Value(v) >= 0x8000_0000
  {
    hide Low, Mask;
    TopBit(v, 31);
    MaskIs();
    PowerIs();
  }

  // ---- Sums ----------------------------------------------------------------------------------

  /** s moved up one place, with a new lowest digit. */
  function Twice(s: bv32, odd: bool): bv32 { if odd then 2 * s + 1 else 2 * s }

  function Added(a: bv32, b: bv32, carry: bool): bv32 { if carry then a + b + 1 else a + b }

  /** What a column of digits p and q and a carry c passes on. */
  predicate Carry(p: bool, q: bool, c: bool) { if p == q then p else c }

  lemma Split(a: bv32)
    ensures a == Twice(Half(a), Odd(a))
  {
  }

  lemma DoubleHalf(s: bv32, odd: bool)
    ensures Odd(Twice(s, odd)) == odd && Half(Twice(s, odd)) == s & 0x7FFF_FFFF
  {
  }

  lemma TwiceIs(x: bv32)
    ensures Twice(x, false) == 2 * x && Twice(x, true) == 2 * x + 1
  {
  }

  lemma AddedIs(x: bv32, y: bv32)
    ensures Added(x, y, false) == x + y && Added(x, y, true) == x + y + 1
  {
  }

  lemma RingEven(x: bv32, y: bv32)
    ensures Added(2 * x, 2 * y, false) == Twice(x + y, false)
    ensures Added(2 * x, 2 * y, true) == Twice(x + y, true)
  {
  }

  lemma RingFirst(x: bv32, y: bv32)
    ensures Added(2 * x + 1, 2 * y, false) == Twice(x + y, true)
    ensures Added(2 * x + 1, 2 * y, true) == Twice(x + y + 1, false)
  {
  }

  lemma RingSecond(x: bv32, y: bv32)
    ensures Added(2 * x, 2 * y + 1, false) == Twice(x + y, true)
    ensures Added(2 * x, 2 * y + 1, true) == Twice(x + y + 1, false)
  {
  }

  lemma RingOdd(x: bv32, y: bv32)
    ensures Added(2 * x + 1, 2 * y + 1, false) == Twice(x + y + 1, false)
    ensures Added(2 * x + 1, 2 * y + 1, true) == Twice(x + y + 1, true)
  {
  }

  lemma Columns(x: bv32, y: bv32, c: bool)
    ensures Added(Twice(x, false), Twice(y, false), c) == Twice(Added(x, y, false), c)
    ensures Added(Twice(x, true), Twice(y, false), c) == Twice(Added(x, y, c), !c)
    ensures Added(Twice(x, false), Twice(y, true), c) == Twice(Added(x, y, c), !c)
    ensures Added(Twice(x, true), Twice(y, true), c) == Twice(Added(x, y, true), c)
  {
    hide *;
    TwiceIs(x);
    TwiceIs(y);
    AddedIs(x, y);
    RingEven(x, y);
    RingFirst(x, y);
    RingSecond(x, y);
    RingOdd(x, y);
  }

  lemma Column(a: bv32, b: bv32, carry: bool)
    ensures Added(a, b, carry) ==
            Twice(Added(Half(a), Half(b), Carry(Odd(a), Odd(b), carry)), (Odd(a) == Odd(b)) == carry)
  {
    hide Half, Odd, Added, Twice;
    Split(a);
    Split(b);
    Columns(Half(a), Half(b), carry);
  }

  /** m has its k lowest digits set. */
  predicate Full(m: bv32, k: nat)
    decreases k
  {
    k == 0 || (Odd(m) && Full(Half(m), k - 1))
  }

  function Ones(k: nat): bv32 { if k == 0 then 0 else Joined(Ones(k - 1), true) }

  lemma OnesAre()
    ensures Ones(31) == 0x7FFF_FFFF
  {
    assert Ones(8) == 0xFF;
    assert Ones(16) == 0xFFFF;
    assert Ones(24) == 0xFF_FFFF;
  }

  lemma {:induction false} OnesFull(k: nat)
    requires k <= 31
    ensures Full(Ones(k), k) && Fits(Ones(k), k)
    decreases k
  {
    hide Half, Joined, Odd;
    if k > 0 {
      OnesFull(k - 1);
      FitsMore(Ones(k - 1), k - 1, 31);
      TopClear(Ones(k - 1), 31);
      MaskIs();
      JoinedParts(Ones(k - 1), true);
    }
  }

  lemma AndParts(v: bv32, m: bv32)
    ensures Half(v & m) == Half(v) & Half(m) && (Odd(v & m) <==> Odd(v) && Odd(m))
  {
  }

  lemma {:induction false} LowMasked(v: bv32, m: bv32, k: nat)
    requires Full(m, k)
    ensures Low(v & m, k) == Low(v, k)
    decreases k
  {
    hide Half, Odd;
    if k > 0 {
      AndParts(v, m);
      LowMasked(Half(v), Half(m), k - 1);
    }
  }

  /** Schoolbook addition. */
  lemma {:induction false} LowSum(a: bv32, b: bv32, carry: bool, k: nat)
    requires k <= 32
    ensures Low(Added(a, b, carry), k) == (Low(a, k) + Low(b, k) + if carry then 1 else 0) % Pow2(k)
    decreases k
  {
    hide Half, Odd, Added, Twice, Full, Ones, Carry;
    if k > 0 {
      var x, y := Half(a), Half(b);
      var up, odd := Carry(Odd(a), Odd(b), carry), (Odd(a) == Odd(b)) == carry;
      Column(a, b, carry);
      LowSum(x, y, up, k - 1);
      LowDoubled(Added(x, y, up), odd, k);
      SumDigits(Low(x, k - 1), Low(y, k - 1), Odd(a), Odd(b), carry, Pow2(k - 1));
    }
  }

  /** One column in numbers: the digit that stays, and the carry to the others. */
  lemma SumDigits(x: nat, y: nat, a: bool, b: bool, carry: bool, p: nat)
    requires p > 0
    ensures (2 * x + (if a then 1 else 0) + (2 * y + if b then 1 else 0) + if carry then 1 else 0) % (2 * p)
         == 2 * ((x + y + if Carry(a, b, carry) then 1 else 0) % p) + if (a == b) == carry then 1 else 0
  {
    LowDigit(2 * x + (if a then 1 else 0) + (2 * y + if b then 1 else 0) + (if carry then 1 else 0), p);
  }

  lemma LowDoubled(s: bv32, odd: bool, k: nat)
    requires 0 < k <= 32
    ensures Low(Twice(s, odd), k) == 2 * Low(s, k - 1) + if odd then 1 else 0
  {
    hide Half, Odd, Full, Ones, Twice;
    DoubleHalf(s, odd);
    OnesFull(31);
    OnesAre();
    FullLess(0x7FFF_FFFF, 31, k - 1);
    LowMasked(s, 0x7FFF_FFFF, k - 1);
  }

  lemma {:induction false} FullLess(m: bv32, n: nat, k: nat)
    requires Full(m, n) && k <= n
    ensures Full(m, k)
    decreases k
  {
    if k > 0 { FullLess(Half(m), n - 1, k - 1); }
  }

  lemma ValueOfSum(a: bv32, b: bv32)
    ensures Value(a + b) == (Value(a) + Value(b)) % TWO32
  {
    hide Low, Pow2, Added;
    PowerIs();
    LowSum(a, b, false, 32);
    AddedIs(a, b);
  }

  lemma SumLaw()
    ensures forall a, b :: Value(Added(a, b, false)) == (Value(a) + Value(b)) % TWO32
  {
    hide Value, Added;
    forall a, b ensures Value(Added(a, b, false)) == (Value(a) + Value(b)) % TWO32 {
      ValueOfSum(a, b);
      AddedIs(a, b);
    }
  }

  lemma ValueOfDifference(a: bv32, b: bv32)
    ensures Value(a - b) == (Value(a) - Value(b)) % TWO32
  {
    hide Value, Added;
    SumLaw();
    Restored(a, b);
    var d := Value(a - b);
    Reduced(Value(a) - Value(b), d, if d + Value(b) >= TWO32 then -1 else 0);
  }

  lemma Restored(a: bv32, b: bv32)
    ensures Added(a - b, b, false) == a
  {
  }

  lemma Reduced(x: int, r: nat, q: int)
    requires r < TWO32 && x == q * TWO32 + r
    ensures x % TWO32 == r
  {
  }

  lemma SmallValues()
    ensures Value(0) == 0 && Value(1) == 1 && Signed(0) == 0 && Signed(1) == 1
  {
    hide Low;
    LowOfBit(0, 32);
    LowOfBit(1, 32);
  }

  lemma {:induction false} LowOfBit(v: bv32, k: nat)
    requires v == 0 || v == 1
    ensures Low(v, k) == if v == 1 && k > 0 then 1 else 0
    decreases k
  {
    hide Half, Odd;
    if k > 0 {
      LowOfBit(0, k - 1);
      Halves(v);
    }
  }

  lemma Halves(v: bv32)
    requires v == 0 || v == 1
    ensures Half(v) == 0 && Odd(v) == (v == 1)
  {
  }

  /** x brought into the range of 32-bit numbers in two's complement. */
  function Wrapped(x: int): (y: int)
    ensures -0x8000_0000 <= y < 0x8000_0000 && (y - x) % TWO32 == 0
  {
    (x + 0x8000_0000) % TWO32 - 0x8000_0000
  }

  lemma WrappedOnce(x: int, y: int, q: int)
    requires -0x8000_0000 <= y < 0x8000_0000 && x == y + q * TWO32
    ensures Wrapped(x) == y
  {
    Reduced(x + 0x8000_0000, y + 0x8000_0000, q);
  }

  /** Sums and differences in two's complement. */
  lemma SignedSums(a: bv32, b: bv32)
    ensures Signed(a + b) == Wrapped(Signed(a) + Signed(b))
    ensures Signed(a - b) == Wrapped(Signed(a) - Signed(b))
  {
    hide Value, Wrapped;
    ValueOfSum(a, b);
    SignedFollows(Value(a) + Value(b), Value(a + b), Signed(a) + Signed(b), Signed(a + b));
    ValueOfDifference(a, b);
    SignedFollows(Value(a) - Value(b), Value(a - b), Signed(a) - Signed(b), Signed(a - b));
  }

  lemma SignedFollows(x: int, r: int, s: int, t: int)
    requires r == x % TWO32 && -0x8000_0000 <= t < 0x8000_0000
    requires t == r || t == r - TWO32
    requires s == x || s == x - TWO32 || s == x - 2 * TWO32 || s == x + TWO32
    ensures Wrapped(s) == t
  {
    var k := x / TWO32;
    assert x == r + k * TWO32;
    var i, j := if t == r then 0 else 1,
                if s == x then 0 else if s == x - TWO32 then -1 else if s == x + TWO32 then 1 else -2;
    WrappedOnce(s, t, k + i + j);
  }
}
