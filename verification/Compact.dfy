/** The compact format: a 32-bit floating form of an integer, with a size in bytes
    as its exponent, a sign bit and a 23-bit mantissa. */
module Compact {
  import opened Numerals
  import opened BigNum

  const SIGN := 0x80_0000
  const EXPONENT := 0x100_0000

  /** BN_num_bytes */
  function NumBytes(a: nat): nat {
    |Bytes(a)|
  }

  // ----- the two conversions -----

  /** The magnitude a code of size `nSize` and mantissa `nWord` stands for. */
  function Unpacked(nSize: nat, nWord: nat): nat {
    if nSize <= 3 then nWord / Pow(256, 3 - nSize) else nWord * Pow(256, nSize - 3)
  }

  function FromCompact(c: nat): int {
    WithSign(c / SIGN % 2 == 1, Unpacked(c / EXPONENT, c % SIGN))
  }

  /** The three leading bytes of a number. */
  function Leading(a: nat): nat {
    hide Pow, Bytes;
    if NumBytes(a) <= 3 then a * Pow(256, 3 - NumBytes(a)) else a / Pow(256, NumBytes(a) - 3)
  }

  function Mantissa(a: nat): nat {
    if Leading(a) >= SIGN then Leading(a) / 256 else Leading(a)
  }

  function Size(a: nat): nat {
    if Leading(a) >= SIGN then NumBytes(a) + 1 else NumBytes(a)
  }

  function ToCompact(x: int): nat {
    Size(Abs(x)) * EXPONENT % WORD + Mantissa(Abs(x)) + if x < 0 then SIGN else 0
  }

  // ----- powers of 256 -----

  lemma PUp(n: nat)
    ensures Pow(256, n + 1) == Pow(256, n) * 256
  {
  }

  lemma PSmall()
    ensures Pow(256, 0) == 1 && Pow(256, 1) == 256 && Pow(256, 2) == 0x1_0000 && Pow(256, 3) == 0x100_0000
  {
    assert Pow(256, 1) == Pow(256, 0) * 256;
    assert Pow(256, 2) == Pow(256, 1) * 256;
    assert Pow(256, 3) == Pow(256, 2) * 256;
  }

  lemma PSum(m: nat, n: nat)
    ensures Pow(256, m + n) == Pow(256, m) * Pow(256, n)
  {
    PowAdd(256, m, n);
  }

  lemma NumBytesBounds(a: nat)
    ensures a < Pow(256, NumBytes(a)) && (a > 0 ==> NumBytes(a) > 0 && Pow(256, NumBytes(a) - 1) <= a) && (a == 0 ==> NumBytes(a) == 0)
  {
    ValueOfDigits(256, a);
    ValueBound(256, Bytes(a));
    if a > 0 {
      ValueAtLeast(256, Bytes(a));
    }
  }

  lemma NumBytesIs(a: nat, n: nat)
    requires n > 0 && Pow(256, n - 1) <= a < Pow(256, n)
    ensures NumBytes(a) == n
  {
    NumBytesBounds(a);
    if NumBytes(a) < n {
      PowMonotone(256, NumBytes(a), n - 1);
    } else if n < NumBytes(a) {
      PowMonotone(256, n, NumBytes(a) - 1);
    }
  }

  lemma DivBounds(a: nat, p: nat, lo: nat, hi: nat)
    requires p > 0 && lo * p <= a < hi * p
    ensures lo <= a / p < hi
  {
    var q, r := a / p, a % p;
    assert a == q * p + r;
    if q < lo {
      QuotientLess(q, lo, p, r);
    } else if hi <= q {
      MulMono(hi, q, p);
    }
  }

  lemma LeadingBounds(a: nat)
    ensures a == 0 ==> Leading(a) == 0
    ensures a > 0 ==> 0x1_0000 <= Leading(a) < 0x100_0000
  {
    hide Pow;
    NumBytesBounds(a);
    PSmall();
    var n := NumBytes(a);
    if a > 0 && n <= 3 {
      PSum(n - 1, 3 - n);
      PSum(n, 3 - n);
      MulMono(Pow(256, n - 1), a, Pow(256, 3 - n));
      MulMono(a + 1, Pow(256, n), Pow(256, 3 - n));
    } else if a > 0 {
      PSum(2, n - 3);
      PSum(3, n - 3);
      DivBounds(a, Pow(256, n - 3), 0x1_0000, 0x100_0000);
    }
  }

  /** Mantissas are normalised: they use at least 16 of their 23 bits. */
  lemma MantissaBounds(a: nat)
    ensures Mantissa(a) < SIGN && (a > 0 ==> Mantissa(a) >= 0x8000) && (a == 0 ==> Mantissa(a) == 0 && Size(a) == 0)
  {
    hide Leading, NumBytes;
    LeadingBounds(a);
    NumBytesZero();
  }

  lemma NumBytesZero()
    ensures NumBytes(0) == 0
  {
  }

  // ----- what is kept -----

  /** With a size of at least 3, the mantissa is the number without its low bytes; below that nothing is lost. */
  lemma MantissaIs(a: nat)
    requires a > 0
    ensures Size(a) >= 3 ==> Mantissa(a) == a / Pow(256, Size(a) - 3)
    ensures Size(a) <= 3 ==> Unpacked(Size(a), Mantissa(a)) == a
  {
    hide Pow;
    LeadingBounds(a);
    NumBytesBounds(a);
    PSmall();
    var n := NumBytes(a);
    if n >= 3 {
      if Leading(a) >= SIGN {
        PUp(n - 3);
        DivTwice(a, Pow(256, n - 3));
      }
    } else if Leading(a) >= SIGN {
      PUp(2 - n);
      DownAgain(a, Pow(256, 2 - n));
    } else {
      DivOfMul(a, Pow(256, 3 - n), 0);
    }
  }

  lemma DownAgain(a: nat, p: nat)
    requires p > 0
    ensures a * (p * 256) / 256 == a * p && a * p / p == a
  {
    DivOfMul(a * p, 256, 0);
    assert a * (p * 256) == a * p * 256;
    DivOfMul(a, p, 0);
  }

  lemma Regroup(y: nat, s: nat, p: nat)
    ensures (y * 256 + s) * p == y * (p * 256) + s * p
  {
    assert y * 256 * p == y * (p * 256);
  }

  lemma DivTwice(a: nat, p: nat)
    requires p > 0
    ensures a / p / 256 == a / (p * 256)
  {
    var x, r := a / p, a % p;
    var y, s := x / 256, x % 256;
    Regroup(y, s, p);
    MulMono(s, 255, p);
    DivOfMul(y, p * 256, s * p + r);
    assert a == x * p + r;
  }

  /** The decoded magnitude, when the size fits its byte. */
  function Kept(a: nat): nat {
    Unpacked(Size(a), Mantissa(a))
  }

  /** What decoding keeps of a number: nothing but its lowest bytes is lost, and they are
      worth less than one part in 0x8000. */
  lemma KeptIsClose(a: nat)
    ensures Kept(a) <= a && (Kept(a) == a || (a - Kept(a)) * 0x8000 < Kept(a))
  {
    hide Pow, Leading, NumBytes;
    if a == 0 {
      MantissaBounds(0);
      ZeroKept();
    } else {
      MantissaBounds(a);
      MantissaIs(a);
      if Size(a) > 3 {
        var p, m := Pow(256, Size(a) - 3), Mantissa(a);
        assert a == m * p + a % p;
        MulMono(0x8000, m, p);
      }
    }
  }

  lemma ZeroKept()
    ensures Unpacked(0, 0) == 0
  {
    PSmall();
  }

  // ----- codes -----

  /** A code takes its fields apart again, as long as its size fits one byte. */
  lemma CodeFields(size: nat, word: nat, neg: bool)
    requires word < SIGN
    ensures var c := size * EXPONENT % WORD + word + (if neg then SIGN else 0);
      c < WORD && c / EXPONENT == size % 256 && c % SIGN == word && (c / SIGN % 2 == 1 <==> neg)
  {
    assert size * EXPONENT % WORD == size % 256 * EXPONENT;
  }

  lemma FromToCompact(x: int)
    ensures FromCompact(ToCompact(x)) == WithSign(x < 0, Unpacked(Size(Abs(x)) % 256, Mantissa(Abs(x))))
    ensures ToCompact(x) < WORD
  {
    hide Size, Mantissa, Unpacked;
    MantissaBounds(Abs(x));
    CodeFields(Size(Abs(x)), Mantissa(Abs(x)), x < 0);
  }

  /** The numbers whose size fits the exponent byte: those below 2^2039. */
  ghost predicate Fits(a: nat) {
    a < 0x80 * Pow(256, 254)
  }

  lemma QuotientBelow(a: nat, p: nat, k: nat)
    requires p > 0
    ensures a < k * p <==> a / p < k
  {
    var q := a / p;
    assert a == q * p + a % p;
    if q >= k {
      MulMono(k, q, p);
    } else {
      QuotientLess(q, k, p, a % p);
    }
  }

  lemma FitsIs(a: nat)
    ensures Fits(a) <==> a / Pow(256, 252) < SIGN
  {
    hide Pow;
    PSum(2, 252);
    PSmall();
    QuotientBelow(a, Pow(256, 252), SIGN);
  }

  lemma FitsSize(a: nat)
    ensures Fits(a) <==> Size(a) <= 255
  {
    hide Pow, NumBytes;
    NumBytesBounds(a);
    var n := NumBytes(a);
    if n <= 254 {
      PowMonotone(256, n, 254);
    } else if n >= 256 {
      PowMonotone(256, 255, n - 1);
      PUp(254);
    } else {
      FitsIs(a);
    }
  }

  /** `t` has the sign of `x` and is at most one part in 0x8000 nearer to zero. */
  ghost predicate Close(x: int, t: int) {
    && Abs(t) <= Abs(x) && (t < 0 ==> x < 0) && (t > 0 ==> x > 0)
    && (t == x || (Abs(x) - Abs(t)) * 0x8000 < Abs(t))
  }

  /** What the wrapped size decodes to is far below the number. */
  lemma WrappedIsSmall(a: nat)
    requires Size(a) >= 256
    ensures Unpacked(Size(a) % 256, Mantissa(a)) * 256 <= a && a > 0
  {
    hide Pow, Leading, NumBytes, Unpacked;
    MantissaBounds(a);
    MantissaIs(a);
    var e, m := Size(a), Mantissa(a);
    PUp(e - 4);
    UnpackedAtMost(e % 256, m, e - 4);
    TimesPow(a, m, Pow(256, e - 4), Unpacked(e % 256, m));
  }

  lemma UnpackedAtMost(w: nat, m: nat, k: nat)
    requires w <= k + 3
    ensures Unpacked(w, m) <= m * Pow(256, k)
  {
    hide Pow;
    if w <= 3 {
      QuotientAtMost(m, Pow(256, 3 - w), Pow(256, k));
    } else {
      PowMonotone(256, w - 3, k);
      MulMono(Pow(256, w - 3), Pow(256, k), m);
      assert m * Pow(256, w - 3) <= m * Pow(256, k);
    }
  }

  lemma QuotientAtMost(m: nat, q: nat, p: nat)
    requires q > 0 && p > 0
    ensures m / q <= m * p
  {
    DivSmaller'(m, q);
    MulMono(1, p, m);
  }

  lemma TimesPow(a: nat, m: nat, p: nat, t: nat)
    requires p > 0 && m == a / (p * 256) && t <= m * p
    ensures t * 256 <= a
  {
    assert a == m * (p * 256) + a % (p * 256);
    assert m * (p * 256) == m * p * 256;
  }

  lemma DivSmaller'(m: nat, p: nat)
    requires p > 0
    ensures m / p <= m
  {
    var q := m / p;
    assert m == q * p + m % p;
    MulMono(1, p, q);
  }

  /** Decoding an encoded number gives a close one exactly if the number is below 2^2039. */
  lemma CompactIsClose(x: int)
    ensures Close(x, FromCompact(ToCompact(x))) <==> Fits(Abs(x))
  {
    hide Size, Mantissa, Unpacked, Fits, Pow;
    FromToCompact(x);
    FitsSize(Abs(x));
    if Size(Abs(x)) <= 255 {
      KeptIsClose(Abs(x));
    } else {
      WrappedIsSmall(Abs(x));
    }
  }

  /** Three or two leading bytes, and zeros after them. */
  lemma ScaledByThree(e: nat, m: nat)
    requires e >= 4 && 0x1_0000 <= m < 0x100_0000
    ensures NumBytes(m * Pow(256, e - 3)) == e && Leading(m * Pow(256, e - 3)) == m
  {
    hide Pow, NumBytes;
    PSmall();
    var p := Pow(256, e - 3);
    PSum(2, e - 3);
    PSum(3, e - 3);
    MulMono(0x1_0000, m, p);
    QuotientLess(m, 0x100_0000, p, 0);
    NumBytesIs(m * p, e);
    DivOfMul(m, p, 0);
  }

  lemma ScaledByTwo(e: nat, m: nat)
    requires e >= 4 && 0x8000 <= m < 0x1_0000
    ensures NumBytes(m * Pow(256, e - 3)) == e - 1 && Leading(m * Pow(256, e - 3)) == m * 256
  {
    hide Pow, NumBytes;
    PSmall();
    var p, q := Pow(256, e - 3), Pow(256, e - 4);
    PUp(e - 4);
    PSum(1, e - 3);
    PSum(2, e - 3);
    MulMono(256, m, p);
    QuotientLess(m, 0x1_0000, p, 0);
    NumBytesIs(m * p, e - 1);
    Regrouped(m, q);
    if e > 4 {
      DivOfMul(m * 256, q, 0);
    }
  }

  lemma Regrouped(m: nat, q: nat)
    ensures m * (q * 256) == m * 256 * q
  {
  }

  /** A number with only its leading bytes set has the size and mantissa it shows. */
  lemma ScaledParts(e: nat, m: nat)
    requires e >= 4 && 0x8000 <= m < SIGN
    ensures Size(m * Pow(256, e - 3)) == e && Mantissa(m * Pow(256, e - 3)) == m
  {
    hide Pow, NumBytes, Leading;
    if m >= 0x1_0000 {
      ScaledByThree(e, m);
    } else {
      ScaledByTwo(e, m);
      DivOfMul(m, 256, 0);
    }
  }

  lemma KeptParts(a: nat)
    ensures Size(Kept(a)) == Size(a) && Mantissa(Kept(a)) == Mantissa(a)
  {
    hide Pow, Leading, NumBytes, Size, Mantissa;
    MantissaBounds(a);
    if a == 0 {
      ZeroKept();
    } else {
      MantissaIs(a);
      if Size(a) > 3 {
        ScaledParts(Size(a), Mantissa(a));
      }
    }
  }

  /** Encoding what was decoded gives the same code again. */
  lemma CompactIsStable(x: int)
    requires Fits(Abs(x))
    ensures ToCompact(FromCompact(ToCompact(x))) == ToCompact(x)
  {
    hide Size, Mantissa, Unpacked, Fits, Pow;
    FromToCompact(x);
    FitsSize(Abs(x));
    KeptParts(Abs(x));
    MantissaBounds(Abs(x));
    KeptZero(Abs(x));
  }

  lemma KeptZero(a: nat)
    ensures Kept(a) == 0 <==> a == 0
  {
    hide Size, Mantissa, Unpacked;
    KeptIsClose(a);
  }

  // ----- order -----

  lemma DivMonotone(a: nat, b: nat, p: nat)
    requires p > 0 && a <= b
    ensures a / p <= b / p
  {
    var q := a / p;
    assert a == q * p + a % p;
    QuotientBelow(b, p, q);
    QuotientBelow(a, p, q);
  }

  lemma LeadingMonotone(a: nat, b: nat)
    requires a <= b && NumBytes(a) == NumBytes(b)
    ensures Leading(a) <= Leading(b)
  {
    hide Pow, NumBytes;
    var n := NumBytes(a);
    if n <= 3 {
      MulMono(a, b, Pow(256, 3 - n));
    } else {
      DivMonotone(a, b, Pow(256, n - 3));
    }
  }

  lemma NumBytesMonotone(a: nat, b: nat)
    requires a <= b
    ensures NumBytes(a) <= NumBytes(b)
  {
    hide Pow;
    NumBytesBounds(a);
    NumBytesBounds(b);
    if NumBytes(b) < NumBytes(a) {
      PowMonotone(256, NumBytes(b), NumBytes(a) - 1);
    }
  }

  /** On non-negative numbers the codes are ordered, as unsigned words, the way the numbers are. */
  lemma CompactIsMonotone(x: nat, y: nat)
    requires x <= y && Fits(y)
    ensures ToCompact(x) <= ToCompact(y)
  {
    hide Pow, Leading, NumBytes, Fits;
    NumBytesMonotone(x, y);
    FitsSize(y);
    MantissaBounds(x);
    MantissaBounds(y);
    if NumBytes(x) == NumBytes(y) {
      LeadingMonotone(x, y);
    }
    if Size(x) == Size(y) {
      if NumBytes(x) != NumBytes(y) {
        SameSizeMantissas(x, y);
      }
    }
  }

  /** When the sizes agree the mantissas are ordered, even if the byte counts differ. */
  lemma SameSizeMantissas(x: nat, y: nat)
    requires x <= y && Size(x) == Size(y) && NumBytes(x) < NumBytes(y)
    ensures Mantissa(x) <= Mantissa(y)
  {
    hide Pow, NumBytes;
    LeadingBounds(x);
    LeadingBounds(y);
    assert Mantissa(x) < 0x1_0000;
    if y == 0 {
      NumBytesZero();
    }
  }
}
