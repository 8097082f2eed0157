/** What every code of the compact format stands for, and which code a number gets. */
module CompactCodes {
  import opened Numerals
  import opened BigNum
  import opened Compact

  /** `a` is `m * 256^(e - 3)`, rounded down. */
  ghost predicate Truncates(a: nat, m: nat, e: nat) {
    a * 0x100_0000 <= m * Pow(256, e) < (a + 1) * 0x100_0000
  }

  lemma ScaleBoth(a: nat, b: nat, c: nat, p: nat)
    requires p > 0 && a <= b < c
    ensures a * p <= b * p < c * p
  {
    MulMono(a, b, p);
    MulMono(b + 1, c, p);
  }

  lemma UnpackedTruncates(m: nat, e: nat)
    ensures Truncates(Unpacked(e, m), m, e)
  {
    hide Pow;
    PSmall();
    if e <= 3 {
      var p, q := Pow(256, 3 - e), Pow(256, e);
      var u := m / p;
      PSum(3 - e, e);
      assert m == u * p + m % p;
      assert (u + 1) * p == u * p + p;
      ScaleBoth(u * p, m, (u + 1) * p, q);
      MulAssoc(u, p, q);
      MulAssoc(u + 1, p, q);
    } else {
      PSum(e - 3, 3);
      MulAssoc(m, Pow(256, e - 3), Pow(256, 3));
    }
  }

  /** Any code: eight bits of exponent, one of sign, 23 of mantissa. */
  lemma DecodedExactly(c: nat)
    requires c < 0x1_0000_0000
    ensures var x := FromCompact(c); var e, m := c / 0x100_0000, c % 0x80_0000;
      Truncates(Abs(x), m, e) && (x < 0 <==> c / 0x80_0000 % 2 == 1 && x != 0)
  {
    hide Unpacked;
    UnpackedTruncates(c % 0x80_0000, c / 0x100_0000);
  }

  lemma MantissaOfSmall(a: nat)
    requires a > 0 && Size(a) <= 3
    ensures Mantissa(a) == a * Pow(256, 3 - Size(a))
  {
    hide Pow, NumBytes;
    LeadingBounds(a);
    NumBytesBounds(a);
    PSmall();
    var n := NumBytes(a);
    if Leading(a) >= SIGN {
      PUp(2 - n);
      DownAgain(a, Pow(256, 2 - n));
    }
  }

  /** `m * 256^(e - 3)` is `a`, rounded down. */
  ghost predicate Starts(a: nat, m: nat, e: nat) {
    m * Pow(256, e) <= a * 0x100_0000 < (m + 1) * Pow(256, e)
  }

  lemma MantissaStarts(a: nat)
    requires a > 0
    ensures Starts(a, Mantissa(a), Size(a)) && Mantissa(a) >= 0x8000
  {
    hide Pow, Size, Mantissa;
    MantissaBounds(a);
    MantissaIs(a);
    PSmall();
    var e, m := Size(a), Mantissa(a);
    if e > 3 {
      var p := Pow(256, e - 3);
      PSum(e - 3, 3);
      assert a == m * p + a % p;
      assert (m + 1) * p == m * p + p;
      ScaleBoth(m * p, a, (m + 1) * p, Pow(256, 3));
      MulAssoc(m, p, Pow(256, 3));
      MulAssoc(m + 1, p, Pow(256, 3));
    } else {
      MantissaOfSmall(a);
      PSum(3 - e, e);
      MulAssoc(a, Pow(256, 3 - e), Pow(256, e));
      ScaleBoth(m, m, m + 1, Pow(256, e));
    }
  }

  /** The code of a number below 2^2039: its sign, its size in bytes with room for the sign bit,
      and its leading bytes, rounded down. */
  lemma EncodedExactly(x: int)
    requires x != 0 && Abs(x) < 0x80 * Pow(256, 254)
    ensures var c := ToCompact(x); var e, m := c / 0x100_0000, c % 0x80_0000;
      c < 0x1_0000_0000 && m >= 0x8000 && Starts(Abs(x), m, e) && (c / 0x80_0000 % 2 == 1 <==> x < 0)
  {
    hide Pow, Size, Mantissa, Starts;
    FitsSize(Abs(x));
    MantissaBounds(Abs(x));
    MantissaStarts(Abs(x));
    CodeFields(Size(Abs(x)), Mantissa(Abs(x)), x < 0);
  }

  lemma SizeAtMost(a: nat, e: nat)
    requires a > 0 && e > 0 && a < 0x80 * Pow(256, e - 1)
    ensures Size(a) <= e
  {
    hide Pow, Size, Mantissa;
    MantissaStarts(a);
    var n, m := Size(a), Mantissa(a);
    if n > e {
      PowMonotone(256, e + 1, n);
      PUp(e - 1);
      PUp(e);
      MulMono(0x8000, m, Pow(256, n));
      MulMono(Pow(256, e + 1), Pow(256, n), 0x8000);
    }
  }

  lemma KeepsMultiples(a: nat, e: nat, m: nat)
    requires a > 0 && e >= 3 && a == m * Pow(256, e - 3) && Size(a) <= e
    ensures Kept(a) == a
  {
    hide Pow, Size, Mantissa;
    MantissaIs(a);
    var n := Size(a);
    if n > 3 {
      var r, q := Pow(256, n - 3), Pow(256, e - n);
      PSum(e - n, n - 3);
      MulAssoc(m, q, r);
      DivOfMul(m * q, r, 0);
    }
  }

  lemma NormalisedKept(a: nat, e: nat, m: nat)
    requires a > 0 && a == Unpacked(e, m) && m < 0x80_0000 && e <= 255
    ensures Kept(a) == a && Size(a) <= 255
  {
    hide Pow, Size, Mantissa;
    PSmall();
    if e <= 3 {
      DivSmaller'(m, Pow(256, 3 - e));
      SizeAtMost(a, 3);
      MantissaIs(a);
    } else {
      PSum(2, e - 3);
      MulMono(m + 1, 0x80_0000, Pow(256, e - 3));
      SizeAtMost(a, e);
      KeepsMultiples(a, e, m);
    }
  }

  lemma KeptIs(a: nat)
    requires Size(a) <= 255
    ensures Unpacked(Size(a) % 256, Mantissa(a)) == Kept(a)
  {
    hide Size, Mantissa, Unpacked;
  }

  /** Encoding what a code stands for gives a code for the same number, whichever the code was. */
  lemma NormalisedKeeps(c: nat)
    requires c < 0x1_0000_0000
    ensures FromCompact(ToCompact(FromCompact(c))) == FromCompact(c)
  {
    hide Pow, Size, Mantissa, Kept, ToCompact;
    var x, e, m := FromCompact(c), c / 0x100_0000, c % 0x80_0000;
    var a := Abs(x);
    if a == 0 {
      CompactOfZero();
    } else {
      NormalisedKept(a, e, m);
      FromToCompact(x);
      KeptIs(a);
    }
  }

  lemma CompactOfZero()
    ensures FromCompact(ToCompact(0)) == 0
  {
    hide Size, Mantissa, ToCompact, FromCompact;
    MantissaBounds(0);
    FromToCompact(0);
    ZeroKept();
  }
}
