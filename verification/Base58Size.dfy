/** How long Base58 text can get: the number of characters EncodeBase58 reserves. */
module Base58Size {
  import opened Numerals
  import opened BigNum
  import opened Base58

  /** Digits enough for `m` bytes: eleven for every eight of them. */
  function Enough(m: nat): nat {
    (11 * m + 7) / 8
  }

  lemma SmallPowers()
    ensures forall m :: 0 <= m < 8 ==> Pow(256, m) <= Pow(58, Enough(m))
    ensures Pow(256, 8) <= Pow(58, 11)
  {
    assert Pow(256, 1) == 256;
    assert Pow(256, 2) == Pow(256, 1) * 256;
    assert Pow(256, 3) == Pow(256, 2) * 256;
    assert Pow(256, 4) == Pow(256, 3) * 256;
    assert Pow(256, 5) == Pow(256, 4) * 256;
    assert Pow(256, 6) == Pow(256, 5) * 256;
    assert Pow(256, 7) == Pow(256, 6) * 256;
    assert Pow(256, 8) == Pow(256, 7) * 256;
    assert Pow(58, 1) == 58;
    assert Pow(58, 2) == Pow(58, 1) * 58;
    assert Pow(58, 3) == Pow(58, 2) * 58;
    assert Pow(58, 4) == Pow(58, 3) * 58;
    assert Pow(58, 5) == Pow(58, 4) * 58;
    assert Pow(58, 6) == Pow(58, 5) * 58;
    assert Pow(58, 7) == Pow(58, 6) * 58;
    assert Pow(58, 8) == Pow(58, 7) * 58;
    assert Pow(58, 9) == Pow(58, 8) * 58;
    assert Pow(58, 10) == Pow(58, 9) * 58;
    assert Pow(58, 11) == Pow(58, 10) * 58;
  }

  lemma {:induction false} BytesInDigits(m: nat)
    ensures Pow(256, m) <= Pow(58, Enough(m))
  {
    hide Pow;
    SmallPowers();
    if m >= 8 {
      BytesInDigits(m - 8);
      assert Enough(m) == Enough(m - 8) + 11;
      PowAdd(256, m - 8, 8);
      PowAdd(58, Enough(m - 8), 11);
      ProductMonotone(Pow(256, m - 8), Pow(58, Enough(m - 8)), Pow(256, 8), Pow(58, 11));
    }
  }

  lemma ProductMonotone(a: nat, b: nat, c: nat, d: nat)
    requires a <= b && c <= d
    ensures a * c <= b * d
  {
    MulMono(a, b, c);
    MulMono(c, d, b);
  }

  lemma DigitsNeeded(v: nat, m: nat)
    requires v < Pow(256, m)
    ensures |Digits(58, v)| <= Enough(m)
  {
    hide Pow, Value;
    var ds := Digits(58, v);
    if |ds| > Enough(m) {
      ValueAtLeast(58, ds);
      ValueOfDigits(58, v);
      PowMonotone(58, Enough(m), |ds| - 1);
      BytesInDigits(m);
    }
  }

  /** The text of `n` bytes has at most n * 138 / 100 + 1 characters. */
  lemma EncodedLength(b: seq<byte>)
    ensures |Encode(b)| <= |b| * 138 / 100 + 1
  {
    hide Pow, Value, Digits, Number, Fits;
    var z := LeadingCount(b);
    var m := |b| - z;
    SplitLeading(b);
    ValueOfDigits(256, Value(256, b));
    ValueBound(256, Bytes(Value(256, b)));
    assert |Bytes(Value(256, b))| == m;
    NumberWhenFits(b);
    DigitsNeeded(Number(b), m);
  }
}
