/** Base58: byte strings as text over 58 characters, and back. */
module Base58 {
  import opened Options
  import opened Numerals
  import opened BigNum
  import opened Text

  /** pszBase58, in pieces short enough for the verifier to unfold. */
  const ALPHABET := "123456789" + "ABCDEFGH" + "JKLMN" + "PQRSTUVWXYZ" + "abcdefghijk" + "mnopqrstuvwxyz"

  /** strchr over the alphabet: a position, or -1. */
  function Index58(c: char): (i: int)
    ensures i == -1 || (0 <= i < 58 && ALPHABET[i] == c)
  {
    FindFrom(ALPHABET, c, 0)
  }

  /** The first `n` steps through the alphabet ascend. */
  predicate AscendsTo(n: nat)
    requires n < 58
  {
    n == 0 || (ALPHABET[n - 1] < ALPHABET[n] && AscendsTo(n - 1))
  }

  lemma AlphabetAscends()
    ensures AscendsTo(57)
  {
    assert AscendsTo(8);
    assert AscendsTo(16);
    assert AscendsTo(21);
    assert AscendsTo(32);
    assert AscendsTo(43);
    assert AscendsTo(50);
  }

  lemma {:induction false} Ordered58(i: nat, j: nat, n: nat)
    requires i < j <= n < 58 && AscendsTo(n)
    ensures ALPHABET[i] < ALPHABET[j]
  {
    hide ALPHABET;
    if j < n {
      Ordered58(i, j, n - 1);
    } else if i + 1 < j {
      Ordered58(i, j - 1, n - 1);
    }
  }

  lemma InOrder58(i: nat, j: nat)
    requires i < j < 58
    ensures ALPHABET[i] < ALPHABET[j]
  {
    AlphabetAscends();
    Ordered58(i, j, 57);
  }

  /** The characters of the alphabet by the ranges they come from: digits without the zero, capitals
      without I and O, small letters without l. */
  function InRanges58(d: nat): char
    requires d < 58
  {
    if d < 9 then ('1' as int + d) as char
    else if d < 17 then ('A' as int + d - 9) as char
    else if d < 22 then ('J' as int + d - 17) as char
    else if d < 33 then ('P' as int + d - 22) as char
    else if d < 44 then ('a' as int + d - 33) as char
    else ('m' as int + d - 44) as char
  }

  predicate RangesBetween(lo: nat, n: nat)
    requires lo <= n <= 58
  {
    n == lo || (ALPHABET[n - 1] == InRanges58(n - 1) && RangesBetween(lo, n - 1))
  }

  lemma {:induction false} RangesAt58(lo: nat, n: nat, d: nat)
    requires lo <= d < n <= 58 && RangesBetween(lo, n)
    ensures ALPHABET[d] == InRanges58(d)
  {
    hide ALPHABET;
    if d < n - 1 {
      RangesAt58(lo, n - 1, d);
    }
  }

  lemma DigitsAndCapitals()
    ensures RangesBetween(0, 22)
  {
    assert RangesBetween(0, 9);
    assert RangesBetween(0, 17);
  }

  lemma CapitalsAndSmall()
    ensures RangesBetween(22, 44)
  {
    assert RangesBetween(22, 33);
  }

  lemma SmallLetters()
    ensures RangesBetween(44, 58)
  {
    assert RangesBetween(44, 51);
  }

  lemma AlphabetIs(d: nat)
    requires d < 58
    ensures ALPHABET[d] == InRanges58(d)
  {
    hide ALPHABET, RangesBetween;
    DigitsAndCapitals();
    CapitalsAndSmall();
    SmallLetters();
    if d < 22 {
      RangesAt58(0, 22, d);
    } else if d < 44 {
      RangesAt58(22, 44, d);
    } else {
      RangesAt58(44, 58, d);
    }
  }

  lemma IndexOf58(d: nat)
    requires d < 58
    ensures Index58(ALPHABET[d]) == d
    ensures '1' <= ALPHABET[d] && (ALPHABET[d] == '1' <==> d == 0)
  {
    var i := Index58(ALPHABET[d]);
    assert ALPHABET[0] == '1';
    if 0 <= i < d {
      InOrder58(i, d);
    } else if d < i {
      InOrder58(d, i);
    }
    if d > 0 {
      InOrder58(0, d);
    }
  }

  // ----- encoding -----

  function Chars58(ds: seq<nat>): (s: string)
    requires DigitsIn(58, ds)
    ensures |s| == |ds| && forall i :: 0 <= i < |ds| ==> s[i] == ALPHABET[ds[i]]
  {
    seq(|ds|, i requires 0 <= i < |ds| => ALPHABET[ds[i]])
  }

  /** How many zero bytes come first. */
  function LeadingCount(b: seq<byte>): (z: nat)
    ensures z <= |b| && (forall i :: 0 <= i < z ==> b[i] == 0) && (z < |b| ==> b[z] != 0)
  {
    if b == [] || b[0] != 0 then 0 else 1 + LeadingCount(b[1..])
  }

  function Ones(n: nat): (s: string)
    ensures |s| == n && forall i :: 0 <= i < n ==> s[i] == '1'
  {
    seq(n, _ => '1')
  }

  /** The number setvch reads out of the reversed bytes and an extra zero: with 2^31 - 5 bytes
      or more it reads fewer of them, or none at all and the number stays zero. */
  function Number(b: seq<byte>): nat {
    match BytesRead(|b| + 1)
    case None => 0
    case Some(r) => if r == 0 then 0 else Value(256, b[..r - 1])
  }

  /** EncodeBase58 */
  function Encode(b: seq<byte>): string {
    Ones(LeadingCount(b)) + Chars58(Digits(58, Number(b)))
  }

  // ----- decoding -----

  /** The number the characters from `i` on stand for, read after a number `v`.  After the
      first other character only spaces may follow. */
  function ParseFrom(s: string, i: nat, v: nat): Option<nat>
    decreases if i < |s| then |s| - i else 0
  {
    if At(s, i) == '\0' then Some(v) else
    var d := Index58(At(s, i));
    if d >= 0 then ParseFrom(s, i + 1, v * 58 + d)
    else if At(s, SkipSpaces(s, i)) == '\0' then Some(v)
    else None
  }

  /** How many characters '1' stand at `i`. */
  function OnesFrom(s: string, i: nat): nat
    decreases if i < |s| then |s| - i else 0
  {
    if At(s, i) == '1' then 1 + OnesFrom(s, i + 1) else 0
  }

  /** DecodeBase58 */
  function Decode(s: string): Option<seq<byte>> {
    var psz := SkipSpaces(s, 0);
    match ParseFrom(s, psz, 0)
    case None => None
    case Some(v) => Some(ZeroBytes(OnesFrom(s, psz)) + Bytes(v))
  }

  /** Nothing but spaces from `j` to the end of the text. */
  predicate Ends(s: string, j: nat) {
    At(s, SkipSpaces(s, j)) == '\0'
  }

  // ----- what decoding accepts, and what it makes of it -----

  /** Spaces up to `i`, then the characters for `ds`, then spaces up to the end. */
  predicate Framed(s: string, i: nat, ds: seq<nat>) {
    && DigitsIn(58, ds) && i + |ds| <= |s|
    && (forall p :: 0 <= p < i ==> IsSpace(s[p]))
    && s[i..i + |ds|] == Chars58(ds)
    && Ends(s, i + |ds|)
  }

  lemma {:induction false} OnlySpaces(s: string, i: nat)
    ensures forall p :: i <= p < SkipSpaces(s, i) ==> IsSpace(At(s, p))
    decreases if i < |s| then |s| - i else 0
  {
    if IsSpace(At(s, i)) {
      OnlySpaces(s, i + 1);
    }
  }

  lemma EndStops(s: string, j: nat, v: nat)
    requires Ends(s, j)
    ensures ParseFrom(s, j, v) == Some(v) && At(s, j) != '1'
  {
    hide FindFrom;
    var c := At(s, j);
    if c != '\0' {
      var d := Index58(c);
      if d >= 0 {
        IndexOf58(d);
      }
    }
  }

  lemma HornerArithmetic(v: nat, d: nat, p: nat)
    ensures (v * 58 + d) * p == v * (p * 58) + d * p
  {
  }

  lemma HornerStep(v: nat, ds: seq<nat>)
    requires ds != []
    ensures (v * 58 + ds[0]) * Pow(58, |ds| - 1) + Value(58, ds[1..]) == v * Pow(58, |ds|) + Value(58, ds)
  {
    hide Value;
    assert ds == [ds[0]] + ds[1..];
    ValueConcat(58, [ds[0]], ds[1..]);
    ValueSnoc(58, [], ds[0]);
    EmptyValue(58);
    assert [] + [ds[0]] == [ds[0]];
    assert Pow(58, |ds|) == Pow(58, |ds| - 1) * 58;
    HornerArithmetic(v, ds[0], Pow(58, |ds| - 1));
  }

  lemma {:induction false} ParseDigits(s: string, ds: seq<nat>, i: nat, v: nat)
    requires DigitsIn(58, ds) && i + |ds| <= |s| && Ends(s, i + |ds|)
    requires forall k :: 0 <= k < |ds| ==> s[i + k] == ALPHABET[ds[k]]
    ensures ParseFrom(s, i, v) == Some(v * Pow(58, |ds|) + Value(58, ds))
    decreases |ds|
  {
    hide Value, Pow;
    if ds == [] {
      EndStops(s, i, v);
      EmptyValue(58);
      NoDigits(v);
    } else {
      var d := ds[0];
      IndexOf58(d);
      assert s[i + 0] == ALPHABET[d];
      ParseDigits(s, ds[1..], i + 1, v * 58 + d);
      HornerStep(v, ds);
    }
  }

  lemma NoDigits(v: nat)
    ensures v * Pow(58, 0) == v
  {
  }

  lemma {:induction false} CountOnes(s: string, i: nat, z: nat)
    requires i + z <= |s| && (forall k :: i <= k < i + z ==> s[k] == '1') && At(s, i + z) != '1'
    ensures OnesFrom(s, i) == z
    decreases z
  {
    if z > 0 {
      CountOnes(s, i + 1, z - 1);
    }
  }

  /** What decoding makes of framed digits. */
  lemma DecodeFramed(s: string, i: nat, ds: seq<nat>)
    requires Framed(s, i, ds)
    ensures Decode(s) == Some(ZeroBytes(|ds| - |Strip(ds)|) + Bytes(Value(58, ds)))
  {
    hide Value, Pow, Digits, ParseFrom, OnesFrom, Index58, Strip;
    var psz := SkipSpaces(s, 0);
    SkipTo(s, 0, i);
    forall k | 0 <= k < |ds| ensures s[i + k] == ALPHABET[ds[k]] {
      assert s[i + k] == s[i..i + |ds|][k];
    }
    if ds == [] {
      AtTheEnd(s, psz, 0);
      EmptyValue(58);
    } else {
      IndexOf58(ds[0]);
      assert s[i + 0] == ALPHABET[ds[0]];
      assert psz == i;
      ParseDigits(s, ds, i, 0);
      OnesOfFramed(s, i, ds);
    }
  }

  lemma AtTheEnd(s: string, j: nat, v: nat)
    requires At(s, j) == '\0'
    ensures ParseFrom(s, j, v) == Some(v) && OnesFrom(s, j) == 0
  {
  }

  lemma OnesOfFramed(s: string, i: nat, ds: seq<nat>)
    requires DigitsIn(58, ds) && i + |ds| <= |s| && Ends(s, i + |ds|)
    requires forall k :: 0 <= k < |ds| ==> s[i + k] == ALPHABET[ds[k]]
    ensures OnesFrom(s, i) == |ds| - |Strip(ds)|
  {
    hide FindFrom, SkipSpaces;
    var z := |ds| - |Strip(ds)|;
    assert ALPHABET[0] == '1';
    forall k | i <= k < i + z ensures s[k] == '1' {
      assert s[i + (k - i)] == ALPHABET[ds[k - i]];
    }
    if z < |ds| {
      assert s[i + z] == ALPHABET[ds[z]] && ds[z] == Strip(ds)[0];
      IndexOf58(ds[z]);
    } else {
      EndStops(s, i + z, 0);
    }
    CountOnes(s, i, z);
  }

  lemma {:induction false} ParsedDigits(s: string, i: nat, v: nat) returns (ds: seq<nat>)
    requires ParseFrom(s, i, v).Some? && i <= |s|
    ensures DigitsIn(58, ds) && i + |ds| <= |s| && s[i..i + |ds|] == Chars58(ds) && Ends(s, i + |ds|)
    decreases |s| - i
  {
    hide FindFrom, SkipSpaces, Chars58, ALPHABET;
    ds := [];
    var d := Index58(At(s, i));
    if At(s, i) != '\0' && d >= 0 {
      var rest := ParsedDigits(s, i + 1, v * 58 + d);
      ds := [d] + rest;
      OneMoreChar(s, i, d, rest);
    } else {
      NoChars(s, i);
    }
  }

  lemma NoChars(s: string, i: nat)
    requires i <= |s|
    ensures s[i..i] == Chars58([]) && (At(s, i) == '\0' ==> Ends(s, i))
  {
  }

  lemma OneMoreChar(s: string, i: nat, d: nat, rest: seq<nat>)
    requires d < 58 && DigitsIn(58, rest) && i + 1 + |rest| <= |s|
    requires s[i] == ALPHABET[d] && s[i + 1..i + 1 + |rest|] == Chars58(rest)
    ensures DigitsIn(58, [d] + rest) && s[i..i + 1 + |rest|] == Chars58([d] + rest)
  {
    assert s[i..i + 1 + |rest|] == [s[i]] + s[i + 1..i + 1 + |rest|];
  }

  /** Decoding accepts spaces, then characters of the alphabet, then spaces, and nothing else. */
  lemma DecodeAccepts(s: string)
    ensures Decode(s).Some? <==> exists i, ds :: Framed(s, i, ds)
  {
    hide ParseFrom, OnesFrom, Digits, Ends;
    if Decode(s).Some? {
      var i := SkipSpaces(s, 0);
      OnlySpaces(s, 0);
      SpacesInside(s);
      var ds := ParsedDigits(s, i, 0);
      forall p | 0 <= p < i ensures IsSpace(s[p]) {
        assert IsSpace(At(s, p));
      }
      assert Framed(s, i, ds);
    } else {
      forall i, ds | Framed(s, i, ds) ensures false {
        DecodeFramed(s, i, ds);
      }
    }
  }

  lemma SpacesInside(s: string)
    requires forall p :: 0 <= p < SkipSpaces(s, 0) ==> IsSpace(At(s, p))
    ensures SkipSpaces(s, 0) <= |s|
  {
    var j := SkipSpaces(s, 0);
    if j > 0 {
      assert IsSpace(At(s, j - 1));
    }
  }

  // ----- encoding and decoding are mutually inverse -----

  /** All the bytes reach the number: with the extra zero and the length field they are fewer
      than 2^31, or there is nothing but zeros. */
  predicate Fits(b: seq<byte>) {
    |b| + 5 < INT_LIMIT || LeadingCount(b) == |b|
  }

  lemma SplitLeading(b: seq<byte>)
    ensures b == ZeroBytes(LeadingCount(b)) + Bytes(Value(256, b))
  {
    hide Value, Digits;
    var z := LeadingCount(b);
    var m := b[z..];
    assert b == Zeros(z) + m;
    LeadingZeros(256, z, m);
    DigitsOfValue(256, m);
  }

  lemma LeadingOfPadded(z: nat, m: seq<byte>)
    requires m == [] || m[0] != 0
    ensures LeadingCount(ZeroBytes(z) + m) == z
  {
    var b := ZeroBytes(z) + m;
    assert forall k :: 0 <= k < z ==> b[k] == 0;
    assert m != [] ==> b[z] == m[0];
  }

  lemma StripPadded(base: nat, z: nat, v: nat)
    requires base >= 2
    ensures Strip(Zeros(z) + Digits(base, v)) == Digits(base, v)
  {
    hide Strip, Value, Digits;
    LeadingZeros(base, z, Digits(base, v));
    ValueOfDigits(base, v);
    StripIsDigits(base, Zeros(z) + Digits(base, v));
  }

  lemma EncodedIsFramed(b: seq<byte>)
    ensures Framed(Encode(b), 0, Zeros(LeadingCount(b)) + Digits(58, Number(b)))
  {
    hide Digits, Value, FindFrom, Chars58, LeadingCount, Number, Zeros, SkipSpaces;
    var z, ds := LeadingCount(b), Digits(58, Number(b));
    CharsAfterZeros(z, ds);
    EndsAtEnd(Encode(b));
    assert Encode(b)[0..0 + |Zeros(z) + ds|] == Encode(b);
  }

  lemma CharsAfterZeros(z: nat, ds: seq<nat>)
    requires DigitsIn(58, ds)
    ensures DigitsIn(58, Zeros(z) + ds) && Chars58(Zeros(z) + ds) == Ones(z) + Chars58(ds)
  {
    assert ALPHABET[0] == '1';
  }

  lemma EndsAtEnd(s: string)
    ensures Ends(s, |s|)
  {
  }

  lemma OnlyZeros(b: seq<byte>)
    ensures Value(256, b) == 0 <==> LeadingCount(b) == |b|
  {
    hide Value, LeadingCount;
    SplitLeading(b);
  }

  lemma NumberWhenFits(b: seq<byte>)
    ensures Number(b) <= Value(256, b)
    ensures Fits(b) <==> Number(b) == Value(256, b)
  {
    hide Value, LeadingCount, Number;
    OnlyZeros(b);
    if |b| + 5 < INT_LIMIT {
      NumberOfShort(b);
    } else {
      var q := NumberOfLong(b);
      PrefixLess(b[..|b| - |q|], q);
    }
  }

  lemma NumberOfShort(b: seq<byte>)
    requires |b| + 5 < INT_LIMIT
    ensures Number(b) == Value(256, b)
  {
    hide Value, BytesRead;
    assert b[..(|b| + 1) - 1] == b;
  }

  lemma NumberOfLong(b: seq<byte>) returns (q: seq<byte>)
    requires |b| + 5 >= INT_LIMIT
    ensures 0 < |q| <= |b| && b == b[..|b| - |q|] + q
    ensures Number(b) == 0 || Number(b) == Value(256, b[..|b| - |q|])
  {
    hide Value;
    var r := BytesRead(|b| + 1);
    q := if r.Some? && r.value > 0 then b[r.value - 1..] else b;
  }

  /** Decoding gives back the bytes that were encoded, exactly for those that fit. */
  lemma DecodeInvertsEncode(b: seq<byte>)
    ensures Decode(Encode(b)) == Some(b) <==> Fits(b)
  {
    hide Digits, Value, Strip, Encode, Decode, Number, Fits, Framed;
    var z, n := LeadingCount(b), Number(b);
    EncodedIsFramed(b);
    DecodeFramed(Encode(b), 0, Zeros(z) + Digits(58, n));
    StripPadded(58, z, n);
    LeadingZeros(58, z, Digits(58, n));
    ValueOfDigits(58, n);
    SplitLeading(b);
    NumberWhenFits(b);
    assert Decode(Encode(b)) == Some(ZeroBytes(z) + Bytes(n));
    SameTail(ZeroBytes(z), Bytes(n), Bytes(Value(256, b)));
    ValueOfDigits(256, n);
    ValueOfDigits(256, Value(256, b));
  }

  lemma SameTail<T>(a: seq<T>, b: seq<T>, c: seq<T>)
    ensures a + b == a + c <==> b == c
  {
    if a + b == a + c {
      assert b == (a + b)[|a|..] && c == (a + c)[|a|..];
    }
  }

  /** Encoding gives back the text that was decoded, without the spaces around it, exactly
      when the decoded bytes fit. */
  lemma EncodeInvertsDecode(s: string, i: nat, ds: seq<nat>)
    requires Framed(s, i, ds)
    ensures Decode(s).Some? && (Encode(Decode(s).value) == s[i..i + |ds|] <==> Fits(Decode(s).value))
  {
    hide Digits, Value, Strip, Encode, Decode, Number, Fits, Index58;
    DecodeFramed(s, i, ds);
    var z, v := |ds| - |Strip(ds)|, Value(58, ds);
    var b := Decode(s).value;
    LeadingOfPadded(z, Bytes(v));
    LeadingZeros(256, z, Bytes(v));
    ValueOfDigits(256, v);
    NumberWhenFits(b);
    StripIsDigits(58, ds);
    EncodeOfDecoded(b, z, ds);
  }

  lemma EncodeOfDecoded(b: seq<byte>, z: nat, ds: seq<nat>)
    requires DigitsIn(58, ds) && z == |ds| - |Strip(ds)| == LeadingCount(b)
    requires Value(256, b) == Value(58, ds) && Strip(ds) == Digits(58, Value(58, ds))
    ensures Encode(b) == Chars58(ds) <==> Number(b) == Value(256, b)
  {
    hide Digits, Value, Strip, Number;
    var v, n := Value(58, ds), Number(b);
    assert ALPHABET[0] == '1';
    assert Chars58(ds) == Ones(z) + Chars58(Digits(58, v));
    if Encode(b) == Chars58(ds) {
      SameTail(Ones(z), Chars58(Digits(58, n)), Chars58(Digits(58, v)));
      SameChars(Digits(58, n), Digits(58, v));
      ValueOfDigits(58, n);
      ValueOfDigits(58, v);
    }
  }

  lemma SameChars(a: seq<nat>, b: seq<nat>)
    requires DigitsIn(58, a) && DigitsIn(58, b) && Chars58(a) == Chars58(b)
    ensures a == b
  {
    forall k | 0 <= k < |a| ensures a[k] == b[k] {
      assert Chars58(a)[k] == ALPHABET[a[k]] && Chars58(b)[k] == ALPHABET[b[k]];
      IndexOf58(a[k]);
      IndexOf58(b[k]);
    }
  }
}
