/** What the digits that CBigNum writes stand for, and what it reads out of any text. */
module HexText {
  import opened Numerals
  import opened BigNum
  import opened Text

  // ----- digits -----

  /** A hexadecimal digit is one of the first ten digits or one of six letters, large or small. */
  lemma HexDigitMeans(c: char, d: nat)
    requires d < 16
    ensures IsHexDigit(c) && HexDigit(c) == d <==>
      if d < 10 then c as int == '0' as int + d else c as int == 'a' as int + d - 10 || c as int == 'A' as int + d - 10
  {
  }

  function DigitsOf(s: string): (ds: seq<nat>)
    requires forall c :: c in s ==> IsHexDigit(c)
    ensures |ds| == |s| && forall i :: 0 <= i < |s| ==> IsHexDigit(s[i]) && ds[i] == HexDigit(s[i])
  {
    seq(|s|, i requires 0 <= i < |s| => (assert s[i] in s; HexDigit(s[i])))
  }

  // ----- writing -----

  lemma CharsBack(ds: seq<nat>)
    requires DigitsIn(16, ds)
    ensures var t := Chars(ds);
      (forall c :: c in t ==> IsHexDigit(c) && ('0' <= c <= '9' || 'a' <= c <= 'f')) && DigitsOf(t) == ds
  {
    hide HexDigit;
    forall k | 0 <= k < |ds|
      ensures var c := Chars(ds)[k]; IsHexDigit(c) && HexDigit(c) == ds[k] && ('0' <= c <= '9' || 'a' <= c <= 'f')
    {
      DigitChar(ds[k]);
    }
  }

  lemma DigitChar(d: nat)
    requires d < 16
    ensures IsHexDigit(HEX[d]) && HexDigit(HEX[d]) == d && ('0' <= HEX[d] <= '9' || 'a' <= HEX[d] <= 'f') && (HEX[d] == '0' <==> d == 0)
  {
    HexDigitOf(d);
  }

  lemma ZeroText(base: nat)
    ensures DigitsOf("0") == [0] && Value(base, [0]) == 0
  {
    EmptyValue(base);
    assert [0][..0] == [];
  }

  /** The text after the sign. */
  function Unsigned(s: string, neg: bool): string {
    if neg && s != "" then s[1..] else s
  }

  /** What ToString writes: the sign, then the digits of the magnitude without leading zeros. */
  lemma ToTextMeans(x: int, base: nat)
    requires 2 <= base <= 16
    ensures var s := ToText(x, base); var t := Unsigned(s, x < 0);
      && (x < 0 ==> s == "-" + t) && t != "" && (t[0] == '0' ==> t == "0")
      && (forall c :: c in t ==> IsHexDigit(c) && ('0' <= c <= '9' || 'a' <= c <= 'f'))
      && DigitsIn(base, DigitsOf(t)) && Value(base, DigitsOf(t)) == Abs(x)
  {
    hide Digits, Value, HexDigit, IsHexDigit;
    var ds := Digits(base, Abs(x));
    DigitsIn16(base, ds);
    ValueOfDigits(base, Abs(x));
    if x == 0 {
      ZeroText(base);
    } else {
      var t := Chars(ds);
      CharsBack(ds);
      DigitChar(ds[0]);
      assert Unsigned(ToText(x, base), x < 0) == t;
      assert DigitsOf(t) == ds;
    }
  }

  // ----- reading -----

  lemma {:induction false} HexDigits(s: string, i: nat, n: nat, v: nat)
    requires i + n <= |s| && (forall k :: i <= k < i + n ==> IsHexDigit(s[k])) && !IsHexDigit(At(s, i + n))
    ensures (forall c :: c in s[i..i + n] ==> IsHexDigit(c))
    ensures HexFrom(s, i, v) == v * Pow(16, n) + Value(16, DigitsOf(s[i..i + n]))
    decreases n
  {
    hide IsHexDigit, HexDigit;
    if n == 0 {
      assert DigitsOf(s[i..i]) == [];
      EmptyValue(16);
      PowZero(v);
    } else {
      var d := HexDigit(s[i]);
      HexDigits(s, i + 1, n - 1, v * 16 + d);
      FirstDigit(s[i], s[i + 1..i + 1 + (n - 1)], v);
      assert s[i..i + n] == [s[i]] + s[i + 1..i + 1 + (n - 1)];
    }
  }

  lemma PowZero(v: nat)
    ensures v * Pow(16, 0) == v
  {
  }

  lemma FirstDigit(c: char, t: string, v: nat)
    requires IsHexDigit(c) && forall x :: x in t ==> IsHexDigit(x)
    ensures (forall x :: x in [c] + t ==> IsHexDigit(x))
    ensures v * Pow(16, |t| + 1) + Value(16, DigitsOf([c] + t)) == (v * 16 + HexDigit(c)) * Pow(16, |t|) + Value(16, DigitsOf(t))
  {
    hide IsHexDigit, HexDigit, Value, Pow;
    var d, ds := HexDigit(c), DigitsOf(t);
    assert DigitsOf([c] + t) == [d] + ds;
    ValueConcat(16, [d], ds);
    ValueOfOne(d);
    PowUp(|t|);
    Combine(v, d, Pow(16, |t|), Pow(16, |t| + 1), Value(16, DigitsOf([c] + t)), Value(16, ds));
  }

  lemma PowUp(n: nat)
    ensures Pow(16, n + 1) == Pow(16, n) * 16
  {
  }

  lemma ValueOfOne(d: nat)
    ensures Value(16, [d]) == d
  {
    EmptyValue(16);
    assert [d][..0] == [];
  }

  lemma Combine(v: nat, d: nat, p: nat, q: nat, x: nat, w: nat)
    requires q == p * 16 && x == d * p + w
    ensures v * q + x == (v * 16 + d) * p + w
  {
    assert v * 16 * p == v * (p * 16);
  }

  /** The parts of a text for SetHex: spaces, a sign, a prefix, spaces, digits, and what follows. */
  datatype Parts = Parts(before: string, neg: bool, prefix: string, between: string, digits: string, rest: string) {
    function Tail(): string {
      between + digits + rest
    }

    function Text(): string {
      before + (if neg then "-" else "") + prefix + Tail()
    }

    /** The parts are what they are called, and end where they do. */
    predicate Valid() {
      && (forall c :: c in before ==> IsSpace(c)) && (forall c :: c in between ==> IsSpace(c))
      && digits != "" && (forall c :: c in digits ==> IsHexDigit(c)) && !IsHexDigit(At(rest, 0))
      && (prefix == "0x" || prefix == "0X" || (prefix == "" && !(At(Tail(), 0) == '0' && At(Tail(), 1) in {'x', 'X'})))
      && (neg || prefix != "" || between == "")
    }
  }

  lemma SkipNone(s: string, i: nat)
    requires !IsSpace(At(s, i))
    ensures SkipSpaces(s, i) == i
  {
  }

  lemma AtConcat(a: string, b: string, i: nat)
    ensures At(a + b, |a| + i) == At(b, i)
  {
  }

  lemma TextIs(p: Parts)
    ensures var sign := if p.neg then "-" else "";
      p.Text() == p.before + (sign + (p.prefix + p.Tail())) == p.before + sign + p.prefix + p.between + p.digits + p.rest
  {
  }

  lemma Marks()
    ensures !IsSpace('-') && !IsSpace('0')
  {
  }

  /** The text from the sign on. */
  lemma AfterSpaces(p: Parts)
    requires p.Valid()
    ensures var s, i := p.Text(), |p.before|; (At(s, i) == '-' <==> p.neg) && !IsSpace(At(s, i))
  {
    TextIs(p);
    Marks();
    HexNotSpace(p.digits[0]);
    hide IsSpace, IsHexDigit, Parts.Text;
    var t := p.prefix + p.Tail();
    AtConcat(p.before, (if p.neg then "-" else "") + t, 0);
    assert p.digits[0] in p.digits;
    if !p.neg {
      assert "" + t == t;
      if p.prefix == "" {
        assert t == p.digits + p.rest;
      }
    }
  }

  lemma HexNotSpace(c: char)
    ensures IsHexDigit(c) ==> !IsSpace(c) && c != '-'
  {
  }

  lemma AfterPrefix(p: Parts)
    requires p.Valid()
    ensures var i := |p.before| + (if p.neg then 1 else 0); SkipPrefix(p.Text(), i) == i + |p.prefix|
  {
    hide IsSpace, IsHexDigit;
    TextIs(p);
    var sign := if p.neg then "-" else "";
    var a, t := p.before + sign, p.prefix + p.Tail();
    assert p.Text() == a + t;
    AtConcat(a, t, 0);
    AtConcat(a, t, 1);
    assert p.prefix == "" ==> t == p.Tail();
  }

  lemma AfterDigits(p: Parts)
    requires p.Valid()
    ensures var s := p.Text(); var k := |p.before| + (if p.neg then 1 else 0) + |p.prefix|; var j := k + |p.between|;
      && j + |p.digits| <= |s| && (forall x :: k <= x < j ==> IsSpace(s[x])) && !IsSpace(At(s, j))
      && s[j..j + |p.digits|] == p.digits && !IsHexDigit(At(s, j + |p.digits|))
  {
    TextIs(p);
    HexNotSpace(p.digits[0]);
    hide IsSpace, IsHexDigit;
    var a := p.before + (if p.neg then "-" else "") + p.prefix;
    var s, j := p.Text(), |a| + |p.between|;
    assert s == (a + p.between + p.digits) + p.rest;
    AtConcat(a + p.between + p.digits, p.rest, 0);
    assert p.digits[0] in p.digits && s[j] == p.digits[0];
    forall x | |a| <= x < j ensures IsSpace(s[x]) {
      assert s[x] == p.between[x - |a|];
    }
  }

  /** What SetHex reads: the digits after spaces, a sign, a prefix and spaces, up to the first other
      character. */
  lemma ReadHexMeans(p: Parts)
    requires p.Valid()
    ensures (forall c :: c in p.digits ==> IsHexDigit(c)) && ReadHex(p.Text()) == WithSign(p.neg, Value(16, DigitsOf(p.digits)))
  {
    hide IsHexDigit, HexDigit, HexFrom, Value, SkipSpaces, SkipPrefix, IsSpace, Parts.Valid, Parts.Text, ReadHex, Pow, At;
    var s, i := p.Text(), |p.before|;
    var k := i + (if p.neg then 1 else 0) + |p.prefix|;
    var j := k + |p.between|;
    AfterSpaces(p);
    AfterPrefix(p);
    AfterDigits(p);
    SpacesFirst(p);
    SkipTo(s, 0, i);
    SkipNone(s, i);
    SkipTo(s, k, j);
    SkipNone(s, j);
    ReadAt(s, p.neg, i, k, j);
    HexDigits(s, j, |p.digits|, 0);
    NoMore(Pow(16, |p.digits|), Value(16, DigitsOf(p.digits)));
  }

  lemma ReadAt(s: string, neg: bool, i: nat, k: nat, j: nat)
    requires SkipSpaces(s, 0) == i && (At(s, i) == '-' <==> neg)
    requires SkipPrefix(s, if neg then i + 1 else i) == k && SkipSpaces(s, k) == j
    ensures ReadHex(s) == WithSign(neg, HexFrom(s, j, 0))
  {
    hide SkipSpaces, SkipPrefix, HexFrom;
  }

  lemma NoMore(p: nat, v: nat)
    ensures 0 * p + v == v
  {
  }

  lemma SpacesFirst(p: Parts)
    requires p.Valid()
    ensures |p.before| <= |p.Text()| && forall x :: 0 <= x < |p.before| ==> IsSpace(p.Text()[x])
    ensures forall c :: c in p.digits ==> IsHexDigit(c)
  {
    hide IsHexDigit;
    forall x | 0 <= x < |p.before| ensures IsSpace(p.Text()[x]) {
      assert p.Text()[x] == p.before[x];
    }
  }
}
