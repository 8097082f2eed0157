/** Numbers as text: the digits CBigNum writes, and the hexadecimal it reads. */
module Text {
  import opened Numerals
  import opened BigNum

  const HEX := "0123456789abcdef"

  /** The character at position `i` of a C string: a NUL from its end on. */
  function At(s: string, i: nat): char {
    if i < |s| then s[i] else '\0'
  }

  /** strchr and find: the first position from `k` on that holds `c`, or -1. */
  function FindFrom(s: string, c: char, k: nat): (i: int)
    requires k <= |s|
    ensures i == -1 || (k <= i < |s| && s[i] == c)
    ensures i == -1 <==> forall j :: k <= j < |s| ==> s[j] != c
    decreases |s| - k
  {
    if k == |s| then -1 else if s[k] == c then k else FindFrom(s, c, k + 1)
  }

  predicate IsSpace(c: char) {
    c == ' ' || '\t' <= c <= '\r'
  }

  /** A blank, or one of the five control characters from tab to carriage return. */
  lemma SpaceMeans(c: char)
    ensures IsSpace(c) <==> c as int == 32 || c as int in {9, 10, 11, 12, 13}
  {
  }

  predicate IsHexDigit(c: char) {
    '0' <= c <= '9' || 'a' <= c <= 'f' || 'A' <= c <= 'F'
  }

  /** The value that the table of SetHex gives a hexadecimal digit. */
  function HexDigit(c: char): (d: nat)
    requires IsHexDigit(c)
    ensures d < 16
  {
    if '0' <= c <= '9' then c as int - '0' as int
    else if 'a' <= c <= 'f' then c as int - 'a' as int + 10
    else c as int - 'A' as int + 10
  }

  /** The digits of `ds` as characters. */
  function Chars(ds: seq<nat>): (s: string)
    requires DigitsIn(16, ds)
    ensures |s| == |ds| && forall i :: 0 <= i < |ds| ==> s[i] == HEX[ds[i]]
  {
    seq(|ds|, i requires 0 <= i < |ds| => HEX[ds[i]])
  }

  /** What ToString returns. */
  function ToText(x: int, base: nat): string
    requires 2 <= base <= 16
  {
    DigitsIn16(base, Digits(base, Abs(x)));
    if x == 0 then "0" else (if x < 0 then "-" else "") + Chars(Digits(base, Abs(x)))
  }

  lemma DigitsIn16(base: nat, ds: seq<nat>)
    requires base <= 16 && DigitsIn(base, ds)
    ensures DigitsIn(16, ds)
  {
  }

  /** The first position from `i` on that does not hold a space. */
  function SkipSpaces(s: string, i: nat): (j: nat)
    ensures i <= j
    ensures !IsSpace(At(s, j))
    decreases if i < |s| then |s| - i else 0
  {
    if IsSpace(At(s, i)) then SkipSpaces(s, i + 1) else i
  }

  lemma {:induction false} SkipTo(s: string, i: nat, j: nat)
    requires i <= j <= |s| && (forall p :: i <= p < j ==> IsSpace(s[p]))
    ensures SkipSpaces(s, i) == SkipSpaces(s, j)
    decreases j - i
  {
    if i < j {
      SkipTo(s, i + 1, j);
    }
  }

  /** The value of the hexadecimal digits from `i` on, read after a number `v`. */
  function HexFrom(s: string, i: nat, v: nat): nat
    decreases if i < |s| then |s| - i else 0
  {
    if IsHexDigit(At(s, i)) then HexFrom(s, i + 1, v * 16 + HexDigit(At(s, i))) else v
  }

  function SkipPrefix(s: string, i: nat): nat {
    if At(s, i) == '0' && (At(s, i + 1) == 'x' || At(s, i + 1) == 'X') then i + 2 else i
  }

  /** What SetHex makes of a string. */
  function ReadHex(s: string): int {
    var i := SkipSpaces(s, 0);
    var neg := At(s, i) == '-';
    var j := SkipSpaces(s, SkipPrefix(s, if neg then i + 1 else i));
    WithSign(neg, HexFrom(s, j, 0))
  }

  lemma HexDigitOf(d: nat)
    requires d < 16
    ensures IsHexDigit(HEX[d]) && HexDigit(HEX[d]) == d && !IsSpace(HEX[d]) && HEX[d] != '-' && HEX[d] != 'x' && HEX[d] != 'X'
    ensures HEX[d] == '0' <==> d == 0
  {
  }

  lemma {:induction false} HexFromDigits(s: string, ds: seq<nat>, i: nat, start: nat)
    requires DigitsIn(16, ds) && i <= |ds| && |s| == start + |ds|
    requires forall k :: 0 <= k < |ds| ==> s[start + k] == HEX[ds[k]]
    ensures HexFrom(s, start + i, Value(16, ds[..i])) == Value(16, ds)
    decreases |ds| - i
  {
    if i == |ds| {
      assert ds[..i] == ds;
    } else {
      HexDigitOf(ds[i]);
      assert s[start + i] == HEX[ds[i]];
      assert ds[..i + 1] == ds[..i] + [ds[i]];
      ValueSnoc(16, ds[..i], ds[i]);
      HexFromDigits(s, ds, i + 1, start);
    }
  }

  /** Text without spaces or a prefix: an optional sign, then digits. */
  lemma ReadHexPlain(s: string, start: nat)
    requires start <= 1 && start < |s| && (start == 1 ==> s[0] == '-')
    requires IsHexDigit(s[start]) && (s[start] == '0' ==> |s| == start + 1)
    ensures ReadHex(s) == WithSign(start == 1, HexFrom(s, start, 0))
  {
  }

  /** What GetHex writes, SetHex reads back, for numbers of either sign. */
  lemma HexRoundTrip(x: int)
    ensures ReadHex(ToText(x, 16)) == x
  {
    hide Digits, Value, ReadHex, HexFrom;
    var s, ds := ToText(x, 16), Digits(16, Abs(x));
    if x == 0 {
      ReadHexPlain(s, 0);
      HexFromDigits(s, [0], 0, 0);
      ValueOfZero();
    } else {
      var start := if x < 0 then 1 else 0;
      assert forall k :: 0 <= k < |ds| ==> s[start + k] == HEX[ds[k]];
      HexDigitOf(ds[0]);
      assert s[start] == HEX[ds[0]];
      ReadHexPlain(s, start);
      HexFromDigits(s, ds, 0, start);
      ValueOfDigits(16, Abs(x));
      EmptyValue(16);
    }
    assert ds[..0] == [];
    assert [0][..0] == [];
    EmptyValue(16);
  }

  // ----- the loops -----

  /** BN_div */
  function BnDiv(v: nat, base: nat): (r: (nat, nat))
    requires base >= 2
  {
    (v / base, v % base)
  }

  lemma CharsStep(base: nat, v: nat)
    requires 2 <= base <= 16 && v > 0 && DigitsIn(16, Digits(base, v))
    ensures var (q, c) := BnDiv(v, base);
      && c < base && q < v && DigitsIn(16, Digits(base, q))
      && Chars(Digits(base, v)) == Chars(Digits(base, q)) + [HEX[c]]
  {
    DivSmaller(v, base);
  }

  lemma SnocAsCons<T>(a: seq<T>, x: T, b: seq<T>)
    ensures (a + [x]) + b == a + ([x] + b)
  {
  }

  lemma NoCharsLeft(base: nat)
    requires 2 <= base <= 16
    ensures Digits(base, 0) == [] && Chars([]) == "" && Reverse<char>("") == ""
  {
  }

  lemma HexFromStep(s: string, i: nat, v: nat)
    requires IsHexDigit(At(s, i))
    ensures HexFrom(s, i, v) == HexFrom(s, i + 1, v * 16 + HexDigit(At(s, i)))
  {
  }

  lemma HexFromEnd(s: string, i: nat, v: nat)
    requires !IsHexDigit(At(s, i))
    ensures HexFrom(s, i, v) == v
  {
  }

  lemma ValueOfZero()
    ensures Value(16, [0]) == 0
  {
    assert [0][..0] == [];
  }

  /** The loops that step over spaces. */
  method PastSpaces(str: string, start: nat) returns (psz: nat)
    ensures psz == SkipSpaces(str, start)
  {
    psz := start;
    while IsSpace(At(str, psz))
      invariant SkipSpaces(str, psz) == SkipSpaces(str, start)
      decreases if psz < |str| then |str| - psz else 0
    {
      psz := psz + 1;
    }
  }
}
