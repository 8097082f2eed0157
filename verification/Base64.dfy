/** Base64: three bytes at a time as four characters, and back. */
module Base64 {
  import opened Text

  /** base64_chars, in pieces short enough for the verifier to unfold. */
  const CHARS := "ABCDEFGHIJKLM" + "NOPQRSTUVWXYZ" + "abcdefghijklm" + "nopqrstuvwxyz" + "0123456789" + "+/"

  predicate IsBase64(c: char) {
    'A' <= c <= 'Z' || 'a' <= c <= 'z' || '0' <= c <= '9' || c == '+' || c == '/'
  }

  type sextet = d: bv8 | d < 64 witness 0

  /** The character at a place in the alphabet, by the ranges it is made of. */
  function InRanges(d: nat): char
    requires d < 64
  {
    if d < 26 then ('A' as int + d) as char
    else if d < 52 then ('a' as int + d - 26) as char
    else if d < 62 then ('0' as int + d - 52) as char
    else if d == 62 then '+' else '/'
  }

  predicate RangesBetween(lo: nat, n: nat)
    requires lo <= n <= 64
  {
    n == lo || (CHARS[n - 1] == InRanges(n - 1) && RangesBetween(lo, n - 1))
  }

  lemma {:induction false} RangesAt(lo: nat, n: nat, d: nat)
    requires lo <= d < n <= 64 && RangesBetween(lo, n)
    ensures CHARS[d] == InRanges(d)
  {
    if d < n - 1 {
      RangesAt(lo, n - 1, d);
    }
  }

  lemma UpperCase()
    ensures RangesBetween(0, 26)
  {
    assert RangesBetween(0, 7);
    assert RangesBetween(0, 13);
    assert RangesBetween(0, 20);
  }

  lemma LowerCase()
    ensures RangesBetween(26, 52)
  {
    assert RangesBetween(26, 33);
    assert RangesBetween(26, 39);
    assert RangesBetween(26, 46);
  }

  lemma TheOthers()
    ensures RangesBetween(52, 64)
  {
    assert RangesBetween(52, 58);
  }

  lemma AlphabetIsRanges(d: nat)
    requires d < 64
    ensures CHARS[d] == InRanges(d)
  {
    hide RangesBetween;
    UpperCase();
    LowerCase();
    TheOthers();
    if d < 26 {
      RangesAt(0, 26, d);
    } else if d < 52 {
      RangesAt(26, 52, d);
    } else {
      RangesAt(52, 64, d);
    }
  }

  /** What the alphabet's find returns, as an unsigned char: 255 for npos. */
  function Find(c: char): (d: bv8)
    ensures IsBase64(c) ==> d < 64 && CHARS[d as int] == c
  {
    hide FindFrom;
    var i := FindFrom(CHARS, c, 0);
    FoundInRange(c);
    if i == -1 then 0xff else
    SmallBits(i);
    i as bv8
  }

  lemma SmallBits(i: nat)
    requires i < 64
    ensures i as bv8 < 64 && (i as bv8) as int == i
  {
  }

  lemma FoundInRange(c: char)
    ensures IsBase64(c) ==> FindFrom(CHARS, c, 0) != -1
  {
    hide FindFrom;
    if IsBase64(c) {
      var d := if 'A' <= c <= 'Z' then c as int - 'A' as int
        else if 'a' <= c <= 'z' then c as int - 'a' as int + 26
        else if '0' <= c <= '9' then c as int - '0' as int + 52
        else if c == '+' then 62 else 63;
      AlphabetIsRanges(d);
      assert CHARS[d] == c;
    }
  }

  lemma DistinctChars(i: nat, j: nat)
    requires i < 64 && j < 64 && CHARS[i] == CHARS[j]
    ensures i == j
  {
    AlphabetIsRanges(i);
    AlphabetIsRanges(j);
  }

  lemma FindOfChar(d: sextet)
    ensures Find(CHARS[d as int]) == d && IsBase64(CHARS[d as int])
  {
    hide FindFrom, RangesBetween;
    AlphabetIsRanges(d as int);
    DistinctChars(Find(CHARS[d as int]) as int, d as int);
  }

  // ----- 24 bits, as three bytes or as four sextets -----

  function Join3(a: bv8, b: bv8, c: bv8): bv24 {
    ((a as bv24) << 16) | ((b as bv24) << 8) | c as bv24
  }

  function Join4(p: bv8, q: bv8, r: bv8, s: bv8): bv24 {
    ((p as bv24) << 18) | ((q as bv24) << 12) | ((r as bv24) << 6) | s as bv24
  }

  function Bytes3(n: bv24): (b: seq<bv8>)
    ensures |b| == 3
  {
    [(n >> 16) as bv8, ((n >> 8) & 0xff) as bv8, (n & 0xff) as bv8]
  }

  function Sextets4(n: bv24): (d: seq<sextet>)
    ensures |d| == 4
  {
    [(n >> 18) as bv8, ((n >> 12) & 0x3f) as bv8, ((n >> 6) & 0x3f) as bv8, (n & 0x3f) as bv8]
  }

  lemma JoinSplit(n: bv24)
    ensures Join3(Bytes3(n)[0], Bytes3(n)[1], Bytes3(n)[2]) == n
    ensures Join4(Sextets4(n)[0], Sextets4(n)[1], Sextets4(n)[2], Sextets4(n)[3]) == n
  {
  }

  lemma SplitJoin(a: bv8, b: bv8, c: bv8)
    ensures Bytes3(Join3(a, b, c)) == [a, b, c]
    ensures b == c == 0 ==> Sextets4(Join3(a, b, c))[2] == 0
    ensures c == 0 ==> Sextets4(Join3(a, b, c))[3] == 0
  {
  }

  // ----- the format of section 4 of RFC 4648 -----

  function ToSextets(b: seq<bv8>): seq<sextet> {
    if |b| >= 3 then Sextets4(Join3(b[0], b[1], b[2])) + ToSextets(b[3..])
    else if |b| == 2 then Sextets4(Join3(b[0], b[1], 0))[..3]
    else if |b| == 1 then Sextets4(Join3(b[0], 0, 0))[..2]
    else []
  }

  function FromSextets(d: seq<sextet>): seq<bv8> {
    if |d| >= 4 then Bytes3(Join4(d[0], d[1], d[2], d[3])) + FromSextets(d[4..])
    else if |d| == 3 then Bytes3(Join4(d[0], d[1], d[2], 0))[..2]
    else if |d| == 2 then Bytes3(Join4(d[0], d[1], 0, 0))[..1]
    else []
  }

  lemma {:induction false} FromToSextets(b: seq<bv8>)
    ensures FromSextets(ToSextets(b)) == b
  {
    hide Join3, Join4, Bytes3, Sextets4;
    if |b| >= 3 {
      var n := Join3(b[0], b[1], b[2]);
      FromToSextets(b[3..]);
      SplitJoin(b[0], b[1], b[2]);
      JoinSplit(n);
      assert ToSextets(b)[..4] == Sextets4(n) && ToSextets(b)[4..] == ToSextets(b[3..]);
      assert b == [b[0], b[1], b[2]] + b[3..];
    } else if |b| == 2 {
      SplitJoin(b[0], b[1], 0);
      JoinSplit(Join3(b[0], b[1], 0));
    } else if |b| == 1 {
      SplitJoin(b[0], 0, 0);
      JoinSplit(Join3(b[0], 0, 0));
    }
  }

  function Chars64(d: seq<sextet>): (s: string)
    ensures |s| == |d| && forall i :: 0 <= i < |d| ==> s[i] == CHARS[d[i] as int]
  {
    seq(|d|, i requires 0 <= i < |d| => CHARS[d[i] as int])
  }

  /** Fills the last group of four characters up. */
  function Padding(n: nat): string {
    if n % 3 == 0 then "" else if n % 3 == 2 then "=" else "=="
  }

  function Encode(b: seq<bv8>): string {
    Chars64(ToSextets(b)) + Padding(|b|)
  }

  /** How many characters of the alphabet come first. */
  function Prefix(s: string): (n: nat)
    ensures n <= |s| && (forall i :: 0 <= i < n ==> IsBase64(s[i])) && (n < |s| ==> !IsBase64(s[n]))
  {
    if s == [] || !IsBase64(s[0]) then 0 else 1 + Prefix(s[1..])
  }

  function Sextets(s: string): (d: seq<sextet>)
    requires forall i :: 0 <= i < |s| ==> IsBase64(s[i])
    ensures |d| == |s| && forall i :: 0 <= i < |s| ==> d[i] == Find(s[i])
  {
    seq(|s|, i requires 0 <= i < |s| => Find(s[i]))
  }

  function Decode(s: string): seq<bv8> {
    FromSextets(Sextets(s[..Prefix(s)]))
  }

  lemma SextetsOfChars(d: seq<sextet>, s: string)
    requires s == Chars64(d)
    ensures (forall i :: 0 <= i < |s| ==> IsBase64(s[i])) && Sextets(s) == d
  {
    hide Find;
    forall i | 0 <= i < |s| ensures IsBase64(s[i]) && Find(s[i]) == d[i] {
      FindOfChar(d[i]);
    }
  }

  /** Whatever follows the first character outside the alphabet is ignored. */
  lemma DecodeStops(s: string, t: string)
    requires (forall i :: 0 <= i < |s| ==> IsBase64(s[i])) && (t != [] ==> !IsBase64(t[0]))
    ensures Decode(s + t) == FromSextets(Sextets(s))
  {
    assert t != [] ==> (s + t)[|s|] == t[0];
    assert forall i :: 0 <= i < |s| ==> (s + t)[i] == s[i];
    assert (s + t)[..|s|] == s;
  }

  /** Decoding gives back whatever was encoded. */
  lemma DecodeInvertsEncode(b: seq<bv8>)
    ensures Decode(Encode(b)) == b
  {
    hide Decode, Find;
    var s := Chars64(ToSextets(b));
    SextetsOfChars(ToSextets(b), s);
    DecodeStops(s, Padding(|b|));
    FromToSextets(b);
  }

  // ----- which texts are encodings -----

  /** The bits left over after the last whole byte are zero, and there are fewer than six. */
  predicate Canonical(d: seq<sextet>) {
    var k := |d| % 4;
    k == 0 || (k == 2 && d[|d| - 1] & 0x0f == 0) || (k == 3 && d[|d| - 1] & 0x03 == 0)
  }

  lemma RegroupFour(p: sextet, q: sextet, r: sextet, s: sextet)
    ensures Sextets4(Join4(p, q, r, s)) == [p, q, r, s]
  {
  }

  lemma RegroupThree(p: sextet, q: sextet, r: sextet)
    ensures var b := Bytes3(Join4(p, q, r, 0)); var d := Sextets4(Join3(b[0], b[1], 0));
      d[0] == p && d[1] == q && (d[2] == r <==> r & 0x03 == 0)
  {
  }

  lemma RegroupTwo(p: sextet, q: sextet)
    ensures var b := Bytes3(Join4(p, q, 0, 0)); var d := Sextets4(Join3(b[0], 0, 0));
      d[0] == p && (d[1] == q <==> q & 0x0f == 0)
  {
  }

  lemma {:induction false} ToFromSextets(d: seq<sextet>)
    ensures ToSextets(FromSextets(d)) == d <==> Canonical(d)
  {
    hide ToSextets, FromSextets, Canonical;
    if |d| >= 4 {
      FirstGroup(d);
      ToFromSextets(d[4..]);
      CanonicalRest(d);
      var e := ToSextets(FromSextets(d));
      assert d == d[..4] + d[4..] && e == e[..4] + e[4..];
    } else {
      ToFromFew(d);
    }
  }

  lemma CanonicalRest(d: seq<sextet>)
    requires |d| >= 4
    ensures Canonical(d) <==> Canonical(d[4..])
  {
  }

  lemma ToFromFew(d: seq<sextet>)
    requires |d| < 4
    ensures ToSextets(FromSextets(d)) == d <==> Canonical(d)
  {
    hide Join3, Join4, Bytes3, Sextets4;
    if |d| == 3 {
      RegroupThree(d[0], d[1], d[2]);
    } else if |d| == 2 {
      RegroupTwo(d[0], d[1]);
    }
  }

  lemma FirstGroup(d: seq<sextet>)
    requires |d| >= 4
    ensures var e := ToSextets(FromSextets(d));
      |e| >= 4 && e[..4] == d[..4] && e[4..] == ToSextets(FromSextets(d[4..]))
  {
    hide Join3, Join4, Bytes3, Sextets4;
    var n := Join4(d[0], d[1], d[2], d[3]);
    RegroupFour(d[0], d[1], d[2], d[3]);
    JoinSplit(n);
    var b := FromSextets(d);
    assert b[..3] == Bytes3(n) && b[3..] == FromSextets(d[4..]);
    assert ToSextets(b)[..4] == Sextets4(n);
  }

  lemma CharsOfSextets(s: string)
    requires forall i :: 0 <= i < |s| ==> IsBase64(s[i])
    ensures Chars64(Sextets(s)) == s
  {
    hide Find;
  }

  lemma PrefixIs(s: string, t: string)
    requires (forall i :: 0 <= i < |s| ==> IsBase64(s[i])) && (t != [] ==> !IsBase64(t[0]))
    ensures Prefix(s + t) == |s|
  {
    assert t != [] ==> (s + t)[|s|] == t[0];
    assert forall i :: 0 <= i < |s| ==> (s + t)[i] == s[i];
  }

  lemma {:induction false} SextetCount(b: seq<bv8>)
    ensures |ToSextets(b)| == (8 * |b| + 5) / 6
  {
    hide Sextets4, Join3;
    if |b| >= 3 {
      SextetCount(b[3..]);
    }
  }

  /** The text is a whole number of groups of four characters, one for every three bytes begun, and
      only its end is filled up, with one or two signs. */
  lemma EncodedLength(b: seq<bv8>)
    ensures var s := Encode(b); var n := (8 * |b| + 5) / 6;
      && |s| == (|b| + 2) / 3 * 4 && n <= |s| <= n + 2
      && (forall i :: 0 <= i < n ==> IsBase64(s[i])) && (forall i :: n <= i < |s| ==> s[i] == '=')
  {
    hide ToSextets, Find;
    SextetCount(b);
    SextetsOfChars(ToSextets(b), Chars64(ToSextets(b)));
  }

  /** The end of a text fills its last group of four up. */
  predicate FillsUp(s: string, t: string) {
    |s + t| % 4 == 0 && |t| <= 2 && forall i :: 0 <= i < |t| ==> t[i] == '='
  }

  /** The only filling a whole number of bytes leaves room for. */
  lemma PaddingFillsUp(s: string, t: string, n: nat)
    requires |s| == (8 * n + 5) / 6
    ensures t == Padding(n) <==> FillsUp(s, t)
  {
    var k := n / 3;
    assert n == 3 * k + n % 3;
    assert |s| == 4 * k + if n % 3 == 0 then 0 else n % 3 + 1;
  }

  /** A text is the encoding of what it decodes to exactly when its last group is canonical
      and filled up. */
  lemma EncodeInvertsDecode(s: string, t: string)
    requires (forall i :: 0 <= i < |s| ==> IsBase64(s[i])) && (t != [] ==> !IsBase64(t[0]))
    ensures Encode(Decode(s + t)) == s + t <==> Canonical(Sextets(s)) && FillsUp(s, t)
  {
    hide Find, Decode, Prefix, Canonical, Padding, FillsUp;
    var d := Sextets(s);
    var b := Decode(s + t);
    DecodeStops(s, t);
    ToFromSextets(d);
    CharsOfSextets(s);
    var s' := Chars64(ToSextets(b));
    SextetsOfChars(ToSextets(b), s');
    PrefixIs(s, t);
    PaddedPrefix(s', |b|);
    assert (s + t)[..|s|] == s && (s + t)[|s|..] == t;
    assert Encode(b)[..|s'|] == s' && Encode(b)[|s'|..] == Padding(|b|);
    if Canonical(d) {
      SextetCount(b);
      PaddingFillsUp(s, t, |b|);
    }
  }

  lemma PaddedPrefix(s: string, n: nat)
    requires forall i :: 0 <= i < |s| ==> IsBase64(s[i])
    ensures Prefix(s + Padding(n)) == |s|
  {
    PrefixIs(s, Padding(n));
  }

  // ----- the loops -----

  method SplitIntoSextets(a3: array<bv8>, a4: array<bv8>)
    requires a3.Length == 3 && a4.Length == 4 && a3 != a4
    modifies a4
    ensures a4[..] == Sextets4(Join3(a3[0], a3[1], a3[2]))
  {
    hide Sextets4, Join3;
    var a, b, c := a3[0], a3[1], a3[2];
    SplitBits(a, b, c);
    a4[0] := (a & 0xfc) >> 2;
    a4[1] := ((a & 0x03) << 4) + ((b & 0xf0) >> 4);
    a4[2] := ((b & 0x0f) << 2) + ((c & 0xc0) >> 6);
    a4[3] := c & 0x3f;
    assert a4[..] == [a4[0], a4[1], a4[2], a4[3]];
  }

  lemma SplitBits(a: bv8, b: bv8, c: bv8)
    ensures Sextets4(Join3(a, b, c))
      == [(a & 0xfc) >> 2, ((a & 0x03) << 4) + ((b & 0xf0) >> 4), ((b & 0x0f) << 2) + ((c & 0xc0) >> 6), c & 0x3f]
  {
  }

  lemma JoinBits(p: sextet, q: sextet, r: sextet, s: sextet)
    ensures Bytes3(Join4(p, q, r, s))
      == [(p << 2) + ((q & 0x30) >> 4), ((q & 0xf) << 4) + ((r & 0x3c) >> 2), ((r & 0x3) << 6) + s]
  {
  }

  method JoinIntoBytes(a4: array<bv8>, a3: array<bv8>)
    requires a4.Length == 4 && a3.Length == 3 && a3 != a4
    modifies a3
    ensures a3[..] == Joined(a4[0], a4[1], a4[2], a4[3])
  {
    var p, q, r, s := a4[0], a4[1], a4[2], a4[3];
    a3[0] := (p << 2) + ((q & 0x30) >> 4);
    a3[1] := ((q & 0xf) << 4) + ((r & 0x3c) >> 2);
    a3[2] := ((r & 0x3) << 6) + s;
    assert a3[..] == [a3[0], a3[1], a3[2]];
  }

  /** Three bytes out of four places in the alphabet, each of which may be 255 for none. */
  function Joined(p: bv8, q: bv8, r: bv8, s: bv8): (b: seq<bv8>)
    ensures |b| == 3
  {
    [(p << 2) + ((q & 0x30) >> 4), ((q & 0xf) << 4) + ((r & 0x3c) >> 2), ((r & 0x3) << 6) + s]
  }

  /** Of the last group only the bytes are kept that its characters determine, so the places
      that are filled up with 255 never show. */
  lemma TailIsKept(p: sextet, q: sextet, r: sextet, s: bv8, t: bv8)
    ensures Joined(p, q, r, t)[..2] == Bytes3(Join4(p, q, r, 0))[..2]
    ensures Joined(p, q, s, t)[..1] == Bytes3(Join4(p, q, 0, 0))[..1]
  {
  }

  lemma NextGroup(b: seq<bv8>)
    requires |b| >= 3
    ensures Chars64(ToSextets(b)) == Chars64(Sextets4(Join3(b[0], b[1], b[2]))) + Chars64(ToSextets(b[3..]))
  {
    hide Sextets4, Join3, Chars64;
    CharsConcat(Sextets4(Join3(b[0], b[1], b[2])), ToSextets(b[3..]));
  }

  /** The first `i` entries of the buffer are the input from `start` on. */
  predicate Held<T(==)>(buffer: seq<T>, i: nat, input: seq<T>, start: nat) {
    i <= |buffer| && start + i <= |input| && buffer[..i] == input[start..start + i]
  }

  lemma HeldNone<T>(buffer: seq<T>, input: seq<T>, start: nat)
    requires start <= |input|
    ensures Held(buffer, 0, input, start)
  {
  }

  lemma HeldNext<T>(buffer: seq<T>, i: nat, input: seq<T>, start: nat)
    requires Held(buffer, i, input, start) && i < |buffer| && start + i < |input|
    ensures Held(buffer[i := input[start + i]], i + 1, input, start)
  {
    assert buffer[i := input[start + i]][..i + 1] == buffer[..i] + [input[start + i]];
    assert input[start..start + i + 1] == input[start..start + i] + [input[start + i]];
  }

  lemma HeldAt<T>(buffer: seq<T>, i: nat, input: seq<T>, start: nat, k: nat)
    requires Held(buffer, i, input, start) && k < i
    ensures i <= |buffer| && start + i <= |input| && buffer[k] == input[start + k]
  {
    assert buffer[..i][k] == input[start..start + i][k];
  }

  /** What has been written lacks exactly the characters for the bytes from `start` on. */
  predicate Lacks(ret: string, b: seq<bv8>, start: nat) {
    start <= |b| && ret + Chars64(ToSextets(b[start..])) == Chars64(ToSextets(b))
  }

  lemma LacksAll(b: seq<bv8>)
    ensures Lacks("", b, 0)
  {
    assert b[0..] == b;
  }

  lemma GroupStep(b: seq<bv8>, start: nat, a3: seq<bv8>, ret: string)
    requires Lacks(ret, b, start) && Held(a3, 3, b, start) && |a3| == 3
    ensures Lacks(ret + Chars64(Sextets4(Join3(a3[0], a3[1], a3[2])))[..4], b, start + 3)
  {
    hide Sextets4, Join3, Chars64, ToSextets, Held;
    var rest := b[start..];
    HeldAt(a3, 3, b, start, 0);
    HeldAt(a3, 3, b, start, 1);
    HeldAt(a3, 3, b, start, 2);
    var group := Chars64(Sextets4(Join3(a3[0], a3[1], a3[2])));
    NextGroup(rest);
    assert rest[3..] == b[start + 3..] && group[..4] == group;
    Associative(ret, group, Chars64(ToSextets(rest[3..])));
  }

  lemma Associative<T>(a: seq<T>, b: seq<T>, c: seq<T>)
    ensures (a + b) + c == a + (b + c)
  {
  }

  /** The last bytes, and the padding. */
  lemma TailStep(b: seq<bv8>, start: nat, i: nat, a3: seq<bv8>, ret: string, text: string)
    requires Lacks(ret, b, start) && Held(a3, i, b, start) && start + i == |b| && i < 3 && start % 3 == 0
    requires text == ret + Chars64(ToSextets(a3[..i])) + Padding(i)
    ensures text == Encode(b)
  {
    hide Chars64, ToSextets;
    assert b[start..] == b[start..start + i] == a3[..i];
    assert Padding(i) == Padding(|b|);
  }

  lemma CharsConcat(d: seq<sextet>, e: seq<sextet>)
    ensures Chars64(d + e) == Chars64(d) + Chars64(e)
  {
  }

  lemma LastGroup(b: seq<bv8>, a: bv8, b1: bv8, c: bv8)
    requires 0 < |b| < 3 && a == b[0] && b1 == (if |b| == 2 then b[1] else 0) && c == 0
    ensures Chars64(ToSextets(b)) == Chars64(Sextets4(Join3(a, b1, c)))[..|b| + 1]
  {
    hide Sextets4, Join3, Chars64;
    CharsPrefix(Sextets4(Join3(a, b1, c)), |b| + 1);
  }

  lemma CharsPrefix(d: seq<sextet>, n: nat)
    requires n <= |d|
    ensures Chars64(d[..n]) == Chars64(d)[..n]
  {
  }

  lemma NextChar(d: seq<sextet>, i: nat)
    requires i < |d|
    ensures Chars64(d)[..i + 1] == Chars64(d)[..i] + [CHARS[d[i] as int]]
  {
    hide CHARS;
  }

  /** Appending the characters of the first `n` sextets. */
  method AppendChars(ret0: string, a4: array<bv8>, n: nat, ghost d: seq<sextet>) returns (ret: string)
    requires a4.Length == 4 && n <= 4 && a4[..] == d
    ensures ret == ret0 + Chars64(d)[..n]
  {
    hide Chars64;
    ret := ret0;
    var i := 0;
    while i < n
      invariant i <= n && ret == ret0 + Chars64(d)[..i]
    {
      assert a4[i] == a4[..][i] == d[i];
      NextChar(d, i);
      ret := ret + [CHARS[a4[i] as int]];
      i := i + 1;
    }
  }

  /** The end of base64_encode, with one or two bytes left. */
  method EncodeTail(ret0: string, char_array_3: array<bv8>, char_array_4: array<bv8>, i0: nat) returns (ret: string)
    requires char_array_3.Length == 3 && char_array_4.Length == 4 && char_array_3 != char_array_4 && 0 < i0 < 3
    modifies char_array_3, char_array_4
    ensures ret == ret0 + Chars64(ToSextets(old(char_array_3[..i0]))) + Padding(i0)
  {
    hide Sextets4, Join3, ToSextets, Chars64;
    ghost var rest := char_array_3[..i0];
    var i, j := i0, i0;
    while j < 3
      invariant i <= j <= 3 && char_array_3[..i] == rest
      invariant forall k :: i <= k < j ==> char_array_3[k] == 0
    {
      char_array_3[j] := 0;
      j := j + 1;
    }
    assert forall k :: 0 <= k < i ==> rest[k] == char_array_3[..i][k];
    LastGroup(rest, char_array_3[0], char_array_3[1], char_array_3[2]);
    ghost var d := Sextets4(Join3(char_array_3[0], char_array_3[1], char_array_3[2]));
    SplitIntoSextets(char_array_3, char_array_4);
    ret := AppendChars(ret0, char_array_4, i + 1, d);
    ghost var before := ret;
    while i < 3
      invariant i0 <= i <= 3 && ret == before + Padding(i0)[..i - i0]
    {
      i := i + 1;
      ret := ret + "=";
    }
  }

  method Base64Encode(bytes: seq<bv8>) returns (ret: string)
    ensures ret == Encode(bytes)
  {
    hide Sextets4, Join3, ToSextets, Chars64, Held, Lacks, Padding, Encode;
    ret := "";
    var i: nat, in_len: nat, p: nat := 0, |bytes|, 0;
    ghost var start := 0;
    var char_array_3, char_array_4 := new bv8[3], new bv8[4];
    HeldNone(char_array_3[..], bytes, 0);
    LacksAll(bytes);
    while in_len > 0
      invariant i < 3 && p == start + i && p + in_len == |bytes| && start % 3 == 0
      invariant Held(char_array_3[..], i, bytes, start) && Lacks(ret, bytes, start)
    {
      in_len := in_len - 1;
      HeldNext(char_array_3[..], i, bytes, start);
      char_array_3[i] := bytes[p];
      i, p := i + 1, p + 1;
      if i == 3 {
        GroupStep(bytes, start, char_array_3[..], ret);
        ghost var d := Sextets4(Join3(char_array_3[0], char_array_3[1], char_array_3[2]));
        SplitIntoSextets(char_array_3, char_array_4);
        ret := AppendChars(ret, char_array_4, 4, d);
        start, i := start + 3, 0;
        HeldNone(char_array_3[..], bytes, start);
      }
    }
    ghost var before, held := ret, char_array_3[..];
    if i > 0 {
      assert held[..i] == char_array_3[..i];
      ret := EncodeTail(ret, char_array_3, char_array_4, i);
    } else {
      NoneLeft();
      assert held[..0] == [];
    }
    TailStep(bytes, start, i, held, before, ret);
  }

  lemma NoneLeft()
    ensures Chars64(ToSextets([])) == "" && Padding(0) == ""
  {
  }

  /** The loop that puts places in the alphabet where the characters were. */
  method LookUp(chars: seq<char>, char_array_4: array<bv8>)
    requires |chars| == 4 && char_array_4.Length == 4
    modifies char_array_4
    ensures forall k :: 0 <= k < 4 ==> char_array_4[k] == Find(chars[k])
  {
    hide Find;
    var i := 0;
    while i < 4
      invariant 0 <= i <= 4
      invariant forall k :: 0 <= k < i ==> char_array_4[k] == Find(chars[k])
    {
      char_array_4[i] := Find(chars[i]);
      i := i + 1;
    }
  }

  method AppendBytes(ret0: seq<bv8>, a3: array<bv8>, n: nat) returns (ret: seq<bv8>)
    requires n <= a3.Length
    ensures ret == ret0 + a3[..n]
  {
    ret := ret0;
    var i := 0;
    while i < n
      invariant i <= n && ret == ret0 + a3[..i]
    {
      ret := ret + [a3[i]];
      i := i + 1;
    }
  }

  /** What the bytes of a group or of the tail add. */
  lemma GroupOfBytes(d: seq<sextet>, a4: seq<bv8>, n: nat)
    requires |a4| == 4 && n <= |d| && 1 <= n <= 4 && (n < 4 ==> |d| == n)
    requires forall k :: 0 <= k < n ==> a4[k] == d[k]
    ensures FromSextets(d) == Joined(a4[0], a4[1], a4[2], a4[3])[..n - 1] + if n == 4 then FromSextets(d[4..]) else []
  {
    hide Joined, Bytes3, Join4;
    if n == 4 {
      JoinBits(d[0], d[1], d[2], d[3]);
      JoinedIs(d[0], d[1], d[2], d[3]);
    } else if n == 3 {
      TailIsKept(d[0], d[1], d[2], 0, a4[3]);
    } else if n == 2 {
      TailIsKept(d[0], d[1], 0, a4[2], a4[3]);
    }
  }

  lemma JoinedIs(p: sextet, q: sextet, r: sextet, s: sextet)
    ensures Joined(p, q, r, s) == Bytes3(Join4(p, q, r, s))
  {
    hide Bytes3, Join4;
    JoinBits(p, q, r, s);
  }

  /** A group of four characters, or a tail of `n` of them, turned into `n - 1` bytes. */
  method DecodeGroup(ret0: seq<bv8>, chars: seq<char>, n: nat, ghost d: seq<sextet>) returns (ret: seq<bv8>)
    requires |chars| == 4
    requires n <= |d| && 1 <= n <= 4 && (n < 4 ==> |d| == n)
    requires forall k :: 0 <= k < n ==> Find(chars[k]) == d[k]
    ensures ret + (if n == 4 then FromSextets(d[4..]) else []) == ret0 + FromSextets(d)
  {
    hide Find, Joined, FromSextets;
    var char_array_4, char_array_3 := new bv8[4], new bv8[3];
    LookUp(chars, char_array_4);
    GroupOfBytes(d, char_array_4[..], n);
    JoinIntoBytes(char_array_4, char_array_3);
    ret := AppendBytes(ret0, char_array_3, n - 1);
    assert char_array_3[..n - 1] == char_array_3[..][..n - 1];
  }

  /** What has been written lacks exactly the bytes of the sextets from `start` on. */
  predicate LacksBytes(ret: seq<bv8>, d: seq<sextet>, start: nat) {
    start <= |d| && ret + FromSextets(d[start..]) == FromSextets(d)
  }

  lemma LacksAllBytes(d: seq<sextet>)
    ensures LacksBytes([], d, 0)
  {
    assert d[0..] == d;
  }

  /** One more group of four, or the tail. */
  lemma ByteStep(ret: seq<bv8>, ret': seq<bv8>, d: seq<sextet>, start: nat, n: nat)
    requires LacksBytes(ret, d, start) && 0 < n <= 4 && start + n <= |d| && (n < 4 ==> start + n == |d|)
    requires ret' + (if n == 4 then FromSextets(d[start..][4..]) else []) == ret + FromSextets(d[start..])
    ensures if n == 4 then LacksBytes(ret', d, start + 4) else ret' == FromSextets(d)
  {
    hide FromSextets;
    if n == 4 {
      assert d[start..][4..] == d[start + 4..];
    }
  }

  lemma NoByteLeft(ret: seq<bv8>, d: seq<sextet>)
    requires LacksBytes(ret, d, |d|)
    ensures ret == FromSextets(d)
  {
    assert d[|d|..] == [];
  }

  /** The places of the characters held are the sextets from `start` on, whatever fills the rest. */
  lemma PlacesOf(s: string, d: seq<sextet>, start: nat, before: seq<char>, chars: seq<char>, i: nat)
    requires d == Sextets(s[..Prefix(s)]) && start + i <= |d| && i <= |chars|
    requires Held(before, i, s, start) && before[..i] == chars[..i]
    ensures forall k :: 0 <= k < i ==> Find(chars[k]) == d[start..][k]
  {
    hide Find, Held;
    forall k | 0 <= k < i ensures Find(chars[k]) == d[start..][k] {
      HeldAt(before, i, s, start, k);
      assert chars[..i][k] == before[..i][k] == s[..Prefix(s)][start + k];
    }
  }

  method Base64Decode(s: string) returns (ret: seq<bv8>)
    ensures ret == Decode(s)
  {
    hide Find, FromSextets, Prefix, Sextets, Held, LacksBytes;
    var in_len: nat, i: nat, in_: nat := |s|, 0, 0;
    ghost var start := 0;
    var chars := new char[4];
    ret := [];
    ghost var d := Sextets(s[..Prefix(s)]);
    HeldNone(chars[..], s, 0);
    LacksAllBytes(d);
    while in_len > 0 && s[in_] != '=' && IsBase64(s[in_])
      invariant i < 4 && in_ == start + i <= |d| && in_ + in_len == |s|
      invariant Held(chars[..], i, s, start) && LacksBytes(ret, d, start)
    {
      in_len := in_len - 1;
      HeldNext(chars[..], i, s, start);
      chars[i] := s[in_];
      i := i + 1;
      in_ := in_ + 1;
      if i == 4 {
        ghost var before := ret;
        PlacesOf(s, d, start, chars[..], chars[..], 4);
        ret := DecodeGroup(ret, chars[..], 4, d[start..]);
        ByteStep(before, ret, d, start, 4);
        start, i := start + 4, 0;
        HeldNone(chars[..], s, start);
      }
    }
    if i > 0 {
      ghost var held, before := chars[..], ret;
      var j := i;
      while j < 4
        invariant i <= j <= 4 && chars[..i] == held[..i]
      {
        chars[j] := '\0';
        j := j + 1;
      }
      PlacesOf(s, d, start, held, chars[..], i);
      ret := DecodeGroup(ret, chars[..], i, d[start..]);
      ByteStep(before, ret, d, start, i);
    } else {
      NoByteLeft(ret, d);
    }
  }
}
