/** CBigNum: an integer, and the byte strings it is written to and read from. */
module BigNum {
  import opened Options
  import opened Numerals

  const WORD := 0x1_0000_0000
  const INT_LIMIT := 0x8000_0000
  const WORD64 := 0x1_0000_0000_0000_0000

  function Abs(x: int): nat {
    if x < 0 then -x else x
  }

  /** The base-256 digits of a number: BN_bn2bin. */
  function Bytes(v: nat): (bs: seq<byte>)
    ensures bs == Digits(256, v)
  {
    Digits(256, v)
  }

  // ----- OpenSSL's MPI format: a 4-byte big-endian length, then sign and magnitude -----

  function Be32(n: nat): (h: seq<byte>)
    ensures |h| == 4 && Value(256, h) == n % WORD
  {
    Be32Value(n);
    [n / 0x100_0000 % 256, n / 0x1_0000 % 256, n / 256 % 256, n % 256]
  }

  lemma ValueOfFour(a: nat, b: nat, c: nat, d: nat)
    ensures Value(256, [a, b, c, d]) == ((a * 256 + b) * 256 + c) * 256 + d
  {
    ValueSnoc(256, [], a);
    ValueSnoc(256, [a], b);
    ValueSnoc(256, [a, b], c);
    ValueSnoc(256, [a, b, c], d);
    assert [] + [a] == [a] && [a] + [b] == [a, b] && [a, b] + [c] == [a, b, c] && [a, b, c] + [d] == [a, b, c, d];
  }

  lemma Be32Value(n: nat)
    ensures Value(256, [n / 0x100_0000 % 256, n / 0x1_0000 % 256, n / 256 % 256, n % 256]) == n % WORD
  {
    ValueOfFour(n / 0x100_0000 % 256, n / 0x1_0000 % 256, n / 256 % 256, n % 256);
    var n1, n2, n3 := n / 256, n / 0x1_0000, n / 0x100_0000;
    assert n2 == n1 / 256 && n3 == n2 / 256;
    assert n % WORD == n3 % 256 * 0x100_0000 + n2 % 256 * 0x1_0000 + n1 % 256 * 256 + n % 256;
  }

  /** A magnitude with its sign: the top bit of the first byte is the sign bit, so a
      magnitude that already uses that bit gets a byte of its own for the sign. */
  function Signed(neg: bool, m: seq<byte>): (body: seq<byte>)
    ensures |body| <= |m| + 1
  {
    if m == [] then []
    else if m[0] >= 0x80 then [if neg then 0x80 else 0] + m
    else if neg then [m[0] + 0x80] + m[1..]
    else m
  }

  /** BN_bn2mpi */
  function Mpi(x: int): seq<byte> {
    var body := Signed(x < 0, Bytes(Abs(x)));
    Be32(|body|) + body
  }

  /** The magnitude of a body: its bytes with the sign bit cleared. */
  function Magnitude(body: seq<byte>): (m: seq<byte>)
    ensures |m| == |body|
  {
    if body == [] then [] else [body[0] % 0x80] + body[1..]
  }

  function WithSign(neg: bool, mag: nat): int {
    var m: int := mag;
    if neg then -m else m
  }

  function BodyValue(body: seq<byte>): int {
    WithSign(body != [] && body[0] >= 0x80, Value(256, Magnitude(body)))
  }

  /** A size passed as a 32-bit signed integer. */
  function AsInt(n: nat): (i: int)
    ensures i == if n % WORD < INT_LIMIT then n % WORD else n % WORD - WORD
    ensures i <= n
  {
    if n % WORD < INT_LIMIT then n % WORD else n % WORD - WORD
  }

  /** BN_mpi2bn, which takes the length of the string as an `int`: fails when that is too
      short or does not match the length field, and reads no more than that many bytes. */
  function Mpi2Bn(d: seq<byte>): Option<int> {
    var n := AsInt(|d|);
    if n < 4 || Value(256, d[..4]) + 4 != n then None else Some(BodyValue(d[4..n]))
  }

  lemma SignedParts(neg: bool, m: seq<byte>)
    requires m == [] || m[0] != 0
    ensures var body := Signed(neg, m);
      if m == [] then body == []
      else body != [] && (body[0] >= 0x80 <==> neg) && (Magnitude(body) == m || Magnitude(body) == Zeros(1) + m)
  {
    var body := Signed(neg, m);
    if m != [] && m[0] >= 0x80 {
      assert Magnitude(body) == Zeros(1) + m;
    } else {
      assert Magnitude(body) == m;
    }
  }

  lemma SignedValue(neg: bool, m: seq<byte>)
    requires m == [] || m[0] != 0
    ensures Value(256, Magnitude(Signed(neg, m))) == Value(256, m)
    ensures BodyValue(Signed(neg, m)) == WithSign(neg, Value(256, m))
  {
    hide Value, Magnitude, Signed;
    SignedParts(neg, m);
    LeadingZeros(256, 1, m);
    EmptyValue(256);
    EmptyMagnitude();
  }

  lemma EmptyMagnitude()
    ensures Magnitude([]) == []
  {
  }

  lemma EmptyValue(base: nat)
    ensures Value(base, []) == 0
  {
  }

  /** How many bytes BN_mpi2bn reads after a length field for `k` bytes; None when it fails. */
  function BytesRead(k: nat): (r: Option<nat>)
    ensures r.Some? ==> r.value <= k
    ensures k + 4 < INT_LIMIT ==> r == Some(k)
  {
    if k % WORD + 4 < INT_LIMIT then Some(k % WORD) else None
  }

  lemma MpiOfBytes(body: seq<byte>)
    ensures Mpi2Bn(Be32(|body|) + body) ==
      match BytesRead(|body|) { case None => None case Some(r) => Some(BodyValue(body[..r])) }
  {
    hide Value, Be32, BodyValue;
    var k, d := |body|, Be32(|body|) + body;
    assert d[..4] == Be32(k);
    assert k + 4 == k / WORD * WORD + (k % WORD + 4);
    if k % WORD + 4 < WORD {
      DivOfMul(k / WORD, WORD, k % WORD + 4);
    } else {
      DivOfMul(k / WORD + 1, WORD, k % WORD + 4 - WORD);
    }
    if BytesRead(k).Some? {
      assert d[4..k % WORD + 4] == body[..k % WORD];
    }
  }

  /** What is written is read back, whatever the sign. */
  lemma MpiRoundTrip(x: int)
    ensures var body := Signed(x < 0, Bytes(Abs(x)));
      BodyValue(body) == x && (|body| + 4 < INT_LIMIT ==> Mpi2Bn(Mpi(x)) == Some(x))
  {
    hide Value, Be32, Signed, BodyValue, BytesRead, Mpi2Bn;
    var body := Signed(x < 0, Bytes(Abs(x)));
    SignedValue(x < 0, Bytes(Abs(x)));
    ValueOfDigits(256, Abs(x));
    MpiOfBytes(body);
    assert body[..|body|] == body;
  }

  // ----- writing a number byte by byte -----

  function StripBytes(ds: seq<byte>): (r: seq<byte>)
    ensures r == Strip(ds)
  {
    if ds == [] || ds[0] != 0 then ds else StripBytes(ds[1..])
  }

  /** What the setters have written once they have consumed the bytes `ds`. */
  function Written(neg: bool, ds: seq<byte>): seq<byte> {
    Signed(neg, StripBytes(ds))
  }

  lemma WrittenStep(neg: bool, ds: seq<byte>, c: byte)
    ensures |Written(neg, ds)| <= |ds| + 1
    ensures StripBytes(ds) == [] <==> Written(neg, ds) == []
    ensures Written(neg, ds + [c]) ==
      if StripBytes(ds) != [] then Written(neg, ds) + [c]
      else if c == 0 then []
      else if c >= 0x80 then [if neg then 0x80 else 0, c]
      else if neg then [c + 0x80] else [c]
    ensures StripBytes(ds + [c]) == [] <==> StripBytes(ds) == [] && c == 0
  {
    StripStep(ds, c);
    hide Strip;
  }

  /** The bytes of a number, with enough leading zeros to make `n` of them. */
  lemma Padded(v: nat, n: nat) returns (ds: seq<byte>)
    requires v < Pow(256, n)
    ensures |ds| == n && Value(256, ds) == v
  {
    var m := Bytes(v);
    ValueOfDigits(256, v);
    if |m| > n {
      ValueAtLeast(256, m);
      PowMonotone(256, n, |m| - 1);
    }
    hide Value;
    var z: seq<byte> := seq(n - |m|, _ => 0);
    assert z == Zeros(n - |m|);
    LeadingZeros(256, n - |m|, m);
    ds := z + m;
  }

  lemma WrittenIsMpi(x: int, ds: seq<byte>)
    requires Value(256, ds) == Abs(x)
    ensures Written(x < 0, ds) == Signed(x < 0, Bytes(Abs(x)))
  {
    StripIsDigits(256, ds);
  }

  lemma Pow256()
    ensures Pow(256, 7) == 0x100_0000_0000_0000 && Pow(256, 8) == WORD64
  {
    assert Pow(256, 2) == 0x1_0000;
    assert Pow(256, 4) == 0x1_0000_0000 by { PowAdd(256, 2, 2); }
    assert Pow(256, 6) == 0x1_0000_0000_0000 by { PowAdd(256, 4, 2); }
    assert Pow(256, 7) == 0x100_0000_0000_0000 by { assert Pow(256, 7) == Pow(256, 6) * 256; }
    assert Pow(256, 8) == Pow(256, 7) * 256;
  }

  /** Shifting a byte out at the top of a 64-bit word. */
  function ShiftOut(n: nat): (nat, nat) {
    (n / 0x100_0000_0000_0000, n * 256 % WORD64)
  }

  lemma ShiftParts(top: nat, rest: nat)
    requires top < 256 && rest < 0x100_0000_0000_0000
    ensures ShiftOut(top * 0x100_0000_0000_0000 + rest) == (top, rest * 256)
  {
    DivOfMul(top, 0x100_0000_0000_0000, rest);
    DivOfMul(top, WORD64, rest * 256);
  }

  lemma TopByte(t: seq<byte>)
    requires |t| == 8
    ensures ShiftOut(Value(256, t)) == (t[0], Value(256, t[1..] + [0]))
  {
    hide Value, Pow, ShiftOut;
    var rest := t[1..];
    Pow256();
    assert t == [t[0]] + rest;
    ValueConcat(256, [t[0]], rest);
    ValueSnoc(256, [], t[0]);
    EmptyValue(256);
    assert [] + [t[0]] == [t[0]];
    ValueBound(256, rest);
    ValueSnoc(256, rest, 0);
    ShiftParts(t[0], Value(256, rest));
  }

  /** The bytes from `i` on, shifted to the top of the word. */
  function Shifted(ds: seq<byte>, i: nat): nat
    requires i <= |ds|
  {
    Value(256, ds[i..] + ZeroBytes(i))
  }

  lemma ShiftedStep(ds: seq<byte>, i: nat)
    requires i < |ds| == 8
    ensures ShiftOut(Shifted(ds, i)) == (ds[i], Shifted(ds, i + 1))
    ensures ds[..i + 1] == ds[..i] + [ds[i]]
  {
    hide Value, ShiftOut, Zeros;
    var t: seq<byte> := ds[i..] + ZeroBytes(i);
    TopByte(t);
    assert t[1..] + [0] == ds[i + 1..] + ZeroBytes(i + 1);
  }

  /** The last bytes of a number are its remainder. */
  lemma LowBytes(a: seq<byte>, b: seq<byte>)
    ensures Value(256, a + b) % Pow(256, |b|) == Value(256, b)
  {
    ValueConcat(256, a, b);
    ValueBound(256, b);
    DivOfMul(Value(256, a), Pow(256, |b|), Value(256, b));
  }

  function ZeroBytes(n: nat): (z: seq<byte>)
    ensures z == Zeros(n)
  {
    var z: seq<byte> := seq(n, _ => 0);
    assert z == Zeros(n);
    z
  }

  lemma NextReversed(n: seq<byte>, ds: seq<byte>, k: nat, i: nat)
    requires ds == Reverse(n) && k < |n| && i == |n| - 1 - k
    ensures ds[..k + 1] == ds[..k] + [n[i]]
  {
    hide Reverse;
    TakeOneMore(ds, k);
  }

  lemma NothingYet(neg: bool, ds: seq<byte>)
    ensures ds[..0] == [] && Shifted(ds, 0) == Value(256, ds) && Written(neg, []) == [] && StripBytes([]) == []
  {
    assert ds[0..] + ZeroBytes(0) == ds;
  }

  lemma AbsIs(x: int)
    ensures Abs(x) == if x < 0 then -x else x
  {
  }

  lemma SetsToNat(x: nat, ds: seq<byte>)
    requires Value(256, ds) == x
    ensures BodyValue(Written(false, ds)) == x
  {
    SetsTo(x, ds);
  }

  lemma SetsTo(x: int, ds: seq<byte>)
    requires Value(256, ds) == Abs(x)
    ensures BodyValue(Written(x < 0, ds)) == x
  {
    WrittenIsMpi(x, ds);
    MpiRoundTrip(x);
  }

  /** A body in terms of all its bytes: the highest bit is the sign, the others the magnitude. */
  lemma BodyMeans(body: seq<byte>)
    requires body != []
    ensures var v, top := Value(256, body), 0x80 * Pow(256, |body| - 1);
      BodyValue(body) == if v >= top then top - v else v
  {
    hide Value, Pow, BodyValue;
    BodyOf(body[0], body[1..]);
    assert body == [body[0]] + body[1..];
  }

  lemma BodyOf(b: byte, rest: seq<byte>)
    ensures var v, top := Value(256, [b] + rest), 0x80 * Pow(256, |rest|);
      BodyValue([b] + rest) == if v >= top then top - v else v
  {
    hide Value, Pow, Magnitude;
    MagnitudeOf(b, rest);
    FirstByte(b, rest);
    ValueBound(256, rest);
    TopBit(b, Pow(256, |rest|), Value(256, rest), Value(256, [b] + rest), Value(256, Magnitude([b] + rest)));
  }

  lemma MagnitudeOf(b: byte, rest: seq<byte>)
    ensures Value(256, Magnitude([b] + rest)) == b % 0x80 * Pow(256, |rest|) + Value(256, rest)
  {
    hide Value, Pow;
    assert Magnitude([b] + rest) == [b % 0x80] + rest;
    FirstByte(b % 0x80, rest);
  }

  lemma FirstByte(b: byte, rest: seq<byte>)
    ensures Value(256, [b] + rest) == b * Pow(256, |rest|) + Value(256, rest)
  {
    hide Value, Pow;
    ValueConcat(256, [b], rest);
    ValueOfByte(b);
  }

  lemma ValueOfByte(b: byte)
    ensures Value(256, [b]) == b
  {
    EmptyValue(256);
    assert [b][..0] == [];
  }

  lemma TopBit(b: byte, p: nat, w: nat, v: nat, m: nat)
    requires w < p && v == b * p + w && m == b % 0x80 * p + w
    ensures b >= 0x80 <==> v >= 0x80 * p
    ensures m == if b >= 0x80 then v - 0x80 * p else v
  {
    if b >= 0x80 {
      assert b == b % 0x80 + 0x80;
      assert b * p == b % 0x80 * p + 0x80 * p;
    } else {
      MulMono(b + 1, 0x80, p);
    }
  }

  // ----- setvch and getvch -----

  /** The number setvch reads; None when it reads none and changes nothing. */
  function FromVch(vch: seq<byte>): Option<int> {
    match BytesRead(|vch|)
    case None => None
    case Some(r) => Some(BodyValue(Reverse(vch)[..r]))
  }

  /** What setvch reads, as long as the length fits: the bytes are a number, the last the highest, whose
      highest bit is the sign. */
  lemma FromVchMeans(vch: seq<byte>)
    requires 0 < |vch| < 0x7fff_fffc
    ensures var v, top := Value(256, Reverse(vch)), 0x80 * Pow(256, |vch| - 1);
      FromVch(vch) == Some(if v >= top then top - v else v)
  {
    hide Value, Pow, BodyValue, Reverse;
    assert Reverse(vch)[..|vch|] == Reverse(vch);
    BodyMeans(Reverse(vch));
  }

  /** The bytes getvch writes. */
  function ToVch(x: int): seq<byte> {
    Reverse(Signed(x < 0, Bytes(Abs(x))))
  }

  lemma PrefixLess(p: seq<byte>, q: seq<byte>)
    ensures Value(256, p) <= Value(256, p + q)
    ensures q != [] && Value(256, p + q) > 0 ==> Value(256, p) < Value(256, p + q)
  {
    hide Value, Pow;
    ValueConcat(256, p, q);
    if q == [] {
      PowOfNone();
      EmptyValue(256);
    } else {
      PowMonotone(256, 1, |q|);
      PowOfNone();
      MulMono(256, Pow(256, |q|), Value(256, p));
    }
  }

  lemma PowOfNone()
    ensures Pow(256, 0) == 1 && Pow(256, 1) == 256
  {
  }

  /** A proper prefix of what is written for `x` stands for another number. */
  lemma PrefixDiffers(x: int, r: nat)
    requires r < |Signed(x < 0, Bytes(Abs(x)))|
    ensures BodyValue(Signed(x < 0, Bytes(Abs(x)))[..r]) != x
  {
    hide Value, Signed, Digits;
    var body := Signed(x < 0, Bytes(Abs(x)));
    SignedValue(x < 0, Bytes(Abs(x)));
    ValueOfDigits(256, Abs(x));
    var m := Magnitude(body);
    assert m == m[..r] + m[r..];
    assert Magnitude(body[..r]) == m[..r];
    PrefixLess(m[..r], m[r..]);
    ZeroHasNoBody();
    assert Abs(BodyValue(body[..r])) == Value(256, m[..r]) < Value(256, m) == Abs(x);
  }

  lemma ZeroHasNoBody()
    ensures Signed(false, Bytes(0)) == []
  {
  }

  /** What getvch writes for `x`, setvch reads as `x`, whatever the sign, exactly if the length
      with its four bytes is an `int`. */
  lemma SetVchUndoesGetVch(x: int)
    ensures FromVch(ToVch(x)) == Some(x) <==> |ToVch(x)| + 4 < INT_LIMIT
  {
    hide Value, Signed, BodyValue, BytesRead, Reverse;
    var body := Signed(x < 0, Bytes(Abs(x)));
    ReverseTwice(body);
    MpiRoundTrip(x);
    if |body| + 4 < INT_LIMIT {
      assert body[..|body|] == body;
    } else {
      LongIsCut(|body|);
      if BytesRead(|body|).Some? {
        PrefixDiffers(x, BytesRead(|body|).value);
      }
    }
  }

  lemma LongIsCut(k: nat)
    requires k + 4 >= INT_LIMIT
    ensures var r := BytesRead(k); r.Some? ==> r.value < k
  {
  }

  /** The magnitude part of the MPI string of `x`. */
  ghost function MpiMagnitude(x: int): (m: seq<byte>)
    ensures Value(256, m) == Abs(x) && |Mpi(x)| == |m| + 4
    ensures m == Magnitude(Mpi(x)[4..])
  {
    var body := Signed(x < 0, Bytes(Abs(x)));
    SignedValue(x < 0, Bytes(Abs(x)));
    ValueOfDigits(256, Abs(x));
    assert Mpi(x)[4..] == body;
    Magnitude(body)
  }

  lemma ClearedSign(vch: seq<byte>)
    requires |vch| >= 4
    ensures var w := if |vch| > 4 then vch[4 := vch[4] % 0x80] else vch;
      var m := Magnitude(vch[4..]);
      |m| == |vch| - 4 && forall k :: 0 <= k < |m| ==> m[k] == w[k + 4]
  {
  }

  /** The bytes copied from the end of `m` are its value modulo 2^256. */
  lemma LowWord(m: seq<byte>, n: seq<byte>)
    requires |n| == 32
    requires forall k :: 0 <= k < 32 ==> n[k] == if k < |m| then m[|m| - 1 - k] else 0
    ensures Value(256, Reverse(n)) == Value(256, m) % Pow(256, 32)
  {
    hide Value, Pow, Reverse;
    var r := Reverse(n);
    LowBytesAre(m, n);
    if |m| >= 32 {
      LowBytes(m[..|m| - 32], r);
    } else {
      LeadingZeros(256, 32 - |m|, m);
      LowBytes([], r);
      assert [] + r == r;
    }
  }

  lemma LowBytesAre(m: seq<byte>, n: seq<byte>)
    requires |n| == 32
    requires forall k :: 0 <= k < 32 ==> n[k] == if k < |m| then m[|m| - 1 - k] else 0
    ensures var r := Reverse(n); |r| == 32 && r == if |m| >= 32 then m[|m| - 32..] else Zeros(32 - |m|) + m
    ensures |m| >= 32 ==> m == m[..|m| - 32] + Reverse(n)
  {
    var r := Reverse(n);
    forall k | 0 <= k < 32 ensures r[k] == n[31 - k] {
    }
  }
}
