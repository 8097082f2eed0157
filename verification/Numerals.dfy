/** Positional notation, most significant digit first, in any base. */
module Numerals {

  type byte = x: nat | x < 256

  function Reverse<T>(s: seq<T>): (r: seq<T>)
    ensures |r| == |s| && forall i :: 0 <= i < |s| ==> r[i] == s[|s| - 1 - i]
  {
    if s == [] then [] else Reverse(s[1..]) + [s[0]]
  }

  lemma ReverseTwice<T>(s: seq<T>)
    ensures Reverse(Reverse(s)) == s
  {
  }

  lemma ReverseAppend<T>(s: seq<T>, t: seq<T>)
    ensures Reverse(s + t) == Reverse(t) + Reverse(s)
  {
  }

  lemma ReverseSnoc<T>(s: seq<T>, x: T)
    ensures Reverse(s + [x]) == [x] + Reverse(s)
  {
    ReverseAppend(s, [x]);
  }

  lemma TakeOneMore<T>(s: seq<T>, k: nat)
    requires k < |s|
    ensures s[..k + 1] == s[..k] + [s[k]]
  {
  }

  predicate DigitsIn(base: nat, ds: seq<nat>) {
    forall i :: 0 <= i < |ds| ==> ds[i] < base
  }

  /** The number `ds` stands for. */
  function Value(base: nat, ds: seq<nat>): nat {
    if ds == [] then 0 else Value(base, ds[..|ds| - 1]) * base + ds[|ds| - 1]
  }

  /** The digits of `v`, without leading zeros. */
  function Digits(base: nat, v: nat): (ds: seq<nat>)
    requires base >= 2
    ensures DigitsIn(base, ds)
    ensures ds == [] <==> v == 0
    ensures v > 0 ==> ds[0] != 0
    decreases v
  {
    if v == 0 then [] else
    DivSmaller(v, base);
    Digits(base, v / base) + [v % base]
  }

  lemma DivSmaller(v: nat, base: nat)
    requires v > 0 && base >= 2
    ensures 0 <= v / base < v && v == v / base * base + v % base && 0 <= v % base < base
    ensures v < base ==> v / base == 0 && v % base == v
    ensures v >= base ==> v / base > 0
  {
  }

  lemma MulMono(a: nat, b: nat, k: nat)
    requires a <= b
    ensures a * k <= b * k
  {
  }

  lemma QuotientLess(q: nat, p: nat, b: nat, d: nat)
    requires q < p && d < b
    ensures q * b + d < p * b
  {
    MulMono(q + 1, p, b);
    assert (q + 1) * b == q * b + b;
  }

  lemma QuotientUnique(q: nat, p: nat, b: nat, d: nat, e: nat)
    requires d < b && e < b && q * b + d == p * b + e
    ensures q == p && d == e
  {
    if q < p {
      QuotientLess(q, p, b, d);
    } else if p < q {
      QuotientLess(p, q, b, e);
    }
  }

  lemma DivOfMul(q: nat, base: nat, d: nat)
    requires d < base
    ensures (q * base + d) / base == q && (q * base + d) % base == d
  {
    var x := q * base + d;
    QuotientUnique(x / base, q, base, x % base, d);
  }

  lemma {:induction false} ValueOfDigits(base: nat, v: nat)
    requires base >= 2
    ensures Value(base, Digits(base, v)) == v
    decreases v
  {
    if v > 0 {
      DivSmaller(v, base);
      ValueOfDigits(base, v / base);
      assert Digits(base, v)[..|Digits(base, v)| - 1] == Digits(base, v / base);
    }
  }

  lemma {:induction false} ValuePositive(base: nat, ds: seq<nat>)
    requires base >= 2 && ds != [] && ds[0] != 0
    ensures Value(base, ds) > 0
  {
    var init := ds[..|ds| - 1];
    if init != [] {
      ValuePositive(base, init);
      assert Value(base, init) * base > 0;
    }
  }

  lemma {:induction false} DigitsOfValue(base: nat, ds: seq<nat>)
    requires base >= 2 && DigitsIn(base, ds) && (ds == [] || ds[0] != 0)
    ensures Digits(base, Value(base, ds)) == ds
  {
    if ds != [] {
      var init, d := ds[..|ds| - 1], ds[|ds| - 1];
      DigitsOfValue(base, init);
      ValuePositive(base, ds);
      DivOfMul(Value(base, init), base, d);
      assert ds == init + [d];
    }
  }

  function Zeros(n: nat): (s: seq<nat>)
    ensures |s| == n && forall i :: 0 <= i < n ==> s[i] == 0
  {
    seq(n, _ => 0)
  }

  lemma {:induction false} LeadingZeros(base: nat, z: nat, ds: seq<nat>)
    ensures Value(base, Zeros(z) + ds) == Value(base, ds)
  {
    if ds != [] {
      assert (Zeros(z) + ds)[..z + |ds| - 1] == Zeros(z) + ds[..|ds| - 1];
      LeadingZeros(base, z, ds[..|ds| - 1]);
    } else if z > 0 {
      assert (Zeros(z) + ds)[..z - 1] == Zeros(z - 1) + [];
      LeadingZeros(base, z - 1, []);
    }
  }

  function Pow(base: nat, n: nat): (p: nat)
    ensures base > 0 ==> p > 0
  {
    if n == 0 then 1 else Pow(base, n - 1) * base
  }

  lemma {:induction false} ValueBound(base: nat, ds: seq<nat>)
    requires base >= 1 && DigitsIn(base, ds)
    ensures Value(base, ds) < Pow(base, |ds|)
  {
    if ds != [] {
      var init := ds[..|ds| - 1];
      ValueBound(base, init);
      QuotientLess(Value(base, init), Pow(base, |init|), base, ds[|ds| - 1]);
    }
  }

  lemma {:induction false} ValueAtLeast(base: nat, ds: seq<nat>)
    requires base >= 2 && ds != [] && ds[0] != 0
    ensures Pow(base, |ds| - 1) <= Value(base, ds)
  {
    var init := ds[..|ds| - 1];
    if init != [] {
      ValueAtLeast(base, init);
      assert Pow(base, |init| - 1) * base <= Value(base, init) * base;
    }
  }

  lemma {:induction false} PowMonotone(base: nat, m: nat, n: nat)
    requires base >= 1 && m <= n
    ensures Pow(base, m) <= Pow(base, n)
  {
    if m < n {
      PowMonotone(base, m, n - 1);
      assert Pow(base, n - 1) <= Pow(base, n - 1) * base;
    }
  }

  lemma MulAssoc(a: nat, b: nat, c: nat)
    ensures a * b * c == a * (b * c)
  {
  }

  lemma {:induction false} PowAdd(base: nat, m: nat, n: nat)
    ensures Pow(base, m + n) == Pow(base, m) * Pow(base, n)
  {
    if n > 0 {
      PowAdd(base, m, n - 1);
      MulAssoc(Pow(base, m), Pow(base, n - 1), base);
    }
  }

  lemma ValueSnoc(base: nat, s: seq<nat>, d: nat)
    ensures Value(base, s + [d]) == Value(base, s) * base + d
  {
    assert (s + [d])[..|s|] == s;
  }

  /** Digits written one after the other. */
  lemma {:induction false} ValueConcat(base: nat, a: seq<nat>, b: seq<nat>)
    ensures Value(base, a + b) == Value(base, a) * Pow(base, |b|) + Value(base, b)
  {
    if b == [] {
      assert a + b == a;
    } else {
      var init, d := b[..|b| - 1], b[|b| - 1];
      assert (a + b)[..|a| + |init|] == a + init;
      ValueConcat(base, a, init);
      Distribute(Value(base, a), Pow(base, |init|), Value(base, init), base);
    }
  }

  lemma Distribute(x: nat, p: nat, y: nat, b: nat)
    ensures (x * p + y) * b == x * (p * b) + y * b
  {
    assert x * p * b == x * (p * b);
  }

  /** Without its leading zeros, a digit sequence is the digits of its value. */
  function Strip(ds: seq<nat>): (r: seq<nat>)
    ensures |r| <= |ds| && (r == [] || r[0] != 0)
    ensures ds == Zeros(|ds| - |r|) + r
  {
    if ds == [] || ds[0] != 0 then ds else Strip(ds[1..])
  }

  lemma StripIsDigits(base: nat, ds: seq<nat>)
    requires base >= 2 && DigitsIn(base, ds)
    ensures Strip(ds) == Digits(base, Value(base, ds))
  {
    hide Strip, Value, Digits;
    var r := Strip(ds);
    LeadingZeros(base, |ds| - |r|, r);
    forall i | 0 <= i < |r| ensures r[i] < base {
      assert r[i] == ds[|ds| - |r| + i];
    }
    DigitsOfValue(base, r);
  }

  lemma {:induction false} StripStep(ds: seq<nat>, d: nat)
    ensures Strip(ds + [d]) == if Strip(ds) == [] && d == 0 then [] else Strip(ds) + [d]
  {
    if ds == [] {
    } else if ds[0] == 0 {
      assert (ds + [d])[1..] == ds[1..] + [d];
      StripStep(ds[1..], d);
    }
  }

  lemma LowByte(n: nat, m: nat)
    requires m > 0
    ensures n % (256 * m) == n % 256 + n / 256 % m * 256
  {
    var q, r := n / 256, n % 256;
    var s, t := q / m, q % m;
    assert n == 256 * (m * s + t) + r == s * (256 * m) + (256 * t + r);
    DivOfMul(s, 256 * m, 256 * t + r);
  }

  lemma LowFour(n: nat)
    ensures n % 0x1_0000_0000 == n % 256 + n / 256 % 256 * 256 + n / 0x1_0000 % 256 * 0x1_0000 + n / 0x100_0000 % 256 * 0x100_0000
  {
    var n1, n2, n3 := n / 256, n / 0x1_0000, n / 0x100_0000;
    assert n2 == n1 / 256 && n3 == n2 / 256;
    LowByte(n, 0x100_0000);
    LowByte(n1, 0x1_0000);
    LowByte(n2, 0x100);
  }
}
