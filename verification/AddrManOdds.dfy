/** What decides which address Select_ returns: the odds of the two tables, the chance of an
    entry, and which of the entries hit is taken. */
module AddrManOdds {
  import opened Options
  import opened AddrManState
  import opened AddrManSelect

  // ----- the odds of the two tables -----

  /** The draws that lead to the tried table are to those that do not as its weight is to the
      weight of the "new" one. */
  lemma TriedOdds(root: nat -> real, nTried: nat, nNew: nat, nUnkBias: int, draw: nat)
    requires draw < 1073741824
    ensures UsesTried(root, nTried, nNew, nUnkBias, draw) <==>
      root(nNew) * nUnkBias as real * draw as real < root(nTried) * (100 - nUnkBias) as real * (1073741824 - draw) as real
  {
    assert (100 - nUnkBias) as real == 100.0 - nUnkBias as real;
    ShareIsOdds(root(nTried) * (100.0 - nUnkBias as real), root(nNew) * nUnkBias as real, draw as real, RANGE as real);
  }

  lemma ShareIsOdds(t: real, n: real, d: real, r: real)
    requires r > 0.0
    ensures (t + n) * d / r < t <==> n * d < t * (r - d)
  {
    var z := (t + n) * d / r;
    assert z * r == (t + n) * d == t * d + n * d;
    assert t * (r - d) == t * r - t * d;
    TimesOrder(z, t, r);
  }

  lemma TimesOrder(x: real, y: real, r: real)
    requires r > 0.0
    ensures x < y <==> x * r < y * r
  {
  }

  // ----- the chance of an entry -----

  /** Without failed attempts and a try in the last ten minutes: 600 to 600 more than the seconds
      since it was seen. */
  lemma ChanceBySeen(info: AddrInfo, nNow: int)
    requires info.nAttempts == 0 && nNow - info.nLastTry >= 600
    ensures Chance(info, nNow) * (600 + if nNow < info.nTime then 0 else nNow - info.nTime) as real == 600.0
  {
    ChanceParts(info, nNow);
    Divided(600.0, 600.0 + Since(nNow, info.nTime) as real);
    assert Pow15(0) == 1.0;
  }

  lemma ChanceParts(info: AddrInfo, nNow: int)
    ensures Chance(info, nNow)
      == 600.0 / (600.0 + Since(nNow, info.nTime) as real) * (if nNow - info.nLastTry < 600 then 0.01 else 1.0)
       / Pow15(if info.nAttempts < 0 then 0 else info.nAttempts)
  {
  }

  lemma Divided(x: real, y: real)
    requires y > 0.0
    ensures x / y * y == x
  {
  }

  /** A try in the last ten minutes divides the chance by a hundred. */
  lemma ChanceByTry(info: AddrInfo, earlier: int, recent: int, nNow: int)
    requires nNow - earlier >= 600 > nNow - recent
    ensures Chance(info.(nLastTry := earlier), nNow) == Chance(info.(nLastTry := recent), nNow) * 100.0
  {
    hide Chance, Pow15;
    ChanceParts(info.(nLastTry := earlier), nNow);
    ChanceParts(info.(nLastTry := recent), nNow);
    Hundredth(600.0 / (600.0 + Since(nNow, info.nTime) as real), Pow15(if info.nAttempts < 0 then 0 else info.nAttempts));
  }

  lemma Hundredth(x: real, p: real)
    requires p > 0.0
    ensures x * 1.0 / p == x * 0.01 / p * 100.0
  {
    var y, z := x / p, x * 0.01 / p;
    assert y * p == x && z * p == x * 0.01;
    assert (z * 100.0) * p == y * p;
    if y < z * 100.0 {
      TimesOrder(y, z * 100.0, p);
    } else if z * 100.0 < y {
      TimesOrder(z * 100.0, y, p);
    }
  }

  /** One more failed attempt divides it by one and a half. */
  lemma ChanceByAttempts(info: AddrInfo, nNow: int)
    requires info.nAttempts >= 0
    ensures Chance(info, nNow) == Chance(info.(nAttempts := info.nAttempts + 1), nNow) * 1.5
  {
    hide Chance;
    ChanceParts(info, nNow);
    ChanceParts(info.(nAttempts := info.nAttempts + 1), nNow);
    hide Pow15;
    var x := 600.0 / (600.0 + Since(nNow, info.nTime) as real) * (if nNow - info.nLastTry < 600 then 0.01 else 1.0);
    NextPow15(info.nAttempts);
    DivideOnce(x, Pow15(info.nAttempts));
    Divided(x / Pow15(info.nAttempts), 1.5);
  }

  lemma NextPow15(n: nat)
    ensures Pow15(n + 1) == 1.5 * Pow15(n)
  {
  }

  /** The longer an entry has not been seen, the smaller its chance, if anything. */
  lemma ChanceShrinks(info: AddrInfo, earlier: uint32, nNow: int)
    requires earlier <= info.nTime
    ensures Chance(info.(nTime := earlier), nNow) <= Chance(info, nNow)
  {
    hide Chance, Pow15;
    ChanceParts(info, nNow);
    ChanceParts(info.(nTime := earlier), nNow);
    var f := if nNow - info.nLastTry < 600 then 0.01 else 1.0;
    var p := Pow15(if info.nAttempts < 0 then 0 else info.nAttempts);
    var x, y := 600.0 + Since(nNow, info.nTime) as real, 600.0 + Since(nNow, earlier) as real;
    SmallerQuotient(600.0, x, y);
    QuotientOrder(600.0 / y, 600.0 / x, f, p);
  }

  lemma SmallerQuotient(a: real, x: real, y: real)
    requires a > 0.0 && 0.0 < x <= y
    ensures a / y <= a / x
  {
    var u, v := a / y, a / x;
    assert u * y == a && v * x == a && u > 0.0;
    assert u * x <= u * y;
    if v < u {
      TimesOrder(v, u, x);
    }
  }

  lemma QuotientOrder(a: real, b: real, f: real, p: real)
    requires a <= b && f > 0.0 && p > 0.0
    ensures a * f / p <= b * f / p
  {
    assert a * f <= b * f;
    var u, v := a * f / p, b * f / p;
    assert u * p == a * f && v * p == b * f;
    if v < u {
      TimesOrder(v, u, p);
    }
  }

  // ----- which entry is taken -----

  /** Every entry of a table is hit by the probe with its bucket and position. */
  lemma EveryEntryIsHit(table: seq<seq<Id>>, b: nat, i: nat, accept: nat)
    requires b < |table| && i < |table[b]|
    ensures Probed(table, Probe(b, i, accept)) == Some(table[b][i])
  {
    InRange(b, |table|);
    InRange(i, |table[b]|);
  }

  function Power(x: real, n: nat): real {
    if n == 0 then 1.0 else Power(x, n - 1) * x
  }

  /** Probe `i` hits an entry and its last draw accepts it, at 1.2 times the chance for every
      entry hit before, `n` of them before the first probe. */
  predicate AcceptedAt(table: seq<seq<Id>>, mi: map<Id, AddrInfo>, nNow: int, probes: seq<Probe>, n: nat, i: nat)
    requires TableKnown(table, mi) && i < |probes|
  {
    match Probed(table, probes[i])
    case None => false
    case Some(id) =>
      (probes[i].accept % 1073741824) as real < Power(1.2, n + Hits(table, probes[..i])) * Chance(mi[id], nNow) * 1073741824.0
  }

  lemma {:induction false} GrownIsPower(n: nat)
    ensures Grown(n) == Power(1.2, n)
  {
    if n > 0 {
      GrownIsPower(n - 1);
    }
  }

  lemma FirstProbe(table: seq<seq<Id>>, mi: map<Id, AddrInfo>, nNow: int, probes: seq<Probe>, n: nat)
    requires TableKnown(table, mi) && probes != []
    ensures AcceptedAt(table, mi, nNow, probes, n, 0) <==>
      Probed(table, probes[0]).Some? && Accepts(mi[Probed(table, probes[0]).value], nNow, Grown(n), probes[0])
  {
    hide Chance, Grown, Power, Probed;
    GrownIsPower(n);
    assert probes[..0] == [];
  }

  lemma LaterProbe(table: seq<seq<Id>>, mi: map<Id, AddrInfo>, nNow: int, probes: seq<Probe>, n: nat, i: nat)
    requires TableKnown(table, mi) && 0 < i < |probes|
    ensures var k := if Probed(table, probes[0]).Some? then n + 1 else n;
      AcceptedAt(table, mi, nNow, probes, n, i) <==> AcceptedAt(table, mi, nNow, probes[1..], k, i - 1)
  {
    hide Chance, Power, Probed;
    assert probes[..i][0] == probes[0] && probes[..i][1..] == probes[1..][..i - 1];
  }

  /** Of the probes that hit an entry the first that accepts it decides; without one nothing is
      taken. */
  lemma {:induction false} TakenMeans(table: seq<seq<Id>>, mi: map<Id, AddrInfo>, nNow: int, probes: seq<Probe>, n: nat)
    returns (i: nat)
    requires TableKnown(table, mi)
    ensures i <= |probes| && forall j: nat :: j < i ==> !AcceptedAt(table, mi, nNow, probes, n, j)
    ensures var taken := Taken(table, mi, nNow, probes, n);
      if i == |probes| then taken == None
      else AcceptedAt(table, mi, nNow, probes, n, i) && taken == Probed(table, probes[i])
    decreases |probes|
  {
    hide AcceptedAt, Accepts, Grown, Probed;
    i := 0;
    if probes != [] {
      FirstProbe(table, mi, nNow, probes, n);
      if !AcceptedAt(table, mi, nNow, probes, n, 0) {
        var k := if Probed(table, probes[0]).Some? then n + 1 else n;
        var rest := TakenMeans(table, mi, nNow, probes[1..], k);
        forall j: nat | 0 < j < |probes|
          ensures AcceptedAt(table, mi, nNow, probes, n, j) <==> AcceptedAt(table, mi, nNow, probes[1..], k, j - 1)
        {
          LaterProbe(table, mi, nNow, probes, n, j);
        }
        i := rest + 1;
      }
    }
  }
}
