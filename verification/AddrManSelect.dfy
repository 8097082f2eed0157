/** Choosing an address to connect to: which table is used, and why the loop that
    probes it comes to an end. */
module AddrManSelect {
  import opened Options
  import opened SortedSets
  import opened AddrManState
  import opened AddrManInv
  import opened AddrManTried

  const RANGE := 0x4000_0000 // 1 << 30

  // ----- which table -----

  /** A square root, as far as Select_ relies on it. */
  ghost predicate IsRoot(root: nat -> real) {
    root(0) == 0.0 && forall n :: n > 0 ==> root(n) > 0.0
  }

  /** Whether a draw makes Select_ use the tried table. */
  function UsesTried(root: nat -> real, nTried: nat, nNew: nat, nUnkBias: int, draw: nat): bool {
    var nCorTried := root(nTried) * (100.0 - nUnkBias as real);
    var nCorNew := root(nNew) * nUnkBias as real;
    (nCorTried + nCorNew) * draw as real / RANGE as real < nCorTried
  }

  /** The table the draw leads to is not empty. */
  ghost predicate LeadsSomewhere(root: nat -> real, nTried: nat, nNew: nat, nUnkBias: int, draw: nat) {
    if UsesTried(root, nTried, nNew, nUnkBias, draw) then nTried > 0 else nNew > 0
  }

  lemma ScaleBelow(x: real, draw: nat)
    requires x > 0.0 && draw < RANGE
    ensures x * draw as real / RANGE as real < x
  {
    LessTimes(x, draw as real, RANGE as real);
    QuotientBelow(x * draw as real, RANGE as real, x);
  }

  lemma LessTimes(x: real, a: real, b: real)
    requires x > 0.0 && a < b
    ensures x * a < x * b
  {
    assert x * (b - a) > 0.0;
  }

  lemma QuotientBelow(a: real, r: real, x: real)
    requires r > 0.0 && a < x * r
    ensures a / r < x
  {
    var z := a / r;
    assert z * r == a;
    if z >= x {
      LessOrEqualTimes(x, z, r);
    }
  }

  lemma LessOrEqualTimes(x: real, z: real, r: real)
    requires r > 0.0 && x <= z
    ensures x * r <= z * r
  {
  }

  lemma ScaleNonNegative(x: real, draw: nat)
    requires x >= 0.0
    ensures x * draw as real / RANGE as real >= 0.0
  {
  }

  lemma Products(a: real, b: real)
    requires a >= 0.0 && b >= 0.0
    ensures a * b >= 0.0 && (a * b > 0.0 <==> a > 0.0 && b > 0.0)
  {
    if a > 0.0 && b > 0.0 {
      assert a * b > 0.0;
    }
  }

  /** Every draw leads to a table with entries, except that a bias of 100 sends every
      draw to the "new" table, which may be empty: then the loop below never ends. */
  lemma SelectLeadsSomewhere(root: nat -> real, nTried: nat, nNew: nat, nUnkBias: int)
    requires IsRoot(root) && 0 <= nUnkBias <= 100 && nTried + nNew > 0
    ensures (forall draw: nat :: draw < RANGE ==> LeadsSomewhere(root, nTried, nNew, nUnkBias, draw))
       <==> nUnkBias < 100 || nNew > 0
  {
    var t, b := root(nTried), 100.0 - nUnkBias as real;
    var nCorTried := t * b;
    var nCorNew := root(nNew) * nUnkBias as real;
    Products(t, b);
    Products(root(nNew), nUnkBias as real);
    if nUnkBias < 100 || nNew > 0 {
      forall draw: nat | draw < RANGE ensures LeadsSomewhere(root, nTried, nNew, nUnkBias, draw) {
        ScaleNonNegative(nCorTried + nCorNew, draw);
        if nNew == 0 {
          ScaleBelow(nCorTried, draw);
        }
      }
    } else {
      ScaleNonNegative(nCorTried + nCorNew, 0);
      assert !LeadsSomewhere(root, nTried, nNew, nUnkBias, 0);
    }
  }

  // ----- how likely an entry is taken -----

  function Pow15(n: nat): (p: real)
    ensures p >= 1.0
  {
    if n == 0 then 1.0 else 1.5 * Pow15(n - 1)
  }

  function Since(nNow: int, t: int): nat {
    if nNow - t < 0 then 0 else nNow - t
  }

  /** GetChance in closed form. */
  function Chance(info: AddrInfo, nNow: int): (c: real)
    ensures 0.0 < c <= 1.0
  {
    var c0 := 600.0 / (600.0 + Since(nNow, info.nTime) as real);
    var c1 := if Since(nNow, info.nLastTry) < 60 * 10 then c0 * 0.01 else c0;
    DividedStays(c1, Pow15(if info.nAttempts < 0 then 0 else info.nAttempts));
    c1 / Pow15(if info.nAttempts < 0 then 0 else info.nAttempts)
  }

  lemma DividedStays(x: real, p: real)
    requires 0.0 < x <= 1.0 && p >= 1.0
    ensures 0.0 < x / p <= 1.0
  {
  }

  lemma DivideOnce(x: real, p: real)
    requires p >= 1.0
    ensures x / p / 1.5 == x / (1.5 * p)
  {
  }

  method GetChance(info: AddrInfo, nNow: int) returns (fChance: real)
    ensures fChance == Chance(info, nNow)
  {
    fChance := 1.0;
    var nSinceLastSeen := nNow - info.nTime;
    var nSinceLastTry := nNow - info.nLastTry;
    if nSinceLastSeen < 0 { nSinceLastSeen := 0; }
    if nSinceLastTry < 0 { nSinceLastTry := 0; }
    fChance := fChance * (600.0 / (600.0 + nSinceLastSeen as real));
    if nSinceLastTry < 60 * 10 {
      fChance := fChance * 0.01;
    }
    ghost var start := fChance;
    var n := 0;
    while n < info.nAttempts
      invariant 0 <= n && (info.nAttempts >= 0 ==> n <= info.nAttempts) && (info.nAttempts < 0 ==> n == 0)
      invariant fChance == start / Pow15(n)
    {
      DivideOnce(start, Pow15(n));
      fChance := fChance / 1.5;
      n := n + 1;
    }
  }

  // ----- the probing loop -----

  /** The three draws of one round. */
  datatype Probe = Probe(bucket: nat, pos: nat, accept: nat)

  /** The entry a probe falls on, if its bucket has any. */
  function Probed(table: seq<seq<Id>>, p: Probe): (r: Option<Id>)
    requires table != []
    ensures r.Some? ==> exists b :: 0 <= b < |table| && r.value in table[b]
  {
    var bucket := table[GetRandInt(p.bucket, |table|)];
    if bucket == [] then None else
    assert bucket[GetRandInt(p.pos, |bucket|)] in bucket;
    Some(bucket[GetRandInt(p.pos, |bucket|)])
  }

  predicate Below(draw: int, fChanceFactor: real, fChance: real) {
    draw as real < fChanceFactor * fChance * RANGE as real
  }

  predicate Accepts(info: AddrInfo, nNow: int, fChanceFactor: real, p: Probe) {
    Below(GetRandInt(p.accept, RANGE), fChanceFactor, Chance(info, nNow))
  }

  /** The entries of the table, all with a record. */
  ghost predicate TableKnown(table: seq<seq<Id>>, mi: map<Id, AddrInfo>) {
    table != [] && forall b :: 0 <= b < |table| ==> forall id :: id in table[b] ==> id in mi
  }

  ghost predicate Hittable(table: seq<seq<Id>>) {
    table != [] && exists p :: Probed(table, p).Some?
  }

  /** How many of the probes fall on an entry. */
  function Hits(table: seq<seq<Id>>, probes: seq<Probe>): (n: nat)
    requires table != []
    ensures n <= |probes|
    decreases |probes|
  {
    if probes == [] then 0
    else (if Probed(table, probes[0]).Some? then 1 else 0) + Hits(table, probes[1..])
  }

  function Grown(n: nat): (f: real)
  {
    if n == 0 then 1.0 else Grown(n - 1) * 1.2
  }

  lemma {:induction false} GrownBound(n: nat)
    ensures Grown(n) >= 1.0 + n as real / 5.0
  {
    if n > 0 {
      GrownBound(n - 1);
    }
  }

  /** What the factor has grown to, at least, after `n` rejections, times a chance `c`. */
  function Pull(n: nat, c: real): real {
    (1.0 + n as real / 5.0) * c
  }

  lemma BelowOne(draw: int, y: real)
    requires draw < RANGE && !(draw as real < y * RANGE as real)
    ensures y < 1.0
  {
  }

  /** A rejection at factor `f` shows that the factor times the chance is still below one. */
  lemma RejectionBound(info: AddrInfo, nNow: int, n: nat, c: real, p: Probe)
    requires !Accepts(info, nNow, Grown(n), p) && c <= Chance(info, nNow) && c > 0.0
    ensures Pull(n, c) < 1.0
  {
    hide Chance, GetRandInt;
    GrownBound(n);
    hide Grown;
    var f, x := Grown(n), Chance(info, nNow);
    BelowOne(GetRandInt(p.accept, RANGE), f * x);
    MonotoneProduct(1.0 + n as real / 5.0, f, c, x);
  }

  lemma MonotoneProduct(a: real, f: real, c: real, x: real)
    requires 0.0 <= a <= f && 0.0 < c <= x
    ensures a * c <= f * x
  {
    assert a * c <= f * c;
    assert f * c <= f * x;
  }

  /** The entry that these probes settle on, after `n` have been rejected. */
  function Taken(table: seq<seq<Id>>, mi: map<Id, AddrInfo>, nNow: int, probes: seq<Probe>, n: nat): (r: Option<Id>)
    requires TableKnown(table, mi)
    ensures r.Some? ==> exists b :: 0 <= b < |table| && r.value in table[b]
    decreases |probes|
  {
    if probes == [] then None else
    match Probed(table, probes[0])
    case None => Taken(table, mi, nNow, probes[1..], n)
    case Some(id) =>
      if Accepts(mi[id], nNow, Grown(n), probes[0]) then Some(id) else Taken(table, mi, nNow, probes[1..], n + 1)
  }

  ghost predicate ChanceAtLeast(table: seq<seq<Id>>, mi: map<Id, AddrInfo>, nNow: int, c: real)
    requires TableKnown(table, mi)
  {
    c > 0.0 && forall b :: 0 <= b < |table| ==> forall id :: id in table[b] ==> c <= Chance(mi[id], nNow)
  }

  /** Probes that settle on nothing have rejected every entry they hit, and that can only
      happen so often, whatever smallest chance there is. */
  lemma {:induction false} RejectionsBounded(table: seq<seq<Id>>, mi: map<Id, AddrInfo>, nNow: int, probes: seq<Probe>, n: nat, c: real)
    requires TableKnown(table, mi) && ChanceAtLeast(table, mi, nNow, c)
    requires Taken(table, mi, nNow, probes, n).None? && Hits(table, probes) > 0
    ensures Pull(n + Hits(table, probes) - 1, c) < 1.0
    decreases |probes|
  {
    hide GetRandInt, Chance, Accepts, Pull, Grown;
    var entry := Probed(table, probes[0]);
    if entry.None? {
      RejectionsBounded(table, mi, nNow, probes[1..], n, c);
    } else {
      RejectionBound(mi[entry.value], nNow, n, c, probes[0]);
      if Hits(table, probes[1..]) > 0 {
        RejectionsBounded(table, mi, nNow, probes[1..], n + 1, c);
      }
    }
  }

  /** The loop of Select_ over one table, on the draws it is given. */
  method SelectFrom(table: seq<seq<Id>>, mi: map<Id, AddrInfo>, nNow: int, probes: seq<Probe>) returns (r: Option<Id>)
    requires TableKnown(table, mi)
    ensures r == Taken(table, mi, nNow, probes, 0)
  {
    hide GetRandInt, Chance, Below, Taken, Grown;
    ghost var n := 0;
    var fChanceFactor := 1.0;
    var i := 0;
    NotGrown();
    assert probes[0..] == probes;
    while i < |probes|
      invariant 0 <= i <= |probes| && fChanceFactor == Grown(n)
      invariant Taken(table, mi, nNow, probes[i..], n) == Taken(table, mi, nNow, probes, 0)
    {
      NextProbe(table, mi, nNow, probes, i, n);
      var entry := Probed(table, probes[i]);
      if entry.Some? {
        var fChance := GetChance(mi[entry.value], nNow);
        if Below(GetRandInt(probes[i].accept, RANGE), fChanceFactor, fChance) {
          return entry;
        }
        fChanceFactor := fChanceFactor * 1.2;
        n := n + 1;
      }
      i := i + 1;
    }
    NoProbes(table, mi, nNow, probes[i..], n);
    return None;
  }

  lemma NotGrown()
    ensures Grown(0) == 1.0
  {
  }

  lemma NoProbes(table: seq<seq<Id>>, mi: map<Id, AddrInfo>, nNow: int, probes: seq<Probe>, n: nat)
    requires TableKnown(table, mi) && probes == []
    ensures Taken(table, mi, nNow, probes, n) == None
  {
  }

  lemma NextProbe(table: seq<seq<Id>>, mi: map<Id, AddrInfo>, nNow: int, probes: seq<Probe>, i: nat, n: nat)
    requires TableKnown(table, mi) && i < |probes|
    ensures Grown(n + 1) == Grown(n) * 1.2
    ensures Taken(table, mi, nNow, probes[i..], n) == match Probed(table, probes[i])
      case None => Taken(table, mi, nNow, probes[i + 1..], n)
      case Some(id) =>
        if Accepts(mi[id], nNow, Grown(n), probes[i]) then Some(id) else Taken(table, mi, nNow, probes[i + 1..], n + 1)
  {
    hide Accepts, Probed;
    assert probes[i..][0] == probes[i] && probes[i..][1..] == probes[i + 1..];
  }

  /** A table with entries has a smallest chance, and it is positive. */
  lemma {:induction false} SmallestChance(ids: seq<Id>, mi: map<Id, AddrInfo>, nNow: int) returns (c: real)
    requires forall id :: id in ids ==> id in mi
    ensures c > 0.0 && forall id :: id in ids ==> c <= Chance(mi[id], nNow)
  {
    hide Chance;
    if ids == [] {
      c := 1.0;
    } else {
      var n := |ids| - 1;
      var x := Chance(mi[ids[n]], nNow);
      c := SmallestChance(ids[..n], mi, nNow);
      if x < c {
        c := x;
      }
      forall id | id in ids ensures c <= Chance(mi[id], nNow) {
        assert id in ids[..n] || id == ids[n];
      }
    }
  }

  /** With enough hits the loop cannot come back without an entry. */
  lemma EnoughHits(c: real) returns (n: nat)
    requires c > 0.0
    ensures forall k: nat :: k >= n ==> Pull(k, c) >= 1.0
  {
    n := (5.0 / c).Floor + 1;
    PullAt(n, c);
    forall k: nat | k >= n ensures Pull(k, c) >= 1.0 {
      MonotoneProduct(1.0 + n as real / 5.0, 1.0 + k as real / 5.0, c, c);
    }
  }

  lemma PullAt(n: nat, c: real)
    requires c > 0.0 && n as real >= 5.0 / c
    ensures Pull(n, c) >= 1.0
  {
    assert 5.0 / c * c == 5.0;
    MonotoneProduct(5.0 / c, n as real, c, c);
    assert (1.0 + n as real / 5.0) * c == c + n as real * c / 5.0;
  }

  /** The "new" table in the order in which its buckets are walked. */
  function NewTable(vvNew: seq<set<Id>>): (table: seq<seq<Id>>)
    ensures |table| == |vvNew| && forall b :: 0 <= b < |vvNew| ==> table[b] == Sorted(vvNew[b])
  {
    seq(|vvNew|, b requires 0 <= b < |vvNew| => Sorted(vvNew[b]))
  }

  lemma TablesKnown(env: Env, s: State)
    requires Inv(env, s)
    ensures TableKnown(s.vvTried, s.mapInfo) && TableKnown(NewTable(s.vvNew), s.mapInfo)
    ensures s.nTried >= 0 && s.nNew >= 0
    ensures forall b :: 0 <= b < |s.vvTried| ==> forall id :: id in s.vvTried[b] ==> s.mapInfo[id].fInTried
    ensures forall b :: 0 <= b < |s.vvNew| ==> forall id :: id in Sorted(s.vvNew[b]) ==> id in s.mapInfo && !s.mapInfo[id].fInTried
  {
    hide Inv, Tables, RandOk, AddrOk, IdsOk, RefOk, NewOk, TriedOk, NoDup, Ascending;
    Parts(env, s);
    forall b | 0 <= b < |s.vvTried|
      ensures forall id :: id in s.vvTried[b] ==> id in s.mapInfo && s.mapInfo[id].fInTried
    {
      BucketTried(env, s, b);
    }
    forall b, id | 0 <= b < |s.vvNew| && id in s.vvNew[b] ensures id in s.mapInfo && !s.mapInfo[id].fInTried {
      NewTriedApart(env, s, b, id, NOBODY);
    }
  }

  /** A table that is counted as non-empty has a bucket with an entry for the probes to hit. */
  lemma CountedMeansHittable(env: Env, s: State)
    requires Inv(env, s)
    ensures s.nTried > 0 ==> exists b :: 0 <= b < |s.vvTried| && s.vvTried[b] != []
    ensures s.nNew > 0 ==> exists b :: 0 <= b < |s.vvNew| && s.vvNew[b] != {}
  {
    hide AddrOk, RandOk;
    if s.nTried > 0 {
      var id := Pick(TriedIds(s.mapInfo));
      assert id in s.vvTried[TriedBucket(env, s.nKey, s.mapInfo[id].service)];
    }
    if s.nNew > 0 {
      var id := Pick(NewIds(s.mapInfo));
      CountZero(s.vvNew, id);
    }
  }

  /** The table a draw leads to. */
  function ChosenTable(s: State, root: nat -> real, nUnkBias: int, draw: nat): seq<seq<Id>>
    requires s.nTried >= 0 && s.nNew >= 0
  {
    if UsesTried(root, s.nTried, s.nNew, nUnkBias, draw) then s.vvTried else NewTable(s.vvNew)
  }

  /** What Select_ returns on these draws, if anything. */
  function Selected(env: Env, s: State, root: nat -> real, nUnkBias: int, draw: nat, nNow: int, probes: seq<Probe>): Option<AddrInfo>
    requires Inv(env, s)
  {
    hide Inv, Taken;
    TablesKnown(env, s);
    if |s.vRandom| == 0 then None else
    match Taken(ChosenTable(s, root, nUnkBias, draw), s.mapInfo, nNow, probes, 0)
    case None => None
    case Some(id) => Some(s.mapInfo[id])
  }

  /** A record that is selected is a known one, tried or not as the draw has it. */
  lemma SelectedIsKnown(env: Env, s: State, root: nat -> real, nUnkBias: int, draw: nat, nNow: int, probes: seq<Probe>)
    requires Inv(env, s)
    ensures s.nTried >= 0 && s.nNew >= 0
    ensures var r := Selected(env, s, root, nUnkBias, draw, nNow, probes);
      r.Some? ==> r.value in s.mapInfo.Values && r.value.fInTried == UsesTried(root, s.nTried, s.nNew, nUnkBias, draw)
  {
    hide Inv, Taken, UsesTried;
    TablesKnown(env, s);
  }

  /** Whichever table is chosen, a probe can hit it, and enough hits make Select_ return:
      one number of hits does for all draws. */
  lemma SelectReturns(env: Env, s: State, root: nat -> real, nUnkBias: int, nNow: int) returns (n: nat)
    requires Inv(env, s) && |s.vRandom| > 0 && IsRoot(root) && 0 <= nUnkBias <= 100 && (nUnkBias < 100 || s.nNew > 0)
    ensures s.nTried >= 0 && s.nNew >= 0 && s.vvTried != [] && s.vvNew != []
    ensures forall draw: nat :: draw < RANGE ==> Hittable(ChosenTable(s, root, nUnkBias, draw))
    ensures forall draw: nat, probes :: draw < RANGE && Hits(ChosenTable(s, root, nUnkBias, draw), probes) >= n ==>
      Selected(env, s, root, nUnkBias, draw, nNow, probes).Some?
  {
    hide Inv, Chance, Taken, Hits, Pull, UsesTried, IsRoot, Probed;
    TablesKnown(env, s);
    NonEmptyTally(env, s);
    var ids := Sorted(s.mapInfo.Keys);
    var c := SmallestChance(ids, s.mapInfo, nNow);
    n := EnoughHits(c);
    n := n + 1;
    forall draw: nat | draw < RANGE ensures Hittable(ChosenTable(s, root, nUnkBias, draw)) {
      var p := ProbeThatHits(env, s, root, nUnkBias, draw);
    }
    forall draw: nat, probes | draw < RANGE && Hits(ChosenTable(s, root, nUnkBias, draw), probes) >= n
      ensures Selected(env, s, root, nUnkBias, draw, nNow, probes).Some?
    {
      var table := ChosenTable(s, root, nUnkBias, draw);
      if Taken(table, s.mapInfo, nNow, probes, 0).None? {
        assert ChanceAtLeast(table, s.mapInfo, nNow, c);
        RejectionsBounded(table, s.mapInfo, nNow, probes, 0, c);
      }
    }
  }

  lemma NonEmptyTally(env: Env, s: State)
    requires Inv(env, s)
    ensures |s.vRandom| > 0 ==> s.nTried + s.nNew > 0
  {
    if |s.vRandom| > 0 {
      var id := s.vRandom[0];
      assert id in TriedIds(s.mapInfo) || id in NewIds(s.mapInfo);
    }
  }

  lemma ProbeThatHits(env: Env, s: State, root: nat -> real, nUnkBias: int, draw: nat) returns (p: Probe)
    requires Inv(env, s) && |s.vRandom| > 0 && IsRoot(root) && draw < RANGE
    requires 0 <= nUnkBias <= 100 && (nUnkBias < 100 || s.nNew > 0)
    ensures s.nTried >= 0 && s.nNew >= 0 && s.vvTried != [] && s.vvNew != []
    ensures Probed(ChosenTable(s, root, nUnkBias, draw), p).Some?
  {
    hide Inv, UsesTried, IsRoot;
    TablesKnown(env, s);
    NonEmptyTally(env, s);
    SelectLeadsSomewhere(root, s.nTried, s.nNew, nUnkBias);
    CountedMeansHittable(env, s);
    var table := ChosenTable(s, root, nUnkBias, draw);
    assert LeadsSomewhere(root, s.nTried, s.nNew, nUnkBias, draw);
    var b :| 0 <= b < |table| && table[b] != [];
    InRange(b, |table|);
    p := Probe(b, 0, 0);
  }

  lemma {:induction false} NothingTaken(table: seq<seq<Id>>, mi: map<Id, AddrInfo>, nNow: int, probes: seq<Probe>, n: nat)
    requires TableKnown(table, mi) && forall b :: 0 <= b < |table| ==> table[b] == []
    ensures Taken(table, mi, nNow, probes, n) == None && Hits(table, probes) == 0
    decreases |probes|
  {
    hide Accepts, Grown, GetRandInt;
    if probes != [] {
      NothingTaken(table, mi, nNow, probes[1..], n);
    }
  }

  /** With a bias of 100 and no "new" entries no probes ever hit anything, whatever the draw. */
  lemma NeverSelected(env: Env, s: State, root: nat -> real, draw: nat, nNow: int, probes: seq<Probe>)
    requires Inv(env, s) && IsRoot(root) && s.nNew == 0
    ensures s.nTried >= 0 && s.vvNew != []
    ensures Hits(ChosenTable(s, root, 100, draw), probes) == 0
    ensures Selected(env, s, root, 100, draw, nNow, probes) == None
  {
    hide Inv, Taken, IsRoot, Hits;
    TablesKnown(env, s);
    NoneNew(env, s);
    FullBiasUsesNew(root, s.nTried, s.nNew, draw);
    NothingTaken(NewTable(s.vvNew), s.mapInfo, nNow, probes, 0);
  }

  lemma NoneNew(env: Env, s: State)
    requires Inv(env, s) && s.nNew == 0
    ensures forall b :: 0 <= b < |s.vvNew| ==> Sorted(s.vvNew[b]) == []
  {
    hide Inv, Sorted;
    forall b | 0 <= b < |s.vvNew| ensures Sorted(s.vvNew[b]) == [] {
      if s.vvNew[b] != {} {
        FilledIsCounted(env, s, b);
      }
    }
  }

  lemma FilledIsCounted(env: Env, s: State, b: int)
    requires Inv(env, s) && 0 <= b < |s.vvNew| && s.vvNew[b] != {}
    ensures s.nNew > 0
  {
    hide RandOk, AddrOk, TriedOk;
    var id := Pick(s.vvNew[b]);
    NewTriedApart(env, s, b, id, NOBODY);
    assert id in NewIds(s.mapInfo);
  }

  lemma FullBiasUsesNew(root: nat -> real, nTried: nat, nNew: nat, draw: nat)
    requires IsRoot(root)
    ensures !UsesTried(root, nTried, nNew, 100, draw)
  {
    Products(root(nNew), 100.0);
    ScaleNonNegative(root(nNew) * 100.0, draw);
  }

  lemma NeverEnough(env: Env, s: State, root: nat -> real, nNow: int, n: nat)
    requires Inv(env, s) && IsRoot(root) && s.nNew == 0
    ensures !Enough(env, s, root, 100, nNow, n)
  {
    hide Inv, IsRoot, Hits, Selected, ChosenTable;
    TablesKnown(env, s);
    NeverSelected(env, s, root, 0, nNow, []);
    var table := ChosenTable(s, root, 100, 0);
    forall p | table != [] ensures Probed(table, p) == None {
      NeverSelected(env, s, root, 0, nNow, [p]);
      HitsOne(table, p);
    }
    assert !EnoughFor(env, s, root, 100, 0, nNow, n);
  }

  lemma HitsOne(table: seq<seq<Id>>, p: Probe)
    requires table != []
    ensures Hits(table, [p]) == if Probed(table, p).Some? then 1 else 0
  {
    hide Probed;
    assert [p][1..] == [];
  }

  /** Some number of hits is enough for every draw: exactly if the
      bias is below 100 or there are "new" entries. */
  lemma SelectReturnsExactly(env: Env, s: State, root: nat -> real, nUnkBias: int, nNow: int)
    requires Inv(env, s) && |s.vRandom| > 0 && IsRoot(root) && 0 <= nUnkBias <= 100
    ensures (exists n: nat :: Enough(env, s, root, nUnkBias, nNow, n)) <==> nUnkBias < 100 || s.nNew > 0
  {
    hide Inv, IsRoot, Selected, Hits, Hittable;
    TablesKnown(env, s);
    if nUnkBias < 100 || s.nNew > 0 {
      var n := SelectReturns(env, s, root, nUnkBias, nNow);
      assert Enough(env, s, root, nUnkBias, nNow, n);
    } else {
      forall n: nat ensures !Enough(env, s, root, nUnkBias, nNow, n) {
        NeverEnough(env, s, root, nNow, n);
      }
    }
  }

  /** The table this draw leads to can be hit, and all probes with `n` hits or more select a record. */
  ghost predicate EnoughFor(env: Env, s: State, root: nat -> real, nUnkBias: int, draw: nat, nNow: int, n: nat)
    requires Inv(env, s)
  {
    hide Inv;
    TablesKnown(env, s);
    var table := ChosenTable(s, root, nUnkBias, draw);
    && Hittable(table)
    && forall probes :: Hits(table, probes) >= n ==> Selected(env, s, root, nUnkBias, draw, nNow, probes).Some?
  }

  ghost predicate Enough(env: Env, s: State, root: nat -> real, nUnkBias: int, nNow: int, n: nat)
    requires Inv(env, s)
  {
    forall draw: nat :: draw < RANGE ==> EnoughFor(env, s, root, nUnkBias, draw, nNow, n)
  }

  lemma InRange(b: nat, n: nat)
    requires b < n
    ensures GetRandInt(b, n) == b
  {
  }

  method Select(env: Env, s: State, root: nat -> real, nUnkBias: int, draw: nat, nNow: int, probes: seq<Probe>)
    returns (r: Option<AddrInfo>)
    requires Inv(env, s)
    ensures r == Selected(env, s, root, nUnkBias, draw, nNow, probes)
  {
    hide Inv, Taken, UsesTried, Sorted;
    TablesKnown(env, s);
    if |s.vRandom| == 0 {
      return None;
    }
    var nId;
    if UsesTried(root, s.nTried, s.nNew, nUnkBias, draw) {
      nId := SelectFrom(s.vvTried, s.mapInfo, nNow, probes);
    } else {
      nId := SelectFrom(NewTable(s.vvNew), s.mapInfo, nNow, probes);
    }
    if nId.None? {
      return None;
    }
    return Some(s.mapInfo[nId.value]);
  }
}
