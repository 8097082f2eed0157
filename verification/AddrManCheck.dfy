/** Check_: the consistency check of debug builds, what it accepts, and its
    relation to the invariant. */
module AddrManCheck {
  import opened SortedSets
  import opened AddrManState
  import opened AddrManInv
  import opened AddrManTried
  import opened AddrManPersist

  /** How often `id` occurs in the tried buckets. */
  ghost function Occurrences(vv: seq<seq<Id>>, id: Id): nat {
    if vv == [] then 0
    else Occurrences(vv[..|vv| - 1], id) + multiset(vv[|vv| - 1])[id]
  }

  /** `mapAddr[addr]` in C++: a missing address reads as 0. */
  function Lookup(ma: map<NetAddr, Id>, addr: NetAddr): Id {
    if addr in ma then ma[addr] else 0
  }

  /** What is asked of each record. */
  predicate RecordOk(s: State, n: Id)
    requires n in s.mapInfo
  {
    var info := s.mapInfo[n];
    && (if info.fInTried then info.nLastSuccess != 0 && info.nRefCount == 0
        else 0 < info.nRefCount <= NEW_BUCKETS_PER_ADDRESS)
    && Lookup(s.mapAddr, info.service.addr) == n
    && 0 <= info.nRandomPos < |s.vRandom| && s.vRandom[info.nRandomPos] == n
    && info.nLastTry >= 0 && info.nLastSuccess >= 0
  }

  ghost function TriedShare(s: State, id: Id): int {
    if id in s.mapInfo && s.mapInfo[id].fInTried then 1 else 0
  }

  ghost function NewShare(s: State, id: Id): int {
    if id in s.mapInfo && !s.mapInfo[id].fInTried then s.mapInfo[id].nRefCount else 0
  }

  /** The states that pass. */
  ghost predicate Consistent(s: State) {
    && |s.vRandom| == s.nTried + s.nNew
    && (forall n :: n in s.mapInfo ==> RecordOk(s, n))
    && |TriedIds(s.mapInfo)| == s.nTried
    && |NewIds(s.mapInfo)| == s.nNew
    && (forall id :: Occurrences(s.vvTried, id) == TriedShare(s, id))
    && (forall id :: Count(s.vvNew, id) == NewShare(s, id))
  }

  lemma {:induction false} OccurrencesPrefix(vv: seq<seq<Id>>, b: nat, id: Id)
    requires b < |vv|
    ensures Occurrences(vv[..b + 1], id) == Occurrences(vv[..b], id) + multiset(vv[b])[id]
    ensures Occurrences(vv[..b + 1], id) <= Occurrences(vv, id)
    decreases |vv|
  {
    assert vv[..b + 1][..b] == vv[..b];
    if b + 1 == |vv| {
      assert vv[..b + 1] == vv;
    } else {
      var ww := vv[..|vv| - 1];
      assert ww[..b + 1] == vv[..b + 1];
      OccurrencesPrefix(ww, b, id);
    }
  }

  lemma MultisetPrefix(v: seq<Id>, j: nat, id: Id)
    requires j < |v|
    ensures multiset(v[..j + 1])[id] == multiset(v[..j])[id] + if v[j] == id then 1 else 0
    ensures multiset(v[..j + 1])[id] <= multiset(v)[id]
  {
    assert v[..j + 1] == v[..j] + [v[j]];
    assert v == v[..j + 1] + v[j + 1..];
  }

  /** Strike the tried buckets off the set of tried ids. */
  method CheckTried(s: State, tried: set<Id>) returns (err: int)
    requires forall id :: id in tried <==> id in s.mapInfo && s.mapInfo[id].fInTried
    ensures err == 0 <==> forall id :: Occurrences(s.vvTried, id) == TriedShare(s, id)
  {
    hide Struck;
    var setTried := tried;
    var n := 0;
    NoneStruck(s, setTried);
    while n < |s.vvTried|
      invariant 0 <= n <= |s.vvTried| && Struck(s, s.vvTried[..n], [], setTried)
    {
      var vTried := s.vvTried[n];
      var j := 0;
      while j < |vTried|
        invariant 0 <= j <= |vTried| && Struck(s, s.vvTried[..n], vTried[..j], setTried)
      {
        var id := vTried[j];
        if id !in setTried {
          StruckTwice(s, n, j, setTried);
          return -11;
        }
        StrikeOne(s, s.vvTried[..n], vTried, j, setTried);
        setTried := setTried - {id};
        j := j + 1;
      }
      StruckBucket(s, n, setTried);
      n := n + 1;
    }
    AllStruck(s, setTried);
    if setTried != {} {
      return -13;
    }
    return 0;
  }

  /** The entries of the buckets `vv` and of `v` are struck off the tried ids, and `left` remain. */
  ghost predicate Struck(s: State, vv: seq<seq<Id>>, v: seq<Id>, left: set<Id>) {
    && (forall id :: Occurrences(vv, id) + multiset(v)[id] == TriedShare(s, id) - if id in left then 1 else 0)
    && (forall id :: id in left ==> TriedShare(s, id) == 1)
  }

  lemma NoneStruck(s: State, tried: set<Id>)
    requires forall id :: id in tried <==> id in s.mapInfo && s.mapInfo[id].fInTried
    ensures Struck(s, s.vvTried[..0], [], tried)
  {
  }

  lemma StrikeOne(s: State, vv: seq<seq<Id>>, v: seq<Id>, j: nat, left: set<Id>)
    requires j < |v| && v[j] in left && Struck(s, vv, v[..j], left)
    ensures Struck(s, vv, v[..j + 1], left - {v[j]})
  {
    hide TriedShare, Occurrences;
    forall x ensures multiset(v[..j + 1])[x] == multiset(v[..j])[x] + if v[j] == x then 1 else 0 {
      MultisetPrefix(v, j, x);
    }
  }

  lemma StruckTwice(s: State, n: nat, j: nat, left: set<Id>)
    requires n < |s.vvTried| && j < |s.vvTried[n]| && s.vvTried[n][j] !in left
    requires Struck(s, s.vvTried[..n], s.vvTried[n][..j], left)
    ensures var id := s.vvTried[n][j]; Occurrences(s.vvTried, id) > TriedShare(s, id)
  {
    var v := s.vvTried[n];
    MultisetPrefix(v, j, v[j]);
    OccurrencesPrefix(s.vvTried, n, v[j]);
  }

  lemma StruckBucket(s: State, n: nat, left: set<Id>)
    requires n < |s.vvTried| && Struck(s, s.vvTried[..n], s.vvTried[n][..|s.vvTried[n]|], left)
    ensures Struck(s, s.vvTried[..n + 1], [], left)
  {
    hide TriedShare, Occurrences;
    var v := s.vvTried[n];
    assert v[..|v|] == v;
    forall x ensures Occurrences(s.vvTried[..n + 1], x) == Occurrences(s.vvTried[..n], x) + multiset(v)[x] {
      OccurrencesPrefix(s.vvTried, n, x);
    }
  }

  lemma AllStruck(s: State, left: set<Id>)
    requires Struck(s, s.vvTried[..|s.vvTried|], [], left)
    ensures left == {} <==> forall id :: Occurrences(s.vvTried, id) == TriedShare(s, id)
  {
    hide TriedShare, Occurrences;
    assert s.vvTried[..|s.vvTried|] == s.vvTried;
    if left != {} {
      var id := Pick(left);
      assert Occurrences(s.vvTried, id) != TriedShare(s, id);
    }
  }

  /** What is left of the reference count of `id`. */
  function Left(mapNew: map<Id, int>, id: Id): int {
    if id in mapNew then mapNew[id] else 0
  }

  lemma PrefixMembers(ids: seq<Id>, j: nat)
    requires j < |ids| && Ascending(ids)
    ensures forall x :: x in ids[..j + 1] <==> x in ids[..j] || x == ids[j]
    ensures ids[j] !in ids[..j]
  {
    assert ids[..j + 1] == ids[..j] + [ids[j]];
  }

  /** Counts and remainders agree after the first `n` buckets. */
  ghost predicate NewStruck(s: State, mapNew: map<Id, int>, n: nat)
    requires n <= |s.vvNew|
  {
    && (forall id :: id in mapNew ==> mapNew[id] > 0)
    && (forall id :: Count(s.vvNew[..n], id) == NewShare(s, id) - Left(mapNew, id))
  }

  /** Strike the references of "new" bucket `n` off the remainders. */
  method StrikeBucket(s: State, mapNew: map<Id, int>, n: nat) returns (ok: bool, left: map<Id, int>)
    requires n < |s.vvNew| && NewStruck(s, mapNew, n)
    ensures ok ==> NewStruck(s, left, n + 1)
    ensures !ok ==> exists id :: Count(s.vvNew, id) != NewShare(s, id)
  {
    hide Count, NewShare, Sorted;
    left := mapNew;
    var vNew := Sorted(s.vvNew[n]);
    var j := 0;
    while j < |vNew|
      invariant 0 <= j <= |vNew|
      invariant forall id :: id in left ==> left[id] > 0
      invariant forall id :: Count(s.vvNew[..n], id) + (if id in vNew[..j] then 1 else 0)
                          == NewShare(s, id) - Left(left, id)
    {
      var id := vNew[j];
      PrefixMembers(vNew, j);
      if id !in left {
        CountPrefix(s.vvNew, n, id);
        assert id in vNew;
        assert Count(s.vvNew, id) > NewShare(s, id);
        return false, left;
      }
      left := left[id := left[id] - 1];
      if left[id] == 0 {
        left := left - {id};
      }
      j := j + 1;
    }
    assert vNew[..j] == vNew;
    forall x ensures Count(s.vvNew[..n + 1], x) == Count(s.vvNew[..n], x) + if x in vNew then 1 else 0 {
      CountPrefix(s.vvNew, n, x);
    }
    ok := true;
  }

  /** Strike the references of all "new" buckets off the reference counts. */
  method CheckNew(s: State, mapNew: map<Id, int>) returns (err: int)
    requires forall id :: id in mapNew <==> id in s.mapInfo && !s.mapInfo[id].fInTried
    requires forall id :: id in mapNew ==> mapNew[id] == s.mapInfo[id].nRefCount > 0
    ensures err == 0 <==> forall id :: Count(s.vvNew, id) == NewShare(s, id)
  {
    var left := mapNew;
    var n := 0;
    while n < |s.vvNew|
      invariant 0 <= n <= |s.vvNew|
      invariant NewStruck(s, left, n)
    {
      var ok;
      ok, left := StrikeBucket(s, left, n);
      if !ok {
        return -12;
      }
      n := n + 1;
    }
    assert s.vvNew[..n] == s.vvNew;
    if left != map[] {
      ghost var id := Pick(left.Keys);
      assert Count(s.vvNew, id) != NewShare(s, id);
      return -15;
    }
    return 0;
  }

  /** The checks on one record, in the order in which Check_ makes them. */
  method CheckRecord(s: State, n: Id) returns (err: int)
    requires n in s.mapInfo
    ensures err == 0 <==> RecordOk(s, n)
  {
    var info := s.mapInfo[n];
    if info.fInTried {
      if info.nLastSuccess == 0 { return -1; }
      if info.nRefCount != 0 { return -2; }
    } else {
      if info.nRefCount < 0 || info.nRefCount > NEW_BUCKETS_PER_ADDRESS { return -3; }
      if info.nRefCount == 0 { return -4; }
    }
    if Lookup(s.mapAddr, info.service.addr) != n { return -5; }
    if info.nRandomPos < 0 || info.nRandomPos >= |s.vRandom| || s.vRandom[info.nRandomPos] != n { return -14; }
    if info.nLastTry < 0 { return -6; }
    if info.nLastSuccess < 0 { return -8; }
    return 0;
  }

  lemma RecordRefs(s: State, n: Id)
    requires n in s.mapInfo && RecordOk(s, n)
    ensures !s.mapInfo[n].fInTried ==> s.mapInfo[n].nRefCount > 0
  {
  }

  /** The loop over the records, which also collects what the buckets have to account for. */
  method CheckRecords(s: State) returns (err: int, setTried: set<Id>, mapNew: map<Id, int>)
    ensures err == 0 <==> forall n :: n in s.mapInfo ==> RecordOk(s, n)
    ensures err == 0 ==> setTried == TriedIds(s.mapInfo) && mapNew.Keys == NewIds(s.mapInfo)
    ensures err == 0 ==> forall id :: id in mapNew ==> mapNew[id] == s.mapInfo[id].nRefCount > 0
  {
    hide Sorted, RecordOk, Ascending;
    setTried, mapNew := {}, map[];
    var ids := Sorted(s.mapInfo.Keys);
    var k := 0;
    while k < |ids|
      invariant 0 <= k <= |ids|
      invariant forall i :: 0 <= i < k ==> ids[i] in s.mapInfo && RecordOk(s, ids[i])
      invariant forall id :: id in setTried <==> id in ids[..k] && s.mapInfo[id].fInTried
      invariant forall id :: id in mapNew <==> id in ids[..k] && !s.mapInfo[id].fInTried
      invariant forall id :: id in mapNew ==> mapNew[id] == s.mapInfo[id].nRefCount > 0
    {
      var n := ids[k];
      assert n in ids;
      PrefixMembers(ids, k);
      err := CheckRecord(s, n);
      if err != 0 {
        return;
      }
      RecordRefs(s, n);
      if s.mapInfo[n].fInTried {
        setTried := setTried + {n};
      } else {
        mapNew := mapNew[n := s.mapInfo[n].nRefCount];
      }
      k := k + 1;
    }
    err := 0;
    assert ids[..k] == ids;
    forall n | n in s.mapInfo ensures RecordOk(s, n) {
      var i :| 0 <= i < |ids| && ids[i] == n;
    }
  }

  /** Check_ */
  method Check(s: State) returns (err: int)
    ensures err == 0 <==> Consistent(s)
  {
    if |s.vRandom| != s.nTried + s.nNew {
      return -7;
    }
    var setTried, mapNew;
    err, setTried, mapNew := CheckRecords(s);
    if err != 0 {
      return;
    }
    if |setTried| != s.nTried { return -9; }
    if |mapNew| != s.nNew { return -10; }
    assert |mapNew| == |NewIds(s.mapInfo)|;
    err := CheckTried(s, setTried);
    if err != 0 {
      return;
    }
    err := CheckNew(s, mapNew);
  }

  // ----- the invariant and the check -----

  /** The clauses of Check_ that depend on the times callers pass in. */
  ghost predicate TimesOk(mi: map<Id, AddrInfo>) {
    forall id :: id in mi ==>
      mi[id].nLastTry >= 0 && mi[id].nLastSuccess >= 0 && (mi[id].fInTried ==> mi[id].nLastSuccess != 0)
  }

  lemma {:induction false} MultisetOnce(v: seq<Id>, id: Id)
    requires NoDup(v)
    ensures multiset(v)[id] == if id in v then 1 else 0
  {
    if v != [] {
      var n := |v| - 1;
      assert v == v[..n] + [v[n]];
      MultisetOnce(v[..n], id);
    }
  }

  lemma TriedCounts(env: Env, s: State, b: nat, id: Id)
    requires TriedOk(env, s.nKey, s.mapInfo, s.vvTried) && b < |s.vvTried|
    ensures multiset(s.vvTried[b])[id]
         == if TriedShare(s, id) == 1 && TriedBucket(env, s.nKey, s.mapInfo[id].service) == b then 1 else 0
  {
    hide TriedBucket, NoDup;
    assert TriedBucketOk(env, s.nKey, s.mapInfo, b, s.vvTried[b]);
    MultisetOnce(s.vvTried[b], id);
  }

  lemma {:induction false} TriedOccurs(env: Env, s: State, n: nat, id: Id)
    requires TriedOk(env, s.nKey, s.mapInfo, s.vvTried) && n <= |s.vvTried|
    ensures Occurrences(s.vvTried[..n], id)
         == if TriedShare(s, id) == 1 && TriedBucket(env, s.nKey, s.mapInfo[id].service) < n then 1 else 0
  {
    hide TriedOk, TriedBucket;
    if n > 0 {
      TriedOccurs(env, s, n - 1, id);
      OccurrencesPrefix(s.vvTried, n - 1, id);
      TriedCounts(env, s, n - 1, id);
    }
  }

  lemma NewCounted(s: State, id: Id)
    requires NewOk(s.mapInfo, s.vvNew, NOBODY) && RefOk(s.mapInfo)
    ensures Count(s.vvNew, id) == NewShare(s, id)
  {
    if id !in s.mapInfo {
      CountZero(s.vvNew, id);
    }
  }

  lemma RecordsChecked(s: State)
    requires AddrOk(s.mapInfo, s.mapAddr) && RandOk(s.mapInfo, s.vRandom) && RefOk(s.mapInfo)
    ensures (forall n :: n in s.mapInfo ==> RecordOk(s, n)) <==> TimesOk(s.mapInfo)
  {
  }

  lemma RandomSize(mi: map<Id, AddrInfo>, vr: seq<Id>)
    requires RandOk(mi, vr)
    ensures |vr| == |mi|
  {
    forall i, j | 0 <= i < j < |vr| ensures vr[i] != vr[j] {
      assert mi[vr[i]].nRandomPos == i && mi[vr[j]].nRandomPos == j;
    }
    NoDupSize(vr, mi.Keys);
  }

  /** In a valid state Check_ can only object to the recorded times. */
  lemma ValidMeetsCheck(env: Env, s: State)
    requires Inv(env, s)
    ensures Consistent(s) <==> TimesOk(s.mapInfo)
  {
    hide AddrOk, RandOk, NewOk, TriedOk, RefOk, IdsOk, Count, Occurrences, RecordOk, NewShare, TriedShare, TimesOk;
    Parts(env, s);
    RecordsChecked(s);
    RandomSize(s.mapInfo, s.vRandom);
    SplitIds(s.mapInfo);
    forall id ensures Count(s.vvNew, id) == NewShare(s, id) {
      NewCounted(s, id);
    }
    forall id ensures Occurrences(s.vvTried, id) == TriedShare(s, id) {
      TriedOccursAll(env, s, id);
    }
  }

  lemma TriedOccursAll(env: Env, s: State, id: Id)
    requires TriedOk(env, s.nKey, s.mapInfo, s.vvTried)
    ensures Occurrences(s.vvTried, id) == TriedShare(s, id)
  {
    assert s.vvTried[..|s.vvTried|] == s.vvTried;
    TriedOccurs(env, s, |s.vvTried|, id);
  }
}
