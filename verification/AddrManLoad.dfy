/** Reading a saved address manager back. */
module AddrManLoad {
  import opened SortedSets
  import opened AddrManState
  import opened AddrManInv
  import opened AddrManPersist

  // ----- loading -----

  /** The fields after `n` untried records have been read. */
  ghost function LoadNew(d: Disk, n: nat): State
    requires n <= |d.news|
  {
    if n == 0 then
      State(d.nKey, 0, map[], map[], [], d.nTried, Replicate(TRIED_BUCKET_COUNT, []), d.nNew, Replicate(NEW_BUCKET_COUNT, {}))
    else
      Append(LoadNew(d, n - 1), FromDisk(d.news[n - 1]))
  }

  /** Number a record that has been read and enter it everywhere but in a bucket. */
  function Append(s: State, info: AddrInfo): State {
    s.(nIdCount := s.nIdCount + 1,
       mapInfo := s.mapInfo[s.nIdCount := info.(nRandomPos := |s.vRandom|)],
       mapAddr := s.mapAddr[info.service.addr := s.nIdCount],
       vRandom := s.vRandom + [s.nIdCount])
  }

  /** The fields after `n` tried records have been read.  A record whose bucket is
      full is lost, and the count of tried entries is corrected for it. */
  ghost function LoadTried(env: Env, d: Disk, n: nat): (t: State)
    requires n <= |d.trieds|
    ensures |t.vvTried| == TRIED_BUCKET_COUNT
  {
    if n == 0 then LoadNewTables(d); LoadNew(d, |d.news|) else
    EnterTried(env, LoadTried(env, d, n - 1), FromDisk(d.trieds[n - 1]))
  }

  lemma {:induction false} LoadNewTables(d: Disk, n: nat := |d.news|)
    requires n <= |d.news|
    ensures |LoadNew(d, n).vvTried| == TRIED_BUCKET_COUNT
  {
    if n > 0 {
      LoadNewTables(d, n - 1);
    }
  }

  function EnterTried(env: Env, s: State, info: AddrInfo): (t: State)
    requires |s.vvTried| == TRIED_BUCKET_COUNT
    ensures |t.vvTried| == TRIED_BUCKET_COUNT
  {
    var kb := TriedBucket(env, s.nKey, info.service);
    if |s.vvTried[kb]| < TRIED_BUCKET_SIZE then
      Append(s, info.(fInTried := true)).(vvTried := s.vvTried[kb := s.vvTried[kb] + [s.nIdCount]])
    else
      s.(nTried := s.nTried - 1)
  }

  /** The record that `mapInfo[n]` creates in C++ when there is none. */
  const DEFAULT_INFO := AddrInfo(Service(NetAddr([0, 0, 0, 0, 0, 0, 0, 0, 0, 0, 0, 0, 0, 0, 0, 0]), 0), 1, 100000000, 0,
                                 NetAddr([0, 0, 0, 0, 0, 0, 0, 0, 0, 0, 0, 0, 0, 0, 0, 0]), 0, 0, 0, false, -1)

  function InfoAt(mi: map<Id, AddrInfo>, idx: Id): AddrInfo {
    if idx in mi then mi[idx] else DEFAULT_INFO
  }

  /** Enter one reference of bucket `b`, unless the record has its four already. */
  function LoadRef(s: State, b: nat, idx: Id): (t: State)
    requires b < |s.vvNew|
    ensures |t.vvNew| == |s.vvNew|
  {
    var info := InfoAt(s.mapInfo, idx);
    if info.nRefCount < NEW_BUCKETS_PER_ADDRESS then
      s.(mapInfo := s.mapInfo[idx := info.(nRefCount := info.nRefCount + 1)],
         vvNew := s.vvNew[b := s.vvNew[b] + {idx}])
    else
      s.(mapInfo := s.mapInfo[idx := info])
  }

  /** The first `k` references of bucket `b`. */
  ghost function LoadBucket(s: State, b: nat, refs: seq<Id>, k: nat): (t: State)
    requires b < |s.vvNew| && k <= |refs|
    ensures |t.vvNew| == |s.vvNew|
  {
    if k == 0 then s else LoadRef(LoadBucket(s, b, refs, k - 1), b, refs[k - 1])
  }

  /** The first `b` buckets. */
  ghost function LoadBuckets(s: State, buckets: seq<seq<Id>>, b: nat): (t: State)
    requires b <= |buckets| <= |s.vvNew|
    ensures |t.vvNew| == |s.vvNew|
  {
    if b == 0 then s
    else LoadBucket(LoadBuckets(s, buckets, b - 1), b - 1, buckets[b - 1], |buckets[b - 1]|)
  }

  lemma {:induction false} LoadedTables(env: Env, d: Disk, n: nat := |d.trieds|)
    requires n <= |d.trieds|
    ensures |LoadTried(env, d, n).vvNew| == NEW_BUCKET_COUNT
  {
    if n > 0 {
      LoadedTables(env, d, n - 1);
    } else {
      LoadedNewTables(d, |d.news|);
    }
  }

  lemma {:induction false} LoadedNewTables(d: Disk, n: nat)
    requires n <= |d.news|
    ensures |LoadNew(d, n).vvNew| == NEW_BUCKET_COUNT
  {
    if n > 0 {
      LoadedNewTables(d, n - 1);
    }
  }

  ghost function Load(env: Env, d: Disk): State
    requires |d.buckets| == NEW_BUCKET_COUNT
  {
    LoadedTables(env, d);
    LoadBuckets(LoadTried(env, d, |d.trieds|), d.buckets, NEW_BUCKET_COUNT)
  }

  lemma LoadSteps(env: Env, d: Disk)
    ensures LoadNew(d, 0) ==
      State(d.nKey, 0, map[], map[], [], d.nTried, Replicate(TRIED_BUCKET_COUNT, []), d.nNew, Replicate(NEW_BUCKET_COUNT, {}))
  {
  }

  lemma LoadNewStep(d: Disk, n: nat)
    requires n < |d.news|
    ensures LoadNew(d, n + 1) == Append(LoadNew(d, n), FromDisk(d.news[n]))
  {
  }

  lemma LoadTriedStart(env: Env, d: Disk)
    ensures LoadTried(env, d, 0) == LoadNew(d, |d.news|)
  {
  }

  lemma LoadTriedStep(env: Env, d: Disk, n: nat)
    requires n < |d.trieds|
    ensures LoadTried(env, d, n + 1) == EnterTried(env, LoadTried(env, d, n), FromDisk(d.trieds[n]))
  {
  }

  lemma LoadBucketStart(s: State, b: nat, refs: seq<Id>)
    requires b < |s.vvNew|
    ensures LoadBucket(s, b, refs, 0) == s
  {
  }

  lemma LoadBucketStep(s: State, b: nat, refs: seq<Id>, k: nat)
    requires b < |s.vvNew| && k < |refs|
    ensures LoadBucket(s, b, refs, k + 1) == LoadRef(LoadBucket(s, b, refs, k), b, refs[k])
  {
  }

  lemma LoadBucketsStart(s: State, buckets: seq<seq<Id>>)
    requires |buckets| <= |s.vvNew|
    ensures LoadBuckets(s, buckets, 0) == s
  {
  }

  lemma LoadBucketsStep(s: State, buckets: seq<seq<Id>>, b: nat)
    requires b < |buckets| <= |s.vvNew|
    ensures LoadBuckets(s, buckets, b + 1) == LoadBucket(LoadBuckets(s, buckets, b), b, buckets[b], |buckets[b]|)
  {
  }

  // ----- what has been loaded so far -----

  /** Every id once: the untried ones first, then the tried ones, as they are saved. */
  ghost predicate Numbering(s: State, order: seq<Id>) {
    NoDup(order) && forall id :: id in order <==> id in s.mapInfo
  }

  /** Record `k` as it is read back, before its references are. */
  function Base(s: State, order: seq<Id>, k: nat): AddrInfo
    requires k < |order| && order[k] in s.mapInfo
  {
    var info := s.mapInfo[order[k]];
    FromDisk(ToDisk(info)).(nRandomPos := k, fInTried := info.fInTried)
  }

  /** The first `n` records of `order` have been read. */
  ghost predicate Shape(s: State, order: seq<Id>, t: State, n: nat)
    requires Numbering(s, order) && n <= |order|
  {
    && t.nIdCount == n
    && (forall k: Id :: k in t.mapInfo <==> k < n)
    && (forall k: nat :: k < n ==> order[k] in s.mapInfo && t.mapInfo[k] == Base(s, order, k))
    && |t.vRandom| == n && (forall k :: 0 <= k < n ==> t.vRandom[k] == k)
    && AddrOk(t.mapInfo, t.mapAddr)
  }

  lemma FreshAddr(s: State, order: seq<Id>, t: State, n: nat)
    requires Numbering(s, order) && n < |order| && Shape(s, order, t, n) && AddrOk(s.mapInfo, s.mapAddr)
    ensures order[n] in s.mapInfo && s.mapInfo[order[n]].service.addr !in t.mapAddr
    ensures t.nIdCount !in t.mapInfo && AddrOk(t.mapInfo, t.mapAddr)
  {
    forall a | a in t.mapAddr ensures a != s.mapInfo[order[n]].service.addr {
      var k := t.mapAddr[a];
      assert t.mapInfo[k] == Base(s, order, k);
      assert order[k] != order[n];
    }
  }

  lemma ShapeStep(s: State, order: seq<Id>, t: State, n: nat, info: AddrInfo)
    requires Numbering(s, order) && n < |order| && Shape(s, order, t, n) && AddrOk(s.mapInfo, s.mapAddr)
    requires order[n] in s.mapInfo
    requires info == FromDisk(ToDisk(s.mapInfo[order[n]])).(fInTried := s.mapInfo[order[n]].fInTried)
    ensures Shape(s, order, Append(t, info), n + 1)
  {
    hide AddrOk, NoDup, Base;
    FreshAddr(s, order, t, n);
    AppendAddr(t, info);
    BaseIs(s, order, n);
  }

  lemma BaseIs(s: State, order: seq<Id>, n: nat)
    requires n < |order| && order[n] in s.mapInfo
    ensures var info := s.mapInfo[order[n]];
            Base(s, order, n) == FromDisk(ToDisk(info)).(fInTried := info.fInTried).(nRandomPos := n)
  {
  }

  lemma AppendAddr(t: State, info: AddrInfo)
    requires AddrOk(t.mapInfo, t.mapAddr) && info.service.addr !in t.mapAddr && t.nIdCount !in t.mapInfo
    ensures AddrOk(Append(t, info).mapInfo, Append(t, info).mapAddr)
  {
  }

  /** The records of a file are those of `order`, from `offset` on. */
  ghost predicate Written(s: State, order: seq<Id>, offset: nat, infos: seq<DiskInfo>, tried: bool) {
    && offset + |infos| <= |order|
    && forall i: nat :: i < |infos| ==>
         && order[offset + i] in s.mapInfo && s.mapInfo[order[offset + i]].fInTried == tried
         && infos[i] == ToDisk(s.mapInfo[order[offset + i]])
  }

  lemma {:induction false} LoadNewShape(s: State, order: seq<Id>, d: Disk, n: nat)
    requires AddrOk(s.mapInfo, s.mapAddr) && Numbering(s, order)
    requires n <= |d.news| && Written(s, order, 0, d.news, false)
    ensures var t := LoadNew(d, n);
      && Shape(s, order, t, n)
      && t == State(d.nKey, n, t.mapInfo, t.mapAddr, t.vRandom, d.nTried, Replicate(TRIED_BUCKET_COUNT, []),
                    d.nNew, Replicate(NEW_BUCKET_COUNT, {}))
  {
    hide AddrOk, Numbering, Shape;
    if n == 0 {
      EmptyShape(s, order, LoadNew(d, 0));
    } else {
      LoadNewShape(s, order, d, n - 1);
      assert order[0 + (n - 1)] == order[n - 1];
      ShapeStep(s, order, LoadNew(d, n - 1), n - 1, FromDisk(d.news[n - 1]));
    }
  }

  lemma EmptyShape(s: State, order: seq<Id>, t: State)
    requires Numbering(s, order) && t.nIdCount == 0 && t.mapInfo == map[] && t.mapAddr == map[] && t.vRandom == []
    ensures Shape(s, order, t, 0)
  {
  }

  // ----- the tried table -----

  /** The tried records among the first `n` are in their buckets. */
  ghost predicate TriedShape(env: Env, s: State, order: seq<Id>, vv: seq<seq<Id>>, n: nat)
    requires Numbering(s, order) && n <= |order|
  {
    && |vv| == TRIED_BUCKET_COUNT
    && (forall b :: 0 <= b < |vv| ==> TriedBucketShape(env, s, order, vv[b], b, n))
    && (forall k: nat :: k < n && order[k] in s.mapInfo && s.mapInfo[order[k]].fInTried ==>
          k in vv[TriedBucket(env, s.nKey, s.mapInfo[order[k]].service)])
  }

  ghost predicate TriedBucketShape(env: Env, s: State, order: seq<Id>, v: seq<Id>, b: int, n: nat)
    requires n <= |order|
  {
    && NoDup(v)
    && forall k :: k in v ==> k < n && order[k] in s.mapInfo && s.mapInfo[order[k]].fInTried
                              && TriedBucket(env, s.nKey, s.mapInfo[order[k]].service) == b
  }

  lemma {:induction false} NoDupSubset(xs: seq<Id>, ys: seq<Id>)
    requires NoDup(xs) && forall x :: x in xs ==> x in ys
    ensures |xs| <= |ys|
  {
    if xs != [] {
      var n := |xs| - 1;
      assert xs[n] in xs;
      var j :| 0 <= j < |ys| && ys[j] == xs[n];
      var zs := ys[..j] + ys[j + 1..];
      forall x | x in xs[..n] ensures x in zs {
        var i :| 0 <= i < n && xs[i] == x;
        assert xs[i] in xs;
        var k :| 0 <= k < |ys| && ys[k] == x;
        assert k != j;
        assert zs[if k < j then k else k - 1] == x;
      }
      NoDupSubset(xs[..n], zs);
    }
  }

  /** The bucket a tried record belongs in still has room when the record is read. */
  lemma TriedRoom(env: Env, s: State, order: seq<Id>, v: seq<Id>, b: int, n: nat)
    requires TriedOk(env, s.nKey, s.mapInfo, s.vvTried) && Numbering(s, order) && n < |order|
    requires order[n] in s.mapInfo && s.mapInfo[order[n]].fInTried
    requires b == TriedBucket(env, s.nKey, s.mapInfo[order[n]].service) && TriedBucketShape(env, s, order, v, b, n)
    ensures |v| < TRIED_BUCKET_SIZE
  {
    var w := s.vvTried[b];
    assert TriedBucketOk(env, s.nKey, s.mapInfo, b, w);
    var xs := seq(|v| + 1, i requires 0 <= i <= |v| => if i < |v| && v[i] < |order| then order[v[i]] else order[n]);
    forall i | 0 <= i < |v| ensures v[i] < n && xs[i] == order[v[i]] && xs[i] in w {
      assert v[i] in v;
    }
    forall x | x in xs ensures x in w {
      var i :| 0 <= i < |xs| && xs[i] == x;
    }
    forall i, j | 0 <= i < j < |xs| ensures xs[i] != xs[j] {
      assert v[i] < n;
      if j < |v| {
        assert v[i] != v[j] && v[j] < n;
      }
    }
    NoDupSubset(xs, w);
  }

  lemma TriedShapeStart(env: Env, s: State, order: seq<Id>, infos: seq<DiskInfo>)
    requires Numbering(s, order) && Written(s, order, 0, infos, false)
    ensures TriedShape(env, s, order, Replicate(TRIED_BUCKET_COUNT, []), |infos|)
  {
    forall k: nat | k < |infos| ensures order[k] in s.mapInfo && !s.mapInfo[order[k]].fInTried {
      assert infos[k] == ToDisk(s.mapInfo[order[0 + k]]);
    }
  }

  lemma TriedShapeStep(env: Env, s: State, order: seq<Id>, vv: seq<seq<Id>>, n: nat)
    requires Numbering(s, order) && n < |order| && TriedShape(env, s, order, vv, n)
    requires order[n] in s.mapInfo && s.mapInfo[order[n]].fInTried
    ensures var kb := TriedBucket(env, s.nKey, s.mapInfo[order[n]].service);
            TriedShape(env, s, order, vv[kb := vv[kb] + [n]], n + 1)
  {
    var kb := TriedBucket(env, s.nKey, s.mapInfo[order[n]].service);
    var ww := vv[kb := vv[kb] + [n]];
    forall b | 0 <= b < |ww| ensures TriedBucketShape(env, s, order, ww[b], b, n + 1) {
      assert TriedBucketShape(env, s, order, vv[b], b, n);
    }
  }

  lemma {:induction false} LoadTriedShape(env: Env, s: State, order: seq<Id>, d: Disk, n: nat)
    requires AddrOk(s.mapInfo, s.mapAddr) && TriedOk(env, s.nKey, s.mapInfo, s.vvTried) && Numbering(s, order)
    requires d.nKey == s.nKey && n <= |d.trieds|
    requires Written(s, order, 0, d.news, false) && Written(s, order, |d.news|, d.trieds, true)
    ensures var t := LoadTried(env, d, n);
      var m := |d.news| + n;
      && Shape(s, order, t, m)
      && TriedShape(env, s, order, t.vvTried, m)
      && t == State(s.nKey, m, t.mapInfo, t.mapAddr, t.vRandom, d.nTried, t.vvTried,
                    d.nNew, Replicate(NEW_BUCKET_COUNT, {}))
  {
    hide AddrOk, TriedOk, Numbering, Shape, TriedShape, TriedBucketShape, EnterTried, Written, ToDisk, FromDisk;
    if n == 0 {
      LoadNewShape(s, order, d, |d.news|);
      TriedShapeStart(env, s, order, d.news);
    } else {
      LoadTriedShape(env, s, order, d, n - 1);
      WrittenAt(s, order, |d.news|, d.trieds, true, n - 1);
      EnterTriedShape(env, s, order, LoadTried(env, d, n - 1), |d.news| + (n - 1));
    }
  }

  lemma WrittenAt(s: State, order: seq<Id>, offset: nat, infos: seq<DiskInfo>, tried: bool, i: nat)
    requires Written(s, order, offset, infos, tried) && i < |infos|
    ensures offset + i < |order| && order[offset + i] in s.mapInfo && s.mapInfo[order[offset + i]].fInTried == tried
    ensures infos[i] == ToDisk(s.mapInfo[order[offset + i]])
  {
    hide ToDisk;
    var info := infos[i];
    assert info == ToDisk(s.mapInfo[order[offset + i]]);
  }

  lemma EnterTriedShape(env: Env, s: State, order: seq<Id>, p: State, m: nat)
    requires AddrOk(s.mapInfo, s.mapAddr) && TriedOk(env, s.nKey, s.mapInfo, s.vvTried) && Numbering(s, order)
    requires m < |order| && order[m] in s.mapInfo && s.mapInfo[order[m]].fInTried
    requires p.nKey == s.nKey && Shape(s, order, p, m) && TriedShape(env, s, order, p.vvTried, m) && |p.vvTried| == TRIED_BUCKET_COUNT
    ensures var t := EnterTried(env, p, FromDisk(ToDisk(s.mapInfo[order[m]])));
      && Shape(s, order, t, m + 1) && TriedShape(env, s, order, t.vvTried, m + 1)
      && t == p.(nIdCount := m + 1, mapInfo := t.mapInfo, mapAddr := t.mapAddr, vRandom := t.vRandom, vvTried := t.vvTried)
  {
    hide AddrOk, TriedOk, Numbering, Shape, TriedShape, TriedBucketShape, TriedBucket;
    var info := FromDisk(ToDisk(s.mapInfo[order[m]]));
    var kb := TriedBucket(env, s.nKey, info.service);
    BucketOfShape(env, s, order, p.vvTried, kb, m);
    TriedRoom(env, s, order, p.vvTried[kb], kb, m);
    NumberOfShape(s, order, p, m);
    TriedShapeStep(env, s, order, p.vvTried, m);
    ShapeStep(s, order, p, m, info.(fInTried := true));
    ShapeFrame(s, order, Append(p, info.(fInTried := true)), EnterTried(env, p, info), m + 1);
  }

  lemma BucketOfShape(env: Env, s: State, order: seq<Id>, vv: seq<seq<Id>>, b: int, n: nat)
    requires Numbering(s, order) && n <= |order| && TriedShape(env, s, order, vv, n) && 0 <= b < TRIED_BUCKET_COUNT
    ensures |vv| == TRIED_BUCKET_COUNT && TriedBucketShape(env, s, order, vv[b], b, n)
  {
  }

  lemma ShapeFrame(s: State, order: seq<Id>, t: State, u: State, n: nat)
    requires Numbering(s, order) && n <= |order| && Shape(s, order, t, n) && u == t.(vvTried := u.vvTried)
    ensures Shape(s, order, u, n)
  {
  }

  lemma NumberOfShape(s: State, order: seq<Id>, t: State, n: nat)
    requires Numbering(s, order) && n <= |order| && Shape(s, order, t, n)
    ensures t.nIdCount == n
  {
  }

  // ----- the "new" buckets -----

  /** The new numbers of `ids`. */
  ghost function Image(order: seq<Id>, ids: set<Id>): set<Id> {
    set k: Id | k < |order| && order[k] in ids
  }

  /** The records once the buckets before `b` have been read, and of bucket `b` the entries in `done`. */
  ghost predicate RefRecords(s: State, order: seq<Id>, mi: map<Id, AddrInfo>, b: nat, done: set<Id>)
    requires b <= |s.vvNew|
  {
    && (forall k: Id :: k in mi <==> k < |order|)
    && (forall k: Id :: k < |order| ==>
          && order[k] in s.mapInfo
          && mi[k] == Base(s, order, k).(nRefCount := Count(s.vvNew[..b], order[k]) + if order[k] in done then 1 else 0))
  }

  /** The buckets at that point. */
  ghost predicate RefBuckets(s: State, order: seq<Id>, vv: seq<set<Id>>, b: nat, done: set<Id>) {
    && |vv| == |s.vvNew|
    && (forall c :: 0 <= c < |vv| ==> vv[c] == Image(order, if c < b then s.vvNew[c] else if c == b then done else {}))
  }

  ghost predicate RefShape(s: State, order: seq<Id>, mi: map<Id, AddrInfo>, vv: seq<set<Id>>, b: nat, done: set<Id>)
    requires b <= |s.vvNew|
  {
    RefRecords(s, order, mi, b, done) && RefBuckets(s, order, vv, b, done)
  }

  lemma ImageGrows(order: seq<Id>, done: set<Id>, idx: Id)
    requires NoDup(order) && idx < |order|
    ensures Image(order, done + {order[idx]}) == Image(order, done) + {idx}
  {
  }

  lemma RefRecordsStep(s: State, order: seq<Id>, mi: map<Id, AddrInfo>, b: nat, done: set<Id>, idx: Id)
    requires b < |s.vvNew| && RefRecords(s, order, mi, b, done)
    requires idx < |order| && order[idx] !in done
    requires forall k: Id :: k < |order| && order[k] == order[idx] ==> k == idx
    ensures idx in mi && order[idx] in s.mapInfo && mi[idx].nRefCount == Count(s.vvNew[..b], order[idx])
    ensures RefRecords(s, order, mi[idx := mi[idx].(nRefCount := mi[idx].nRefCount + 1)], b, done + {order[idx]})
  {
    hide Base, Count;
  }

  lemma RefBucketsStep(s: State, order: seq<Id>, vv: seq<set<Id>>, b: nat, done: set<Id>, idx: Id)
    requires NoDup(order) && b < |s.vvNew| && idx < |order| && RefBuckets(s, order, vv, b, done)
    ensures |vv| == |s.vvNew|
    ensures RefBuckets(s, order, vv[b := vv[b] + {idx}], b, done + {order[idx]})
  {
    ImageGrows(order, done, idx);
    hide NoDup, Image;
  }

  /** No reference is refused: a record never has more than its saved count. */
  lemma RefShapeStep(s: State, order: seq<Id>, mi: map<Id, AddrInfo>, vv: seq<set<Id>>, b: nat, done: set<Id>, idx: Id)
    requires NewOk(s.mapInfo, s.vvNew, NOBODY) && RefOk(s.mapInfo) && Numbering(s, order)
    requires b < |s.vvNew| && RefShape(s, order, mi, vv, b, done)
    requires idx < |order| && order[idx] in s.vvNew[b] && order[idx] !in done
    ensures idx in mi && mi[idx].nRefCount < NEW_BUCKETS_PER_ADDRESS
    ensures |vv| == |s.vvNew|
    ensures RefShape(s, order, mi[idx := mi[idx].(nRefCount := mi[idx].nRefCount + 1)],
                     vv[b := vv[b] + {idx}], b, done + {order[idx]})
  {
    hide NewOk, RefOk, Count, NoDup, RefRecords, RefBuckets;
    SavedCountBound(s, b, order[idx]);
    OrderInjective(order, idx);
    RefRecordsStep(s, order, mi, b, done, idx);
    RefBucketsStep(s, order, vv, b, done, idx);
  }

  lemma OrderInjective(order: seq<Id>, idx: Id)
    requires NoDup(order) && idx < |order|
    ensures forall k: Id :: k < |order| && order[k] == order[idx] ==> k == idx
  {
  }

  lemma SavedCountBound(s: State, b: nat, id: Id)
    requires NewOk(s.mapInfo, s.vvNew, NOBODY) && RefOk(s.mapInfo) && b < |s.vvNew| && id in s.vvNew[b]
    ensures Count(s.vvNew[..b], id) < NEW_BUCKETS_PER_ADDRESS
  {
    CountPrefix(s.vvNew, b, id);
    assert s.mapInfo[id].nRefCount == Count(s.vvNew, id);
  }

  /** The references of a bucket name its ids by their new numbers. */
  ghost predicate Referred(order: seq<Id>, ids: seq<Id>, refs: seq<Id>) {
    |refs| == |ids| && forall i :: 0 <= i < |ids| ==> refs[i] < |order| && order[refs[i]] == ids[i]
  }

  lemma MembersGrow(ids: seq<Id>, k: nat)
    requires NoDup(ids) && k < |ids|
    ensures Members(ids[..k + 1]) == Members(ids[..k]) + {ids[k]} && ids[k] !in Members(ids[..k]) && ids[k] in ids
  {
    assert ids[..k + 1] == ids[..k] + [ids[k]];
  }

  lemma {:induction false} LoadBucketShape(s: State, order: seq<Id>, u: State, b: nat, ids: seq<Id>, refs: seq<Id>, k: nat)
    requires NewOk(s.mapInfo, s.vvNew, NOBODY) && RefOk(s.mapInfo) && Numbering(s, order)
    requires b < |s.vvNew| == |u.vvNew| && RefShape(s, order, u.mapInfo, u.vvNew, b, {})
    requires NoDup(ids) && (forall id :: id in ids ==> id in s.vvNew[b]) && Referred(order, ids, refs) && k <= |refs|
    ensures var t := LoadBucket(u, b, refs, k);
      && RefShape(s, order, t.mapInfo, t.vvNew, b, Members(ids[..k]))
      && t == u.(mapInfo := t.mapInfo, vvNew := t.vvNew)
  {
    hide NewOk, RefOk, Numbering, RefShape, NoDup;
    if k == 0 {
      assert Members(ids[..0]) == {};
    } else {
      LoadBucketShape(s, order, u, b, ids, refs, k - 1);
      var p := LoadBucket(u, b, refs, k - 1);
      MembersGrow(ids, k - 1);
      RefShapeStep(s, order, p.mapInfo, p.vvNew, b, Members(ids[..k - 1]), refs[k - 1]);
    }
  }

  lemma RefShapeNext(s: State, order: seq<Id>, mi: map<Id, AddrInfo>, vv: seq<set<Id>>, b: nat)
    requires Numbering(s, order) && b < |s.vvNew| && RefShape(s, order, mi, vv, b, s.vvNew[b])
    ensures RefShape(s, order, mi, vv, b + 1, {})
  {
    hide Base;
    forall k: Id | k < |order|
      ensures order[k] in s.mapInfo
      ensures mi[k] == Base(s, order, k).(nRefCount := Count(s.vvNew[..b + 1], order[k]) + 0)
    {
      CountPrefix(s.vvNew, b, order[k]);
    }
    assert Image(order, {}) == {};
  }

  lemma {:induction false} LoadBucketsShape(s: State, order: seq<Id>, u: State, d: Disk, b: nat)
    requires NewOk(s.mapInfo, s.vvNew, NOBODY) && RefOk(s.mapInfo) && Numbering(s, order)
    requires |s.vvNew| == |u.vvNew| == |d.buckets| && b <= |s.vvNew| && RefShape(s, order, u.mapInfo, u.vvNew, 0, {})
    requires forall c :: 0 <= c < |s.vvNew| ==> Referred(order, Sorted(s.vvNew[c]), d.buckets[c])
    ensures var t := LoadBuckets(u, d.buckets, b);
      && RefShape(s, order, t.mapInfo, t.vvNew, b, {})
      && t == u.(mapInfo := t.mapInfo, vvNew := t.vvNew)
  {
    hide NewOk, RefOk, Numbering, RefShape, NoDup, Referred, Ascending, Sorted, Members, LoadBucket;
    if b > 0 {
      LoadBucketsShape(s, order, u, d, b - 1);
      var p := LoadBuckets(u, d.buckets, b - 1);
      var ids := Sorted(s.vvNew[b - 1]);
      AscendingNoDup(ids);
      assert |d.buckets[b - 1]| == |ids| by {
        ReferredSize(order, ids, d.buckets[b - 1]);
      }
      LoadBucketShape(s, order, p, b - 1, ids, d.buckets[b - 1], |ids|);
      assert ids[..|ids|] == ids;
      SortedMembers(s.vvNew[b - 1]);
      var t := LoadBuckets(u, d.buckets, b);
      RefShapeNext(s, order, t.mapInfo, t.vvNew, b - 1);
    }
  }

  lemma SortedMembers(bucket: set<Id>)
    ensures Members(Sorted(bucket)) == bucket
  {
  }

  lemma ReferredSize(order: seq<Id>, ids: seq<Id>, refs: seq<Id>)
    requires Referred(order, ids, refs)
    ensures |refs| == |ids|
  {
  }
}
