/** Saving and loading gives the same address manager back, with its ids renumbered. */
module AddrManReload {
  import opened SortedSets
  import opened AddrManState
  import opened AddrManTried
  import opened AddrManPersist
  import opened AddrManLoad

  /** `t` is `s` with id `order[k]` renumbered `k`.  Of a record only its place in
      `vRandom` and the time of the last try, which is not saved, are different. */
  ghost predicate Isomorphic(s: State, t: State, order: seq<Id>) {
    && NoDup(order) && |order| == |s.mapInfo| && (forall id :: id in order <==> id in s.mapInfo)
    && t.nKey == s.nKey && t.nIdCount == |order| && t.nNew == s.nNew && t.nTried == s.nTried
    && SameRecords(s, t, order)
    && AddrOk(t.mapInfo, t.mapAddr)
    && (|t.vRandom| == |order| && forall k :: 0 <= k < |order| ==> t.vRandom[k] == k)
    && SameNew(s, t, order)
    && SameTried(s, t, order)
  }

  ghost predicate SameRecords(s: State, t: State, order: seq<Id>) {
    && (forall k: Id :: k in t.mapInfo <==> k < |order|)
    && (forall k: Id :: k < |order| ==>
          order[k] in s.mapInfo && t.mapInfo[k] == s.mapInfo[order[k]].(nRandomPos := k, nLastTry := 0))
  }

  /** Every "new" bucket has the same members. */
  ghost predicate SameNew(s: State, t: State, order: seq<Id>) {
    && |t.vvNew| == |s.vvNew|
    && (forall b :: 0 <= b < |s.vvNew| ==> t.vvNew[b] == Image(order, s.vvNew[b]))
  }

  /** Every tried bucket has the same members, each once. */
  ghost predicate SameTried(s: State, t: State, order: seq<Id>) {
    && |t.vvTried| == |s.vvTried|
    && (forall b :: 0 <= b < |s.vvTried| ==> SameMembers(order, t.vvTried[b], s.vvTried[b]))
  }

  ghost predicate SameMembers(order: seq<Id>, v: seq<Id>, w: seq<Id>) {
    && NoDup(v)
    && (forall k :: k in v ==> k < |order| && order[k] in w)
    && (forall k: Id :: k < |order| && order[k] in w ==> k in v)
  }

  ghost function Order(s: State): seq<Id> {
    News(s) + Trieds(s)
  }

  lemma OrderIsNumbering(env: Env, s: State)
    requires Inv(env, s)
    ensures BucketsReferred(s) && Numbering(s, Order(s)) && |Order(s)| == |s.mapInfo|
  {
    hide Inv, BucketsReferred, News, Trieds;
    SavedIds(env, s);
    var xs, ys, zs := News(s), Trieds(s), Order(s);
    forall i, j | 0 <= i < j < |zs| ensures zs[i] != zs[j] {
      if i < |xs| <= j {
        assert zs[i] in xs && zs[j] in ys;
      }
    }
  }

  lemma InfosWritten(s: State, before: seq<Id>, ids: seq<Id>, after: seq<Id>, tried: bool)
    requires forall id :: id in ids ==> id in s.mapInfo && s.mapInfo[id].fInTried == tried
    ensures Written(s, before + ids + after, |before|, Infos(ids, s.mapInfo), tried)
  {
    var infos := Infos(ids, s.mapInfo);
    forall i: nat | i < |infos|
      ensures var id := (before + ids + after)[|before| + i];
              id in s.mapInfo && s.mapInfo[id].fInTried == tried && infos[i] == ToDisk(s.mapInfo[id])
    {
      assert (before + ids + after)[|before| + i] == ids[i] && ids[i] in ids;
    }
  }

  lemma IndicesReferred(ids: seq<Id>, xs: seq<Id>, ys: seq<Id>)
    requires forall id :: id in ids ==> id in xs
    ensures Referred(xs + ys, ids, Indices(ids, xs))
  {
  }

  lemma AppendNothing(xs: seq<Id>, ys: seq<Id>)
    ensures [] + xs + ys == xs + ys && xs + ys + [] == xs + ys
  {
  }

  lemma SavedRecords(env: Env, s: State)
    requires Inv(env, s) && BucketsReferred(s)
    ensures var d := Save(s);
      && Written(s, Order(s), 0, d.news, false) && Written(s, Order(s), |d.news|, d.trieds, true)
      && |d.news| == s.nNew && |d.trieds| == s.nTried && |d.buckets| == |s.vvNew|
      && (forall c :: 0 <= c < |s.vvNew| ==> Referred(Order(s), Sorted(s.vvNew[c]), d.buckets[c]))
  {
    hide Inv, News, Trieds, Written, Referred, Infos, Indices, NoDup, Sorted;
    SavedIds(env, s);
    var d := Save(s);
    var xs, ys := News(s), Trieds(s);
    InfosWritten(s, [], xs, ys, false);
    InfosWritten(s, xs, ys, [], true);
    AppendNothing(xs, ys);
    forall c | 0 <= c < |s.vvNew| ensures Referred(Order(s), Sorted(s.vvNew[c]), d.buckets[c]) {
      IndicesReferred(Sorted(s.vvNew[c]), xs, ys);
    }
  }

  lemma FirstBuckets(order: seq<Id>, s: State)
    requires |s.vvNew| == NEW_BUCKET_COUNT
    ensures RefBuckets(s, order, Replicate(NEW_BUCKET_COUNT, {}), 0, {})
  {
    assert Image(order, {}) == {};
  }

  lemma FirstRecords(s: State, order: seq<Id>, t: State)
    requires Numbering(s, order) && Shape(s, order, t, |order|)
    ensures RefRecords(s, order, t.mapInfo, 0, {})
  {
    assert forall id :: Count(s.vvNew[..0], id) == 0;
  }

  lemma AllRecords(s: State, t: State, order: seq<Id>)
    requires NewOk(s.mapInfo, s.vvNew, NOBODY) && RefRecords(s, order, t.mapInfo, |s.vvNew|, {})
    ensures SameRecords(s, t, order)
  {
    assert s.vvNew[..|s.vvNew|] == s.vvNew;
  }

  lemma AllBuckets(s: State, t: State, order: seq<Id>)
    requires RefBuckets(s, order, t.vvNew, |s.vvNew|, {})
    ensures SameNew(s, t, order)
  {
  }

  lemma AllTried(env: Env, s: State, t: State, order: seq<Id>)
    requires TriedOk(env, s.nKey, s.mapInfo, s.vvTried) && Numbering(s, order)
    requires TriedShape(env, s, order, t.vvTried, |order|)
    ensures SameTried(s, t, order)
  {
    forall b | 0 <= b < |s.vvTried| ensures SameMembers(order, t.vvTried[b], s.vvTried[b]) {
      assert TriedBucketOk(env, s.nKey, s.mapInfo, b, s.vvTried[b]);
      assert TriedBucketShape(env, s, order, t.vvTried[b], b, |order|);
    }
  }

  lemma AddrSame(s: State, t: State, u: State, order: seq<Id>)
    requires Numbering(s, order) && Shape(s, order, u, |order|) && SameRecords(s, t, order)
    requires t.mapAddr == u.mapAddr && t.vRandom == u.vRandom
    ensures AddrOk(t.mapInfo, t.mapAddr) && |t.vRandom| == |order| && forall k :: 0 <= k < |order| ==> t.vRandom[k] == k
  {
    hide NoDup, AddrOk, SameRecords, Base;
    SameServices(s, t, u, order);
    AddrFrame(u.mapInfo, t.mapInfo, t.mapAddr, 0);
  }

  lemma SameServices(s: State, t: State, u: State, order: seq<Id>)
    requires Numbering(s, order) && Shape(s, order, u, |order|) && SameRecords(s, t, order)
    ensures t.mapInfo.Keys == u.mapInfo.Keys && forall k: Id :: k in u.mapInfo ==> u.mapInfo[k].service == t.mapInfo[k].service
  {
    hide NoDup, AddrOk, Base;
    SameNumbers(t.mapInfo, u.mapInfo, |order|);
    forall k: Id | k in u.mapInfo ensures u.mapInfo[k].service == t.mapInfo[k].service {
      ServiceOfBase(s, order, k);
    }
  }

  lemma SameNumbers(mi: map<Id, AddrInfo>, mj: map<Id, AddrInfo>, n: nat)
    requires (forall k: Id :: k in mi <==> k < n) && forall k: Id :: k in mj <==> k < n
    ensures mi.Keys == mj.Keys
  {
    assert forall k: Id :: k in mi <==> k in mj;
  }

  lemma ServiceOfBase(s: State, order: seq<Id>, k: nat)
    requires k < |order| && order[k] in s.mapInfo
    ensures Base(s, order, k).service == s.mapInfo[order[k]].service
  {
  }

  lemma Assembled(env: Env, s: State, u: State, t: State, order: seq<Id>)
    requires Numbering(s, order) && |order| == |s.mapInfo|
    requires NewOk(s.mapInfo, s.vvNew, NOBODY) && TriedOk(env, s.nKey, s.mapInfo, s.vvTried)
    requires Shape(s, order, u, |order|) && TriedShape(env, s, order, u.vvTried, |order|)
    requires u.nKey == s.nKey && u.nIdCount == |order| && u.nTried == s.nTried && u.nNew == s.nNew
    requires t == u.(mapInfo := t.mapInfo, vvNew := t.vvNew) && RefShape(s, order, t.mapInfo, t.vvNew, |s.vvNew|, {})
    ensures Isomorphic(s, t, order)
  {
    hide NewOk, AddrOk, TriedOk, Shape, TriedShape, RefRecords, RefBuckets, SameRecords, SameNew, SameTried;
    AllRecords(s, t, order);
    AllBuckets(s, t, order);
    AllTried(env, s, t, order);
    AddrSame(s, t, u, order);
  }

  lemma SavedSize(env: Env, s: State)
    requires Inv(env, s)
    ensures |Order(s)| == s.nNew + s.nTried
  {
    hide Inv, News, Trieds, NoDup;
    SavedIds(env, s);
  }

  /** Loading what was saved: no tried entry is lost, no reference is dropped. */
  lemma LoadSaved(env: Env, s: State)
    requires Inv(env, s)
    ensures BucketsReferred(s) && |s.vvNew| == NEW_BUCKET_COUNT
    ensures Isomorphic(s, Load(env, Save(s)), Order(s))
  {
    hide Inv, Tables, NewOk, RefOk, AddrOk, RandOk, TriedOk, TallyOk, IdsOk, BucketsReferred, Shape, TriedShape, Written,
      Referred, RefRecords, RefBuckets, LoadBuckets, LoadTried, Save, Order, Isomorphic, Numbering, Replicate;
    Parts(env, s);
    OrderIsNumbering(env, s);
    SavedRecords(env, s);
    SavedKey(s);
    SavedSize(env, s);
    var d, order := Save(s), Order(s);
    LoadTriedShape(env, s, order, d, |d.trieds|);
    var u := LoadTried(env, d, |d.trieds|);
    FirstBuckets(order, s);
    FirstRecords(s, order, u);
    LoadBucketsShape(s, order, u, d, NEW_BUCKET_COUNT);
    Assembled(env, s, u, Load(env, d), order);
  }

  lemma SavedKey(s: State)
    requires BucketsReferred(s)
    ensures Save(s).nKey == s.nKey && Save(s).nNew == s.nNew && Save(s).nTried == s.nTried
    ensures |Save(s).buckets| == |s.vvNew|
  {
  }

  // ----- the loaded state is valid -----

  lemma {:induction false} ImageSize(order: seq<Id>, ids: set<Id>)
    requires NoDup(order) && forall id :: id in ids ==> id in order
    ensures |Image(order, ids)| == |ids|
    decreases |ids|
  {
    if ids == {} {
      assert Image(order, ids) == {};
    } else {
      var id := Pick(ids);
      var k := Index(order, id);
      ImageSize(order, ids - {id});
      assert ids == ids - {id} + {order[k]};
      ImageGrows(order, ids - {id}, k);
      assert k !in Image(order, ids - {id});
    }
  }

  lemma {:induction false} CountMatch(vv: seq<set<Id>>, ww: seq<set<Id>>, x: Id, y: Id)
    requires |vv| == |ww| && forall b :: 0 <= b < |vv| ==> (x in vv[b] <==> y in ww[b])
    ensures Count(vv, x) == Count(ww, y)
  {
    if vv != [] {
      var n := |vv| - 1;
      assert forall b :: 0 <= b < n ==> vv[..n][b] == vv[b] && ww[..n][b] == ww[b];
      CountMatch(vv[..n], ww[..n], x, y);
    }
  }

  lemma IsoNew(s: State, t: State, order: seq<Id>)
    requires NewOk(s.mapInfo, s.vvNew, NOBODY) && NoDup(order) && (forall id :: id in order <==> id in s.mapInfo)
    requires SameRecords(s, t, order) && SameNew(s, t, order)
    ensures NewOk(t.mapInfo, t.vvNew, NOBODY)
  {
    forall b | 0 <= b < |t.vvNew| ensures |t.vvNew[b]| <= NEW_BUCKET_SIZE {
      ImageSize(order, s.vvNew[b]);
    }
    forall k: Id | k in t.mapInfo ensures t.mapInfo[k].nRefCount == Count(t.vvNew, k) {
      CountMatch(t.vvNew, s.vvNew, k, order[k]);
    }
  }

  lemma IsoTried(env: Env, s: State, t: State, order: seq<Id>)
    requires TriedOk(env, s.nKey, s.mapInfo, s.vvTried) && NoDup(order) && (forall id :: id in order <==> id in s.mapInfo)
    requires SameRecords(s, t, order) && SameTried(s, t, order) && t.nKey == s.nKey
    ensures TriedOk(env, t.nKey, t.mapInfo, t.vvTried)
  {
    forall b | 0 <= b < |t.vvTried| ensures TriedBucketOk(env, t.nKey, t.mapInfo, b, t.vvTried[b]) {
      assert SameMembers(order, t.vvTried[b], s.vvTried[b]);
      assert TriedBucketOk(env, s.nKey, s.mapInfo, b, s.vvTried[b]);
      MembersFit(order, t.vvTried[b], s.vvTried[b]);
    }
    forall k: Id | k in t.mapInfo && t.mapInfo[k].fInTried
      ensures k in t.vvTried[TriedBucket(env, t.nKey, t.mapInfo[k].service)]
    {
      var b := TriedBucket(env, s.nKey, s.mapInfo[order[k]].service);
      assert SameMembers(order, t.vvTried[b], s.vvTried[b]);
    }
  }

  lemma MembersFit(order: seq<Id>, v: seq<Id>, w: seq<Id>)
    requires NoDup(order) && SameMembers(order, v, w)
    ensures |v| <= |w|
  {
    forall i | 0 <= i < |v| ensures v[i] < |order| && order[v[i]] in w {
      assert v[i] in v;
    }
    var xs := seq(|v|, i requires 0 <= i < |v| => order[v[i]]);
    NoDupSubset(xs, w);
  }

  lemma IsoTally(s: State, t: State, order: seq<Id>)
    requires TallyOk(s.mapInfo, s.nTried, s.nNew) && NoDup(order) && (forall id :: id in order <==> id in s.mapInfo)
    requires SameRecords(s, t, order) && t.nTried == s.nTried && t.nNew == s.nNew
    ensures TallyOk(t.mapInfo, t.nTried, t.nNew)
  {
    assert TriedIds(t.mapInfo) == Image(order, TriedIds(s.mapInfo));
    assert NewIds(t.mapInfo) == Image(order, NewIds(s.mapInfo));
    ImageSize(order, TriedIds(s.mapInfo));
    ImageSize(order, NewIds(s.mapInfo));
  }

  lemma IsoRefs(s: State, t: State, order: seq<Id>)
    requires RefOk(s.mapInfo) && SameRecords(s, t, order)
    ensures RefOk(t.mapInfo)
  {
  }

  lemma IsoRand(s: State, t: State, order: seq<Id>)
    requires SameRecords(s, t, order) && |t.vRandom| == |order| && forall k :: 0 <= k < |order| ==> t.vRandom[k] == k
    requires t.nIdCount == |order|
    ensures RandOk(t.mapInfo, t.vRandom) && IdsOk(t.mapInfo, t.nIdCount)
  {
  }

  lemma IsomorphicIsValid(env: Env, s: State, t: State, order: seq<Id>)
    requires Inv(env, s) && Isomorphic(s, t, order)
    ensures Inv(env, t)
  {
    hide NewOk, RefOk, AddrOk, RandOk, TriedOk, TallyOk, IdsOk, SameRecords, SameNew, SameTried, NoDup;
    Parts(env, s);
    IsoNew(s, t, order);
    IsoTried(env, s, t, order);
    IsoTally(s, t, order);
    IsoRefs(s, t, order);
    IsoRand(s, t, order);
  }

  /** Save, then load. */
  ghost function Reload(env: Env, s: State): (t: State)
    requires Inv(env, s)
    ensures Inv(env, t) && Isomorphic(s, t, Order(s))
  {
    hide Inv, Isomorphic, BucketsReferred, Save, Load;
    LoadSaved(env, s);
    SavedKey(s);
    IsomorphicIsValid(env, s, Load(env, Save(s)), Order(s));
    Load(env, Save(s))
  }
}
