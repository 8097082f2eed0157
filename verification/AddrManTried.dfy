/** Moving an entry to the "tried" table, and what that does to everyone else. */
module AddrManTried {
  import opened AddrManState
  import opened AddrManInv

  /** `mj` is `mi` with `id` moved to the tried table. */
  ghost predicate Promoted(mi: map<Id, AddrInfo>, mj: map<Id, AddrInfo>, id: Id) {
    && mi.Keys == mj.Keys && id in mi && !mi[id].fInTried
    && mj[id] == mi[id].(nRefCount := 0, fInTried := true)
    && (forall x :: x in mi && x != id ==> mj[x] == mi[x])
  }

  /** `mj` is `mi` with `id` moved back out of it. */
  ghost predicate Demoted(mi: map<Id, AddrInfo>, mj: map<Id, AddrInfo>, id: Id) {
    && mi.Keys == mj.Keys && id in mi && mi[id].fInTried
    && mj[id] == mi[id].(nRefCount := 1, fInTried := false)
    && (forall x :: x in mi && x != id ==> mj[x] == mi[x])
  }

  lemma TallyPromote(mi: map<Id, AddrInfo>, mj: map<Id, AddrInfo>, id: Id)
    requires Promoted(mi, mj, id)
    ensures |TriedIds(mj)| == |TriedIds(mi)| + 1 && |NewIds(mj)| == |NewIds(mi)| - 1
  {
    assert TriedIds(mj) == TriedIds(mi) + {id};
    assert NewIds(mj) == NewIds(mi) - {id};
  }

  lemma TallyDemote(mi: map<Id, AddrInfo>, mj: map<Id, AddrInfo>, id: Id)
    requires Demoted(mi, mj, id)
    ensures |TriedIds(mj)| == |TriedIds(mi)| - 1 && |NewIds(mj)| == |NewIds(mi)| + 1
  {
    assert TriedIds(mj) == TriedIds(mi) - {id};
    assert NewIds(mj) == NewIds(mi) + {id};
  }

  lemma NewPurge(mi: map<Id, AddrInfo>, mj: map<Id, AddrInfo>, vv: seq<set<Id>>, id: Id)
    requires NewOk(mi, vv, NOBODY) && Promoted(mi, mj, id)
    ensures NewOk(mj, Purge(vv, id), NOBODY)
  {
    forall x | x in mj ensures mj[x].nRefCount == Count(Purge(vv, id), x) {
      CountPurge(vv, id, x);
    }
    forall b | 0 <= b < |vv| ensures |vv[b] - {id}| <= NEW_BUCKET_SIZE {
      if id in vv[b] {
        assert |vv[b] - {id}| == |vv[b]| - 1;
      } else {
        assert vv[b] - {id} == vv[b];
      }
    }
  }

  lemma NewDemote(mi: map<Id, AddrInfo>, mj: map<Id, AddrInfo>, vv: seq<set<Id>>, b: int, id: Id)
    requires NewOk(mi, vv, NOBODY) && Demoted(mi, mj, id) && mi[id].nRefCount == 0
    requires 0 <= b < |vv| && |vv[b]| < NEW_BUCKET_SIZE
    ensures NewOk(mj, vv[b := vv[b] + {id}], NOBODY)
  {
    CountZero(vv, id);
    NewInsert(mj, vv, b, id);
  }

  lemma TriedPromote(env: Env, key: Key, mi: map<Id, AddrInfo>, mj: map<Id, AddrInfo>, vv: seq<seq<Id>>, id: Id)
    requires TriedOk(env, key, mi, vv) && Promoted(mi, mj, id)
    requires |vv[TriedBucket(env, key, mi[id].service)]| < TRIED_BUCKET_SIZE
    ensures var b := TriedBucket(env, key, mi[id].service); TriedOk(env, key, mj, vv[b := vv[b] + [id]])
  {
    var kb := TriedBucket(env, key, mi[id].service);
    var ww := vv[kb := vv[kb] + [id]];
    forall b | 0 <= b < |ww| ensures TriedBucketOk(env, key, mj, b, ww[b]) {
      assert TriedBucketOk(env, key, mi, b, vv[b]);
    }
  }

  /** With `id` in the place of the entry at `pos`. */
  lemma Replaced(v: seq<Id>, pos: int, id: Id)
    requires NoDup(v) && 0 <= pos < |v| && id !in v
    ensures var w := v[pos := id]; NoDup(w) && forall x :: x in w <==> x == id || (x in v && x != v[pos])
  {
    var w := v[pos := id];
    assert w[pos] == id;
    forall x | x in v && x != v[pos] ensures x in w {
      var i :| 0 <= i < |v| && v[i] == x;
      assert w[i] == x;
    }
    forall x | x in w && x != id ensures x in v && x != v[pos] {
      var i :| 0 <= i < |w| && w[i] == x;
      assert v[i] == x && i != pos;
    }
  }

  lemma ReplacedBucket(env: Env, key: Key, mi: map<Id, AddrInfo>, md: map<Id, AddrInfo>, mj: map<Id, AddrInfo>,
                       bucket: seq<Id>, v: seq<Id>, pos: int, id: Id)
    requires id in mi && !mi[id].fInTried && 0 <= pos < |v| && Demoted(mi, md, v[pos]) && Promoted(md, mj, id)
    requires TriedBucketOk(env, key, mi, TriedBucket(env, key, mi[id].service), bucket)
    requires |v| == |bucket| && NoDup(v) && forall x :: x in v <==> x in bucket
    ensures TriedBucketOk(env, key, mj, TriedBucket(env, key, mi[id].service), v[pos := id])
  {
    hide TriedBucket, NoDup;
    assert v[pos] in v;
    Replaced(v, pos, id);
  }

  lemma OtherBucket(env: Env, key: Key, mi: map<Id, AddrInfo>, md: map<Id, AddrInfo>, mj: map<Id, AddrInfo>,
                    b: int, bucket: seq<Id>, gone: Id, id: Id)
    requires Demoted(mi, md, gone) && Promoted(md, mj, id) && !mi[id].fInTried
    requires TriedBucketOk(env, key, mi, b, bucket) && gone !in bucket
    ensures TriedBucketOk(env, key, mj, b, bucket)
  {
    hide TriedBucket, NoDup;
  }

  /** In a full bucket, `id` takes the place of one tried id. */
  lemma TriedReplace(env: Env, key: Key, mi: map<Id, AddrInfo>, md: map<Id, AddrInfo>, mj: map<Id, AddrInfo>,
                     vv: seq<seq<Id>>, v: seq<Id>, pos: int, id: Id)
    requires TriedOk(env, key, mi, vv) && 0 <= pos < |v|
    requires Demoted(mi, md, v[pos]) && Promoted(md, mj, id)
    requires var kb := TriedBucket(env, key, mi[id].service);
             |v| == |vv[kb]| && NoDup(v) && forall x :: x in v <==> x in vv[kb]
    requires !mi[id].fInTried
    ensures TriedOk(env, key, mj, vv[TriedBucket(env, key, mi[id].service) := v[pos := id]])
  {
    hide TriedBucket, TriedBucketOk, NoDup, Demoted, Promoted;
    KnownAfter(mi, md, mj, v[pos], id);
    var kb := TriedBucket(env, key, mi[id].service);
    assert v[pos] in v;
    UntriedIsApart(env, key, mi, vv[kb], kb, id);
    Replaced(v, pos, id);
    var ww := vv[kb := v[pos := id]];
    ReplacedBucket(env, key, mi, md, mj, vv[kb], v, pos, id);
    forall b | 0 <= b < |ww| ensures TriedBucketOk(env, key, mj, b, ww[b]) {
      if b != kb {
        OneBucketOnly(env, key, mi, b, vv[b], kb, vv[kb], v[pos]);
        OtherBucket(env, key, mi, md, mj, b, vv[b], v[pos], id);
      }
    }
    forall x | x in mj && mj[x].fInTried ensures x in ww[TriedBucket(env, key, mj[x].service)] {
      StillTried(mi, md, mj, v[pos], id, x);
    }
  }

  lemma KnownAfter(mi: map<Id, AddrInfo>, md: map<Id, AddrInfo>, mj: map<Id, AddrInfo>, gone: Id, id: Id)
    requires Demoted(mi, md, gone) && Promoted(md, mj, id)
    ensures id in mi && gone in mi && id in mj
  {
  }

  lemma UntriedIsApart(env: Env, key: Key, mi: map<Id, AddrInfo>, bucket: seq<Id>, b: int, id: Id)
    requires TriedBucketOk(env, key, mi, b, bucket) && id in mi && !mi[id].fInTried
    ensures id !in bucket
  {
  }

  lemma OneBucketOnly(env: Env, key: Key, mi: map<Id, AddrInfo>, b: int, bucket: seq<Id>, c: int, other: seq<Id>, id: Id)
    requires TriedBucketOk(env, key, mi, b, bucket) && TriedBucketOk(env, key, mi, c, other) && b != c && id in other
    ensures id !in bucket
  {
    hide TriedBucket;
  }

  lemma StillTried(mi: map<Id, AddrInfo>, md: map<Id, AddrInfo>, mj: map<Id, AddrInfo>, gone: Id, id: Id, x: Id)
    requires Demoted(mi, md, gone) && Promoted(md, mj, id) && x in mj && mj[x].fInTried
    ensures x in mi && mj[x].service == mi[x].service && (x == id || (x != gone && mi[x].fInTried))
  {
  }

  lemma RefPromote(mi: map<Id, AddrInfo>, mj: map<Id, AddrInfo>, id: Id)
    requires RefOk(mi) && (Promoted(mi, mj, id) || Demoted(mi, mj, id))
    ensures RefOk(mj)
  {
  }

  lemma Parts(env: Env, s: State)
    requires Inv(env, s)
    ensures IdsOk(s.mapInfo, s.nIdCount) && AddrOk(s.mapInfo, s.mapAddr) && RandOk(s.mapInfo, s.vRandom)
    ensures NewOk(s.mapInfo, s.vvNew, NOBODY) && TriedOk(env, s.nKey, s.mapInfo, s.vvTried)
    ensures TallyOk(s.mapInfo, s.nTried, s.nNew) && RefOk(s.mapInfo)
    ensures |s.vvNew| == NEW_BUCKET_COUNT && |s.vvTried| == TRIED_BUCKET_COUNT
    ensures Tables(env, s, NOBODY)
  {
  }

  /** Moving entries between the tables leaves what their addresses and positions tie them to. */
  lemma MovedFrame(mi: map<Id, AddrInfo>, mj: map<Id, AddrInfo>, id: Id)
    requires Promoted(mi, mj, id) || Demoted(mi, mj, id)
    ensures SameTies(mi, mj)
  {
  }

  ghost predicate SameTies(mi: map<Id, AddrInfo>, mj: map<Id, AddrInfo>) {
    mi.Keys == mj.Keys && forall id :: id in mi ==>
      mi[id].service == mj[id].service && mi[id].source == mj[id].source && mi[id].nRandomPos == mj[id].nRandomPos
  }

  lemma TiesFrame(mi: map<Id, AddrInfo>, mj: map<Id, AddrInfo>, ma: map<NetAddr, Id>, vr: seq<Id>, nIdCount: nat)
    requires SameTies(mi, mj) && AddrOk(mi, ma) && RandOk(mi, vr) && IdsOk(mi, nIdCount)
    ensures AddrOk(mj, ma) && RandOk(mj, vr) && IdsOk(mj, nIdCount)
  {
    hide AddrOk, RandOk, IdsOk;
    AddrFrame(mi, mj, ma, nIdCount);
    RandFrame(mi, mj, vr);
  }

  lemma TiesTwice(mi: map<Id, AddrInfo>, mj: map<Id, AddrInfo>, mk: map<Id, AddrInfo>)
    requires SameTies(mi, mj) && SameTies(mj, mk)
    ensures SameTies(mi, mk)
  {
  }

  lemma PromoteKeeps(env: Env, s: State, id: Id, t: State)
    requires Inv(env, s) && Promoted(s.mapInfo, t.mapInfo, id)
    requires |s.vvTried| == TRIED_BUCKET_COUNT
    requires var kb := TriedBucket(env, s.nKey, s.mapInfo[id].service);
      && |s.vvTried[kb]| < TRIED_BUCKET_SIZE
      && t == s.(mapInfo := t.mapInfo, vvTried := s.vvTried[kb := s.vvTried[kb] + [id]],
                 vvNew := Purge(s.vvNew, id), nNew := s.nNew - 1, nTried := s.nTried + 1)
    ensures Inv(env, t)
  {
    hide Promoted, SameTies, NewOk, RandOk, AddrOk, TriedOk, RefOk, IdsOk, Purge, TriedBucket;
    Parts(env, s);
    PromotedIsKnown(s.mapInfo, t.mapInfo, id);
    MovedFrame(s.mapInfo, t.mapInfo, id);
    TiesFrame(s.mapInfo, t.mapInfo, s.mapAddr, s.vRandom, s.nIdCount);
    NewPurge(s.mapInfo, t.mapInfo, s.vvNew, id);
    TriedPromote(env, s.nKey, s.mapInfo, t.mapInfo, s.vvTried, id);
    TallyPromote(s.mapInfo, t.mapInfo, id);
    RefPromote(s.mapInfo, t.mapInfo, id);
  }

  lemma ReplaceKeeps(env: Env, s: State, id: Id, v: seq<Id>, pos: int, target: int,
                     md: map<Id, AddrInfo>, mf: map<Id, AddrInfo>, t: State)
    requires Inv(env, s) && 0 <= pos < |v|
    requires |s.vvTried| == TRIED_BUCKET_COUNT
    requires Promoted(s.mapInfo, md, id) && Demoted(md, t.mapInfo, v[pos]) && v[pos] != id
    requires Demoted(s.mapInfo, mf, v[pos]) && Promoted(mf, t.mapInfo, id)
    requires 0 <= target < |s.vvNew| && |Purge(s.vvNew, id)[target]| < NEW_BUCKET_SIZE
    requires var kb := TriedBucket(env, s.nKey, s.mapInfo[id].service);
      && |v| == |s.vvTried[kb]| && NoDup(v) && (forall x :: x in v <==> x in s.vvTried[kb])
      && t == s.(mapInfo := t.mapInfo, vvTried := s.vvTried[kb := v[pos := id]],
                 vvNew := Purge(s.vvNew, id)[target := Purge(s.vvNew, id)[target] + {v[pos]}])
    ensures Inv(env, t)
  {
    hide Promoted, Demoted, SameTies, NewOk, RandOk, AddrOk, TriedOk, RefOk, IdsOk, NoDup, Purge, TriedBucket;
    Parts(env, s);
    var idOld := v[pos];
    assert idOld in v;
    PromotedIsKnown(s.mapInfo, md, id);
    DemotedIsKnown(s.mapInfo, mf, idOld);
    PromotedKeeps(s.mapInfo, md, id, idOld);
    RefPromote(s.mapInfo, md, id);
    RefPromote(md, t.mapInfo, idOld);
    TriedHaveNoRefs(s.mapInfo, idOld);
    MovedFrame(s.mapInfo, md, id);
    MovedFrame(md, t.mapInfo, idOld);
    TiesTwice(s.mapInfo, md, t.mapInfo);
    TiesFrame(s.mapInfo, t.mapInfo, s.mapAddr, s.vRandom, s.nIdCount);
    NewPurge(s.mapInfo, md, s.vvNew, id);
    NewDemote(md, t.mapInfo, Purge(s.vvNew, id), target, idOld);
    TriedReplace(env, s.nKey, s.mapInfo, mf, t.mapInfo, s.vvTried, v, pos, id);
    TallyPromote(s.mapInfo, md, id);
    TallyDemote(md, t.mapInfo, idOld);
  }

  lemma PromotedIsKnown(mi: map<Id, AddrInfo>, mj: map<Id, AddrInfo>, id: Id)
    requires Promoted(mi, mj, id)
    ensures id in mi && !mi[id].fInTried
  {
  }

  lemma DemotedIsKnown(mi: map<Id, AddrInfo>, mj: map<Id, AddrInfo>, id: Id)
    requires Demoted(mi, mj, id)
    ensures id in mi && mi[id].fInTried
  {
  }

  lemma PromotedKeeps(mi: map<Id, AddrInfo>, mj: map<Id, AddrInfo>, id: Id, other: Id)
    requires Promoted(mi, mj, id) && other in mi && other != id
    ensures other in mj && mj[other] == mi[other]
  {
  }

  lemma TriedHaveNoRefs(mi: map<Id, AddrInfo>, id: Id)
    requires RefOk(mi) && id in mi && mi[id].fInTried
    ensures mi[id].nRefCount == 0
  {
  }

  lemma EntersPurged(s: State, id: Id, nOrigin: int)
    requires NewOk(s.mapInfo, s.vvNew, NOBODY) && 0 <= nOrigin < |s.vvNew| && id in s.vvNew[nOrigin]
    ensures |Purge(s.vvNew, id)[nOrigin]| < NEW_BUCKET_SIZE
  {
    assert |s.vvNew[nOrigin] - {id}| == |s.vvNew[nOrigin]| - 1;
  }

  lemma RefIsCount(s: State, id: Id)
    requires NewOk(s.mapInfo, s.vvNew, NOBODY) && id in s.mapInfo
    ensures s.mapInfo[id].nRefCount == Count(s.vvNew, id)
  {
  }

  lemma BucketTried(env: Env, s: State, b: int)
    requires TriedOk(env, s.nKey, s.mapInfo, s.vvTried) && 0 <= b < |s.vvTried|
    ensures NoDup(s.vvTried[b]) && |s.vvTried[b]| <= TRIED_BUCKET_SIZE
    ensures forall id :: id in s.vvTried[b] ==> id in s.mapInfo && s.mapInfo[id].fInTried
  {
    assert TriedBucketOk(env, s.nKey, s.mapInfo, b, s.vvTried[b]);
  }

  /** The records before and after an eviction, in either order of the two moves. */
  lemma TwoMoves(mi: map<Id, AddrInfo>, id: Id, idOld: Id)
    requires id in mi && !mi[id].fInTried && idOld in mi && mi[idOld].fInTried
    ensures var moved := mi[id].(nRefCount := 0, fInTried := true);
      var demoted := mi[idOld].(fInTried := false, nRefCount := 1);
      var mj := mi[idOld := demoted][id := moved];
      && Promoted(mi, mi[id := moved], id) && Demoted(mi[id := moved], mj, idOld)
      && Demoted(mi, mi[idOld := demoted], idOld) && Promoted(mi[idOld := demoted], mj, id)
  {
  }

  lemma EvictKeeps(env: Env, s: State, id: Id, v: seq<Id>, pos: int, nOrigin: int)
    requires Inv(env, s) && id in s.mapInfo && !s.mapInfo[id].fInTried && 0 <= pos < |v|
    requires |s.vvTried| == TRIED_BUCKET_COUNT && 0 <= nOrigin < |s.vvNew| == NEW_BUCKET_COUNT && id in s.vvNew[nOrigin]
    requires var kb := TriedBucket(env, s.nKey, s.mapInfo[id].service);
      |v| == |s.vvTried[kb]| && NoDup(v) && forall x :: x in v <==> x in s.vvTried[kb]
    ensures var kb := TriedBucket(env, s.nKey, s.mapInfo[id].service);
      && v[pos] in s.mapInfo
      && Inv(env, Evict(env, s, id, s.mapInfo[id].(nRefCount := 0, fInTried := true), Purge(s.vvNew, id), kb, v, pos, nOrigin))
  {
    hide Inv, NewOk, RandOk, AddrOk, TriedOk, RefOk, IdsOk, NoDup, Purge, TallyOk, Promoted, Demoted, TriedBucket, NewBucket;
    Parts(env, s);
    EntersPurged(s, id, nOrigin);
    var kb := TriedBucket(env, s.nKey, s.mapInfo[id].service);
    BucketTried(env, s, kb);
    assert v[pos] in v;
    TwoMoves(s.mapInfo, id, v[pos]);
    var infoOld := s.mapInfo[v[pos]];
    var moved := s.mapInfo[id].(nRefCount := 0, fInTried := true);
    var vv := Purge(s.vvNew, id);
    var t := Evict(env, s, id, moved, vv, kb, v, pos, nOrigin);
    var nUBucket := NewBucket(env, s.nKey, infoOld.service.addr, infoOld.source);
    var target := if |vv[nUBucket]| < NEW_BUCKET_SIZE then nUBucket else nOrigin;
    ReplaceKeeps(env, s, id, v, pos, target, s.mapInfo[id := moved],
                 s.mapInfo[v[pos] := infoOld.(fInTried := false, nRefCount := 1)], t);
  }

  lemma MakeTriedKeeps(env: Env, s: State, id: Id, nOrigin: int, rnd: nat -> nat)
    requires Inv(env, s) && id in s.mapInfo && !s.mapInfo[id].fInTried
    requires 0 <= nOrigin < |s.vvNew| && id in s.vvNew[nOrigin]
    ensures Inv(env, MakeTried(env, s, id, nOrigin, rnd))
  {
    hide Inv, Tables, NewOk, RandOk, AddrOk, TriedOk, RefOk, IdsOk, NoDup, Purge, TallyOk, SelectTried, Count, Evict, TriedBucket,
      EntriesKnown;
    Parts(env, s);
    RefIsCount(s, id);
    var kb := TriedBucket(env, s.nKey, s.mapInfo[id].service);
    BucketTried(env, s, kb);
    if |s.vvTried[kb]| < TRIED_BUCKET_SIZE {
      PromoteKeeps(env, s, id, MakeTried(env, s, id, nOrigin, rnd));
    } else {
      var sel := SelectTried(s.vvTried[kb], s.mapInfo, rnd);
      EvictKeeps(env, s, id, sel.v, sel.nOldestPos, nOrigin);
    }
  }

  lemma MembersReplace(v: seq<Id>, w: seq<Id>, pos: int, id: Id)
    requires NoDup(w) && 0 <= pos < |w| && (forall x :: x in w <==> x in v) && id !in v
    ensures w[pos] in v && Members(w[pos := id]) == Members(v) - {w[pos]} + {id}
  {
    hide NoDup;
    assert w[pos] in w;
    Replaced(w, pos, id);
  }

  /** What happens to the records when `id` becomes tried and `demoted` make room for it. */
  ghost predicate RecordsMoved(mi: map<Id, AddrInfo>, mj: map<Id, AddrInfo>, id: Id, demoted: set<Id>) {
    && mj.Keys == mi.Keys && id in mi && demoted <= mi.Keys - {id}
    && mj[id] == mi[id].(fInTried := true, nRefCount := 0)
    && (forall x :: x in demoted ==> mi[x].fInTried && mj[x] == mi[x].(fInTried := false, nRefCount := 1))
    && (forall x :: x in mi && x != id && x !in demoted ==> mj[x] == mi[x])
  }

  /** What happens to the tried buckets: only bucket `kb` changes. */
  ghost predicate TriedMoved(vv: seq<seq<Id>>, ww: seq<seq<Id>>, kb: int, id: Id, demoted: set<Id>) {
    && |ww| == |vv| && 0 <= kb < |vv| && demoted <= Members(vv[kb])
    && |demoted| == (if |vv[kb]| < 64 then 0 else 1)
    && Members(ww[kb]) == Members(vv[kb]) - demoted + {id}
    && (forall b :: 0 <= b < |vv| && b != kb ==> ww[b] == vv[b])
  }

  /** What happens to the "new" buckets: `id` leaves them all, the demoted enter bucket `target`. */
  ghost predicate NewMoved(vv: seq<set<Id>>, ww: seq<set<Id>>, id: Id, demoted: set<Id>, target: int) {
    && |ww| == |vv|
    && (forall b :: 0 <= b < |vv| ==> ww[b] == vv[b] - {id} + if b == target then demoted else {})
  }

  lemma RecordsMovedOne(mi: map<Id, AddrInfo>, id: Id, idOld: Id)
    requires id in mi && idOld in mi && mi[idOld].fInTried && !mi[id].fInTried
    ensures RecordsMoved(mi, mi[idOld := mi[idOld].(fInTried := false, nRefCount := 1)]
                               [id := mi[id].(nRefCount := 0, fInTried := true)], id, {idOld})
  {
  }

  lemma TriedMovedOne(vv: seq<seq<Id>>, kb: int, v: seq<Id>, pos: int, id: Id)
    requires 0 <= kb < |vv| && |vv[kb]| >= TRIED_BUCKET_SIZE
    requires NoDup(v) && 0 <= pos < |v| && (forall x :: x in v <==> x in vv[kb]) && id !in vv[kb]
    ensures TriedMoved(vv, vv[kb := v[pos := id]], kb, id, {v[pos]})
  {
    MembersReplace(vv[kb], v, pos, id);
  }

  lemma NewMovedOne(vv: seq<set<Id>>, id: Id, idOld: Id, target: int)
    requires 0 <= target < |vv|
    ensures NewMoved(vv, Purge(vv, id)[target := Purge(vv, id)[target] + {idOld}], id, {idOld}, target)
  {
  }

  lemma MakeTriedMovesOne(env: Env, s: State, id: Id, nOrigin: int, rnd: nat -> nat) returns (demoted: set<Id>, target: int)
    requires Inv(env, s) && id in s.mapInfo && !s.mapInfo[id].fInTried
    requires 0 <= nOrigin < |s.vvNew| == NEW_BUCKET_COUNT && |s.vvTried| == TRIED_BUCKET_COUNT
    requires |s.vvTried[TriedBucket(env, s.nKey, s.mapInfo[id].service)]| >= TRIED_BUCKET_SIZE
    ensures var t := MakeTried(env, s, id, nOrigin, rnd);
      && RecordsMoved(s.mapInfo, t.mapInfo, id, demoted)
      && TriedMoved(s.vvTried, t.vvTried, TriedBucket(env, s.nKey, s.mapInfo[id].service), id, demoted)
      && NewMoved(s.vvNew, t.vvNew, id, demoted, target)
      && t == s.(mapInfo := t.mapInfo, vvTried := t.vvTried, vvNew := t.vvNew)
    ensures |demoted| == 1 && forall x :: x in demoted ==> x in s.mapInfo && Destination(env, s, x, id, nOrigin) == target
    ensures EvictsSelected(env, s, MakeTried(env, s, id, nOrigin, rnd), id, rnd, demoted)
  {
    hide Inv, Tables, NewOk, RandOk, AddrOk, TriedOk, RefOk, IdsOk, NoDup, TallyOk, SelectTried, Count, Purge,
      RecordsMoved, TriedMoved, NewMoved;
    Parts(env, s);
    RefIsCount(s, id);
    var kb := TriedBucket(env, s.nKey, s.mapInfo[id].service);
    var v := s.vvTried[kb];
    BucketTried(env, s, kb);
    var sel := SelectTried(v, s.mapInfo, rnd);
    var idOld := sel.v[sel.nOldestPos];
    assert idOld in sel.v;
    demoted := {idOld};
    target := Destination(env, s, idOld, id, nOrigin);
    RecordsMovedOne(s.mapInfo, id, idOld);
    TriedMovedOne(s.vvTried, kb, sel.v, sel.nOldestPos, id);
    NewMovedOne(s.vvNew, id, idOld, target);
  }

  /** Where a demoted entry goes: its own bucket if there is room, else the bucket `id` came from. */
  function Destination(env: Env, s: State, demoted: Id, id: Id, nOrigin: int): int
    requires demoted in s.mapInfo && |s.vvNew| == NEW_BUCKET_COUNT
  {
    var own := NewBucket(env, s.nKey, s.mapInfo[demoted].service.addr, s.mapInfo[demoted].source);
    if |s.vvNew[own] - {id}| < 64 then own else nOrigin
  }

  /** The demoted entry is the one at the position that SelectTried returns, and `id` takes its place
      in the bucket as SelectTried has left it. */
  ghost predicate EvictsSelected(env: Env, s: State, t: State, id: Id, rnd: nat -> nat, demoted: set<Id>)
    requires id in s.mapInfo && |s.vvTried| == TRIED_BUCKET_COUNT
  {
    var kb := TriedBucket(env, s.nKey, s.mapInfo[id].service);
    && |t.vvTried| == |s.vvTried| && s.vvTried[kb] != [] && EntriesKnown(s.mapInfo, s.vvTried[kb])
    && var sel := SelectTried(s.vvTried[kb], s.mapInfo, rnd);
       demoted == {sel.v[sel.nOldestPos]} && t.vvTried[kb] == sel.v[sel.nOldestPos := id]
  }

  /** The whole effect of MakeTried: no record comes or goes, `id` becomes tried, and if
      its bucket was full exactly one tried id is demoted, to exactly one "new" bucket. */
  lemma MakeTriedMoves(env: Env, s: State, id: Id, nOrigin: int, rnd: nat -> nat) returns (demoted: set<Id>, target: int)
    requires Inv(env, s) && id in s.mapInfo && !s.mapInfo[id].fInTried
    requires 0 <= nOrigin < |s.vvNew| == NEW_BUCKET_COUNT && |s.vvTried| == TRIED_BUCKET_COUNT
    ensures var t := MakeTried(env, s, id, nOrigin, rnd);
      && RecordsMoved(s.mapInfo, t.mapInfo, id, demoted)
      && TriedMoved(s.vvTried, t.vvTried, TriedBucket(env, s.nKey, s.mapInfo[id].service), id, demoted)
      && NewMoved(s.vvNew, t.vvNew, id, demoted, target)
      && t == s.(mapInfo := t.mapInfo, vvTried := t.vvTried, vvNew := t.vvNew, nNew := t.nNew, nTried := t.nTried)
    ensures forall x :: x in demoted ==> x in s.mapInfo && Destination(env, s, x, id, nOrigin) == target
    ensures |s.vvTried[TriedBucket(env, s.nKey, s.mapInfo[id].service)]| >= 64
        ==> EvictsSelected(env, s, MakeTried(env, s, id, nOrigin, rnd), id, rnd, demoted)
  {
    hide Inv, Tables, NewOk, RandOk, AddrOk, TriedOk, RefOk, IdsOk, NoDup, TallyOk, SelectTried, Count, Destination, EvictsSelected;
    var kb := TriedBucket(env, s.nKey, s.mapInfo[id].service);
    if |s.vvTried[kb]| < TRIED_BUCKET_SIZE {
      Parts(env, s);
      RefIsCount(s, id);
      demoted, target := {}, 0;
      assert Members(s.vvTried[kb] + [id]) == Members(s.vvTried[kb]) + {id};
    } else {
      hide RecordsMoved, TriedMoved, NewMoved, MakeTried;
      demoted, target := MakeTriedMovesOne(env, s, id, nOrigin, rnd);
    }
  }
}
