/** The small steps of the address manager keep its tables in agreement. */
module AddrManInv {
  import opened AddrManState

  // ----- counting references -----

  lemma {:induction false} CountUpdate(vv: seq<set<Id>>, b: int, bucket: set<Id>, id: Id)
    requires 0 <= b < |vv|
    ensures Count(vv[b := bucket], id)
         == Count(vv, id) - (if id in vv[b] then 1 else 0) + if id in bucket then 1 else 0
  {
    var last := |vv| - 1;
    var ww := vv[b := bucket];
    if b == last {
      assert ww[..last] == vv[..last];
    } else {
      assert ww[..last] == vv[..last][b := bucket];
      CountUpdate(vv[..last], b, bucket, id);
    }
  }

  lemma {:induction false} CountZero(vv: seq<set<Id>>, id: Id)
    ensures Count(vv, id) == 0 <==> forall b :: 0 <= b < |vv| ==> id !in vv[b]
  {
    if vv != [] {
      var last := |vv| - 1;
      CountZero(vv[..last], id);
      assert forall b :: 0 <= b < last ==> vv[..last][b] == vv[b];
    }
  }

  lemma {:induction false} CountPurge(vv: seq<set<Id>>, gone: Id, id: Id)
    ensures Count(Purge(vv, gone), id) == if id == gone then 0 else Count(vv, id)
  {
    if vv != [] {
      var last := |vv| - 1;
      assert Purge(vv, gone)[..last] == Purge(vv[..last], gone);
      CountPurge(vv[..last], gone, id);
    }
  }

  lemma {:induction false} CountPrefix(vv: seq<set<Id>>, b: nat, id: Id)
    requires b < |vv|
    ensures Count(vv[..b + 1], id) == Count(vv[..b], id) + if id in vv[b] then 1 else 0
    ensures Count(vv[..b + 1], id) <= Count(vv, id)
    decreases |vv|
  {
    assert vv[..b + 1][..b] == vv[..b];
    if b + 1 == |vv| {
      assert vv[..b + 1] == vv;
    } else {
      var ww := vv[..|vv| - 1];
      assert ww[..b + 1] == vv[..b + 1];
      CountPrefix(ww, b, id);
    }
  }

  // ----- vRandom -----

  ghost predicate SameButPos(mi: map<Id, AddrInfo>, mj: map<Id, AddrInfo>) {
    mi.Keys == mj.Keys && forall id :: id in mi ==> mj[id] == mi[id].(nRandomPos := mj[id].nRandomPos)
  }

  lemma SwapRand(mi: map<Id, AddrInfo>, vr: seq<Id>, pos1: int, pos2: int, mj: map<Id, AddrInfo>, vs: seq<Id>)
    requires RandOk(mi, vr) && 0 <= pos1 < |vr| && 0 <= pos2 < |vr| && pos1 != pos2
    requires vs == vr[pos1 := vr[pos2]][pos2 := vr[pos1]] && mj.Keys == mi.Keys
    requires mj[vr[pos1]] == mi[vr[pos1]].(nRandomPos := pos2)
    requires mj[vr[pos2]] == mi[vr[pos2]].(nRandomPos := pos1)
    requires forall id :: id in mi && id != vr[pos1] && id != vr[pos2] ==> mj[id] == mi[id]
    ensures RandOk(mj, vs) && SameButPos(mi, mj)
  {
    hide RandOk, SameButPos;
    SwapPositions(mi, vr, pos1, pos2, mj, vs);
    SwapRecords(mi, vr, pos1, pos2, mj, vs);
  }

  lemma SwapPositions(mi: map<Id, AddrInfo>, vr: seq<Id>, pos1: int, pos2: int, mj: map<Id, AddrInfo>, vs: seq<Id>)
    requires RandOk(mi, vr) && 0 <= pos1 < |vr| && 0 <= pos2 < |vr| && pos1 != pos2
    requires vs == vr[pos1 := vr[pos2]][pos2 := vr[pos1]] && mj.Keys == mi.Keys
    requires mj[vr[pos1]] == mi[vr[pos1]].(nRandomPos := pos2)
    requires mj[vr[pos2]] == mi[vr[pos2]].(nRandomPos := pos1)
    requires forall id :: id in mi && id != vr[pos1] && id != vr[pos2] ==> mj[id] == mi[id]
    ensures RandOk(mj, vs)
  {
    forall i | 0 <= i < |vs| ensures vs[i] in mj && mj[vs[i]].nRandomPos == i {
      assert vr[i] in mi && mi[vr[i]].nRandomPos == i;
    }
    forall id | id in mj ensures 0 <= mj[id].nRandomPos < |vs| && vs[mj[id].nRandomPos] == id {
      assert vr[mi[id].nRandomPos] == id;
    }
  }

  lemma SwapRecords(mi: map<Id, AddrInfo>, vr: seq<Id>, pos1: int, pos2: int, mj: map<Id, AddrInfo>, vs: seq<Id>)
    requires RandOk(mi, vr) && 0 <= pos1 < |vr| && 0 <= pos2 < |vr| && pos1 != pos2
    requires vs == vr[pos1 := vr[pos2]][pos2 := vr[pos1]] && mj.Keys == mi.Keys
    requires mj[vr[pos1]] == mi[vr[pos1]].(nRandomPos := pos2)
    requires mj[vr[pos2]] == mi[vr[pos2]].(nRandomPos := pos1)
    requires forall id :: id in mi && id != vr[pos1] && id != vr[pos2] ==> mj[id] == mi[id]
    ensures SameButPos(mi, mj)
  {
  }

  lemma SwapKeeps(s: State, pos1: int, pos2: int)
    requires RandOk(s.mapInfo, s.vRandom)
    requires pos1 == pos2 || (0 <= pos1 < |s.vRandom| && 0 <= pos2 < |s.vRandom|)
    ensures var t := SwapRandom(s, pos1, pos2);
      && t == s.(mapInfo := t.mapInfo, vRandom := t.vRandom)
      && RandOk(t.mapInfo, t.vRandom) && SameButPos(s.mapInfo, t.mapInfo) && |t.vRandom| == |s.vRandom|
      && (0 <= pos1 < |s.vRandom| ==> s.vRandom[pos1] in t.mapInfo && t.mapInfo[s.vRandom[pos1]].nRandomPos == pos2)
  {
    var t := SwapRandom(s, pos1, pos2);
    if pos1 != pos2 {
      var id1, id2 := s.vRandom[pos1], s.vRandom[pos2];
      assert id1 != id2;
      SwapRand(s.mapInfo, s.vRandom, pos1, pos2, t.mapInfo, t.vRandom);
    }
  }

  /** Everything but RandOk survives a change of positions. */
  lemma SameButPosKeeps(env: Env, s: State, t: State, pend: int)
    requires Tables(env, s, pend) && SameButPos(s.mapInfo, t.mapInfo)
    requires t == s.(mapInfo := t.mapInfo, vRandom := t.vRandom)
    requires RandOk(t.mapInfo, t.vRandom)
    ensures Tables(env, t, pend)
  {
    PlacesFrame(env, s, t.mapInfo);
    NewFrame(s.mapInfo, t.mapInfo, s.vvNew, pend);
  }

  // ----- forgetting a record -----

  lemma TallyRemove(mi: map<Id, AddrInfo>, id: Id)
    requires id in mi && !mi[id].fInTried
    ensures |TriedIds(mi - {id})| == |TriedIds(mi)|
    ensures |NewIds(mi - {id})| == |NewIds(mi)| - 1
  {
    assert TriedIds(mi - {id}) == TriedIds(mi);
    assert NewIds(mi - {id}) == NewIds(mi) - {id};
  }

  lemma RandRemove(mi: map<Id, AddrInfo>, vr: seq<Id>, id: Id)
    requires RandOk(mi, vr) && id in mi && mi[id].nRandomPos == |vr| - 1
    ensures RandOk(mi - {id}, vr[..|vr| - 1])
  {
  }

  lemma TriedRemove(env: Env, key: Key, mi: map<Id, AddrInfo>, vv: seq<seq<Id>>, id: Id)
    requires TriedOk(env, key, mi, vv) && id in mi && !mi[id].fInTried
    ensures TriedOk(env, key, mi - {id}, vv)
  {
    forall b | 0 <= b < |vv| ensures TriedBucketOk(env, key, mi - {id}, b, vv[b]) {
      assert TriedBucketOk(env, key, mi, b, vv[b]);
    }
  }

  lemma NewRemove(mi: map<Id, AddrInfo>, vv: seq<set<Id>>, id: Id, pend: int)
    requires NewOk(mi, vv, pend) && Count(vv, id) == 0
    ensures NewOk(mi - {id}, vv, pend)
  {
    CountZero(vv, id);
  }

  lemma AddrRemove(mi: map<Id, AddrInfo>, ma: map<NetAddr, Id>, id: Id)
    requires AddrOk(mi, ma) && id in mi
    ensures AddrOk(mi - {id}, ma - {mi[id].service.addr})
  {
  }

  /** Striking the record that is last in `vRandom`. */
  lemma StrikeLast(env: Env, s: State, id: Id, pend: int, t: State)
    requires Tables(env, s, pend) && id in s.mapInfo && !s.mapInfo[id].fInTried
    requires Count(s.vvNew, id) == 0 && s.mapInfo[id].nRandomPos == |s.vRandom| - 1
    requires t == s.(vRandom := s.vRandom[..|s.vRandom| - 1],
                     mapAddr := s.mapAddr - {s.mapInfo[id].service.addr},
                     mapInfo := s.mapInfo - {id},
                     nNew := s.nNew - 1)
    ensures Tables(env, t, pend)
  {
    RandRemove(s.mapInfo, s.vRandom, id);
    TallyRemove(s.mapInfo, id);
    TriedRemove(env, s.nKey, s.mapInfo, s.vvTried, id);
    NewRemove(s.mapInfo, s.vvNew, id, pend);
    AddrRemove(s.mapInfo, s.mapAddr, id);
    hide AddrOk, RandOk, NewOk, TriedOk;
  }

  lemma PlaceInRandom(env: Env, s: State, pend: int, id: Id)
    requires Tables(env, s, pend) && id in s.mapInfo
    ensures RandOk(s.mapInfo, s.vRandom)
    ensures 0 <= s.mapInfo[id].nRandomPos < |s.vRandom| && s.vRandom[s.mapInfo[id].nRandomPos] == id
  {
  }

  lemma DeleteKeeps(env: Env, s: State, id: Id, pend: int)
    requires Tables(env, s, pend) && id in s.mapInfo && !s.mapInfo[id].fInTried && id != pend
    requires Count(s.vvNew, id) == 0
    ensures var t := Delete(s, id);
            Tables(env, t, pend) && SameButPos(s.mapInfo - {id}, t.mapInfo) && t.vvNew == s.vvNew
  {
    hide Tables, RandOk, SwapRandom, SameButPos, Count;
    PlaceInRandom(env, s, pend, id);
    var last := |s.vRandom| - 1;
    var s1 := SwapRandom(s, s.mapInfo[id].nRandomPos, last);
    SwapKeeps(s, s.mapInfo[id].nRandomPos, last);
    SameButPosKeeps(env, s, s1, pend);
    SameButPosWithout(s.mapInfo, s1.mapInfo, id);
    StrikeLast(env, s1, id, pend, Delete(s, id));
  }

  lemma SameButPosWithout(mi: map<Id, AddrInfo>, mj: map<Id, AddrInfo>, id: Id)
    requires SameButPos(mi, mj) && id in mi
    ensures id in mj && mj[id] == mi[id].(nRandomPos := mj[id].nRandomPos) && SameButPos(mi - {id}, mj - {id})
  {
  }

  // ----- references come and go -----

  lemma NewUnref(mi: map<Id, AddrInfo>, vv: seq<set<Id>>, b: int, id: Id, pend: int)
    requires NewOk(mi, vv, pend) && 0 <= b < |vv| && id in vv[b]
    ensures id in mi
    ensures NewOk(mi[id := mi[id].(nRefCount := mi[id].nRefCount - 1)], vv[b := vv[b] - {id}], pend)
  {
    var mj := mi[id := mi[id].(nRefCount := mi[id].nRefCount - 1)];
    var ww := vv[b := vv[b] - {id}];
    forall x | x in mj ensures mj[x].nRefCount == Count(ww, x) + if x == pend then 1 else 0 {
      CountUpdate(vv, b, vv[b] - {id}, x);
    }
  }

  lemma NewTable(env: Env, s: State, pend: int)
    requires Tables(env, s, pend)
    ensures NewOk(s.mapInfo, s.vvNew, pend)
  {
  }

  lemma UnrefKeeps(env: Env, s: State, b: int, id: Id, pend: int)
    requires Tables(env, s, pend) && id in s.mapInfo && 0 <= b < |s.vvNew| && id in s.vvNew[b]
    ensures Tables(env, Unref(s, b, id), pend)
  {
    hide Tables, NewOk;
    NewTable(env, s, pend);
    NewUnref(s.mapInfo, s.vvNew, b, id, pend);
    NewChanged(env, s, pend, Unref(s, b, id), pend);
  }

  ghost predicate SameButRef(mi: map<Id, AddrInfo>, mj: map<Id, AddrInfo>) {
    mi.Keys == mj.Keys && forall id :: id in mi ==> mj[id] == mi[id].(nRefCount := mj[id].nRefCount)
  }

  /** Only buckets and reference counts have changed, and they agree. */
  lemma NewChanged(env: Env, s: State, pend: int, t: State, pend': int)
    requires Tables(env, s, pend) && SameButRef(s.mapInfo, t.mapInfo)
    requires t == s.(mapInfo := t.mapInfo, vvNew := t.vvNew) && NewOk(t.mapInfo, t.vvNew, pend')
    ensures Tables(env, t, pend')
  {
    PlacesFrame(env, s, t.mapInfo);
    RandFrame(s.mapInfo, t.mapInfo, s.vRandom);
    hide NewOk;
  }

  lemma NewTriedApart(env: Env, s: State, b: int, id: Id, pend: int)
    requires NewOk(s.mapInfo, s.vvNew, pend) && RefOk(s.mapInfo) && 0 <= b < |s.vvNew| && id in s.vvNew[b]
    ensures id in s.mapInfo && !s.mapInfo[id].fInTried
  {
    CountZero(s.vvNew, id);
  }

  lemma NoBucketLeft(mi: map<Id, AddrInfo>, vv: seq<set<Id>>, b: int, id: Id, pend: int)
    requires NewOk(mi, vv, pend) && 0 <= b < |vv| && id in vv[b] && id != pend && mi[id].nRefCount == 1
    ensures Count(vv[b := vv[b] - {id}], id) == 0
  {
    CountUpdate(vv, b, vv[b] - {id}, id);
  }

  lemma DropRefKeeps(env: Env, s: State, b: int, id: Id, pend: int)
    requires Tables(env, s, pend) && RefOk(s.mapInfo)
    requires id in s.mapInfo && 0 <= b < |s.vvNew| && id in s.vvNew[b] && id != pend
    ensures var t := DropRef(s, b, id);
      && Tables(env, t, pend) && RefOk(t.mapInfo)
      && (forall x :: x in s.mapInfo && x != id ==>
            x in t.mapInfo && t.mapInfo[x] == s.mapInfo[x].(nRandomPos := t.mapInfo[x].nRandomPos))
      && t.vvNew == s.vvNew[b := s.vvNew[b] - {id}]
      && |t.vvNew[b]| == |s.vvNew[b]| - 1
  {
    hide Tables, NewOk, RandOk, RefOk, Delete, SameButPos, Count;
    NewTable(env, s, pend);
    PlaceInRandom(env, s, pend, id);
    NewTriedApart(env, s, b, id, pend);
    var s1 := Unref(s, b, id);
    assert |s1.vvNew[b]| == |s.vvNew[b]| - 1;
    UnrefKeeps(env, s, b, id, pend);
    if s.mapInfo[id].nRefCount == 1 {
      NoBucketLeft(s.mapInfo, s.vvNew, b, id, pend);
      PlaceInRandom(env, s1, pend, id);
      DeleteKeeps(env, s1, id, pend);
      AfterDelete(s.mapInfo, s1.mapInfo, Delete(s1, id).mapInfo, id);
    } else {
      AfterUnref(s.mapInfo, s1.mapInfo, id);
    }
  }

  lemma AfterUnref(mi: map<Id, AddrInfo>, mj: map<Id, AddrInfo>, id: Id)
    requires RefOk(mi) && id in mi && !mi[id].fInTried && mi[id].nRefCount != 1
    requires mj == mi[id := mi[id].(nRefCount := mi[id].nRefCount - 1)]
    ensures RefOk(mj) && forall x :: x in mi && x != id ==> x in mj && mj[x] == mi[x].(nRandomPos := mj[x].nRandomPos)
  {
  }

  lemma AfterDelete(mi: map<Id, AddrInfo>, mj: map<Id, AddrInfo>, mk: map<Id, AddrInfo>, id: Id)
    requires RefOk(mi) && id in mi && mj == mi[id := mi[id].(nRefCount := mi[id].nRefCount - 1)]
    requires SameButPos(mj - {id}, mk)
    ensures RefOk(mk) && forall x :: x in mi && x != id ==> x in mk && mk[x] == mi[x].(nRandomPos := mk[x].nRandomPos)
  {
    assert mj - {id} == mi - {id};
  }

  lemma NewInsert(mi: map<Id, AddrInfo>, vv: seq<set<Id>>, b: int, id: Id)
    requires NewOk(mi, vv, id) && id in mi && 0 <= b < |vv| && id !in vv[b] && |vv[b]| < NEW_BUCKET_SIZE
    ensures NewOk(mi, vv[b := vv[b] + {id}], NOBODY)
  {
    forall x | x in mi ensures mi[x].nRefCount == Count(vv[b := vv[b] + {id}], x) {
      CountUpdate(vv, b, vv[b] + {id}, x);
    }
  }

  lemma InsertKeeps(env: Env, s: State, b: int, id: Id)
    requires Tables(env, s, id) && id in s.mapInfo && 0 <= b < |s.vvNew|
    requires id !in s.vvNew[b] && |s.vvNew[b]| < NEW_BUCKET_SIZE
    ensures Tables(env, Insert(s, b, id), NOBODY)
  {
    NewInsert(s.mapInfo, s.vvNew, b, id);
    hide NewOk;
  }
}
