/** CAddrMan: the address manager's methods, carried out field by field. */
module AddrManOps {
  import opened Options
  import opened SortedSets
  import opened AddrManState
  import opened AddrManInv
  import opened AddrManTried
  import Steps = AddrManSteps
  import opened AddrManPersist
  import opened AddrManLoad

  class CAddrMan {
    const env: Env
    var nKey: Key
    var nIdCount: nat
    var mapInfo: map<Id, AddrInfo>
    var mapAddr: map<NetAddr, Id>
    var vRandom: seq<Id>
    var nTried: int
    var vvTried: seq<seq<Id>>
    var nNew: int
    var vvNew: seq<set<Id>>

    /** The fields as one value. */
    ghost function S(): State
      reads this
    {
      State(nKey, nIdCount, mapInfo, mapAddr, vRandom, nTried, vvTried, nNew, vvNew)
    }

    ghost predicate Valid()
      reads this
    {
      Inv(env, S())
    }

    constructor (env: Env, key: Key)
      ensures Valid() && S() == Initial(key) && this.env == env
    {
      this.env := env;
      nKey, nIdCount, nTried, nNew := key, 0, 0, 0;
      mapInfo, mapAddr, vRandom := map[], map[], [];
      vvTried, vvNew := Replicate(TRIED_BUCKET_COUNT, []), Replicate(NEW_BUCKET_COUNT, {});
      new;
      Steps.InitialInv(env, key);
    }

    method SwapRandom(nRndPos1: int, nRndPos2: int)
      requires RandOk(mapInfo, vRandom)
      requires nRndPos1 == nRndPos2 || (0 <= nRndPos1 < |vRandom| && 0 <= nRndPos2 < |vRandom|)
      modifies this`mapInfo, this`vRandom
      ensures S() == AddrManState.SwapRandom(old(S()), nRndPos1, nRndPos2)
    {
      if nRndPos1 == nRndPos2 {
        return;
      }
      var nId1, nId2 := vRandom[nRndPos1], vRandom[nRndPos2];
      mapInfo := mapInfo[nId1 := mapInfo[nId1].(nRandomPos := nRndPos2)];
      mapInfo := mapInfo[nId2 := mapInfo[nId2].(nRandomPos := nRndPos1)];
      vRandom := vRandom[nRndPos1 := nId2];
      vRandom := vRandom[nRndPos2 := nId1];
    }

    /** The end of that block: a record without references goes. */
    method Delete(nId: Id)
      requires RandOk(mapInfo, vRandom) && nId in mapInfo
      modifies this`mapInfo, this`mapAddr, this`vRandom, this`nNew
      ensures S() == AddrManState.Delete(old(S()), nId)
    {
      hide RandOk, AddrManState.SwapRandom, AddrManState.Delete;
      ghost var s := S();
      PositionOf(mapInfo, vRandom, nId);
      DeleteIs(s, nId);
      SwapRandom(mapInfo[nId].nRandomPos, |vRandom| - 1);
      vRandom := vRandom[..|vRandom| - 1];
      mapAddr := mapAddr - {mapInfo[nId].service.addr};
      mapInfo := mapInfo - {nId};
      nNew := nNew - 1;
    }

    /** The block that ShrinkNew runs, in either of its places, on the entry it has picked. */
    method DropRef(nUBucket: int, nId: Id)
      requires RandOk(mapInfo, vRandom) && nId in mapInfo && 0 <= nUBucket < |vvNew|
      modifies this`mapInfo, this`mapAddr, this`vRandom, this`nNew, this`vvNew
      ensures S() == AddrManState.DropRef(old(S()), nUBucket, nId)
    {
      hide RandOk, AddrManState.Delete;
      ghost var s := S();
      var info := mapInfo[nId];
      RefChange(mapInfo, vRandom, nId, info.nRefCount - 1);
      mapInfo := mapInfo[nId := info.(nRefCount := info.nRefCount - 1)];
      ghost var u := S();
      DeleteApart(u, nId, s.vvNew[nUBucket := s.vvNew[nUBucket] - {nId}]);
      if mapInfo[nId].nRefCount == 0 {
        Delete(nId);
      }
      vvNew := vvNew[nUBucket := vvNew[nUBucket] - {nId}];
    }

    /** Returns 0 if a terrible entry was removed, 1 if the oldest of four drawn ones was. */
    method ShrinkNew(nUBucket: int, nNow: int, rnd: nat -> nat) returns (r: int)
      requires RandOk(mapInfo, vRandom) && 0 <= nUBucket < |vvNew| && vvNew[nUBucket] != {}
      requires BucketKnown(mapInfo, vvNew[nUBucket])
      modifies this`mapInfo, this`mapAddr, this`vRandom, this`nNew, this`vvNew
      ensures S() == AddrManState.ShrinkNew(old(S()), nUBucket, nNow, rnd)
      ensures r == 0 <==> exists id :: id in old(vvNew)[nUBucket] && IsTerrible(old(mapInfo)[id], nNow)
      ensures r == 0 || r == 1
    {
      hide RandOk, AddrManState.DropRef, Sorted, IsTerrible, ShrinkVictim, FourDraws;
      var ids := Sorted(vvNew[nUBucket]);
      ghost var s := S();
      var i := 0;
      while i < |ids|
        invariant i <= |ids| && S() == s
        invariant FirstTerrible(ids, mapInfo, nNow, i) == FirstTerrible(ids, mapInfo, nNow, 0)
        invariant forall k :: 0 <= k < i ==> !IsTerrible(mapInfo[ids[k]], nNow)
      {
        if IsTerrible(mapInfo[ids[i]], nNow) {
          VictimIs(s.vvNew[nUBucket], s.mapInfo, nNow, rnd);
          DropRef(nUBucket, ids[i]);
          return 0;
        }
        i := i + 1;
      }
      var drawn := FourDraws(rnd, |ids|);
      var nI: nat := 0;
      var nOldest: int := -1;
      while nI < |ids|
        invariant nI <= |ids| && S() == s
        invariant nOldest == OldestDrawn(ids, mapInfo, drawn, nI)
      {
        if nI in drawn {
          if nOldest == -1 || mapInfo[ids[nI]].nTime < mapInfo[nOldest].nTime {
            nOldest := ids[nI];
          }
        }
        nI := nI + 1;
      }
      VictimIs(s.vvNew[nUBucket], s.mapInfo, nNow, rnd);
      DropRef(nUBucket, nOldest);
      return 1;
    }

    /** The position, in tried bucket `nKBucket`, of the entry to replace. */
    method SelectTried(nKBucket: int, rnd: nat -> nat) returns (nOldestPos: int)
      requires 0 <= nKBucket < |vvTried| && forall id :: id in vvTried[nKBucket] ==> id in mapInfo
      modifies this`vvTried
      ensures var sel := AddrManState.SelectTried(old(vvTried)[nKBucket], mapInfo, rnd);
              vvTried == old(vvTried)[nKBucket := sel.v] && nOldestPos == sel.nOldestPos
    {
      hide SelectRounds, GetRandInt, NoDup, Exchange;
      ghost var v := vvTried[nKBucket];
      var nOldest: int := -1;
      nOldestPos := -1;
      var i: nat := 0;
      while i < TRIED_ENTRIES_INSPECT_ON_EVICT && i < |vvTried[nKBucket]|
        invariant 0 <= i <= Rounds(v)
        invariant |vvTried| == |old(vvTried)|
        invariant vvTried == old(vvTried)[nKBucket := vvTried[nKBucket]]
        invariant SelectRounds(v, mapInfo, rnd, i) == Selection(vvTried[nKBucket], nOldest, nOldestPos)
      {
        ghost var p := Selection(vvTried[nKBucket], nOldest, nOldestPos);
        var vTried := vvTried[nKBucket];
        var nPos := GetRandInt(rnd(i + 1), |vTried| - i) + i;
        var nTemp := vTried[nPos];
        assert nTemp in p.v;
        vTried := vTried[nPos := vTried[i]];
        vTried := vTried[i := nTemp];
        assert nPos == Drawn(p.v, rnd, i) && vTried == p.v[nPos := p.v[i]][i := p.v[nPos]];
        vvTried := vvTried[nKBucket := vTried];
        if nOldest == -1 || mapInfo[nTemp].nLastSuccess < mapInfo[nOldest].nLastSuccess {
          nOldest := nTemp;
          nOldestPos := nPos;
        }
        RoundIs(v, mapInfo, rnd, i, p, Selection(vTried, nOldest, nOldestPos));
        i := i + 1;
      }
    }

    /** Take `nId` out of every "new" bucket, one reference at a time. */
    method LeaveNewBuckets(nId: Id)
      requires nId in mapInfo
      modifies this`mapInfo, this`vvNew
      ensures vvNew == Purge(old(vvNew), nId)
      ensures mapInfo == old(mapInfo)[nId := old(mapInfo)[nId].(nRefCount := old(mapInfo)[nId].nRefCount - Count(old(vvNew), nId))]
    {
      hide Count;
      NoBuckets(nId);
      var b := 0;
      while b < |vvNew|
        invariant 0 <= b <= |vvNew| == |old(vvNew)|
        invariant forall k :: 0 <= k < |vvNew| ==>
                    vvNew[k] == if k < b then old(vvNew)[k] - {nId} else old(vvNew)[k]
        invariant mapInfo == old(mapInfo)[nId := old(mapInfo)[nId].(nRefCount := old(mapInfo)[nId].nRefCount - Count(old(vvNew)[..b], nId))]
      {
        CountPrefix(old(vvNew), b, nId);
        if nId in vvNew[b] {
          vvNew := vvNew[b := vvNew[b] - {nId}];
          mapInfo := mapInfo[nId := mapInfo[nId].(nRefCount := mapInfo[nId].nRefCount - 1)];
        }
        b := b + 1;
      }
      assert old(vvNew)[..b] == old(vvNew);
    }

    /** Give the place of one entry of the full tried bucket `nKBucket` to `nId`. */
    method Replace(nKBucket: int, nId: Id, nOrigin: int, rnd: nat -> nat)
      requires 0 <= nKBucket < |vvTried| && vvTried[nKBucket] != []
      requires forall id :: id in vvTried[nKBucket] ==> id in mapInfo && id != nId
      requires nId in mapInfo && 0 <= nOrigin < |vvNew| == NEW_BUCKET_COUNT
      modifies this`mapInfo, this`vvTried, this`vvNew, this`nNew
      ensures var sel := AddrManState.SelectTried(old(vvTried)[nKBucket], old(mapInfo), rnd);
        && sel.v[sel.nOldestPos] in old(mapInfo)
        && S() == Evict(env, old(S()), nId, old(mapInfo)[nId].(fInTried := true), old(vvNew), nKBucket, sel.v,
                        sel.nOldestPos, nOrigin).(nNew := old(nNew) + 1)
    {
      hide AddrManState.SelectTried, Evict;
      ghost var s := S();
      var nPos := SelectTried(nKBucket, rnd);
      assert vvTried[nKBucket][nPos] in vvTried[nKBucket];
      EvictOverwrites(env, s, nId, mapInfo[nId].(fInTried := true), vvNew, nKBucket, vvTried[nKBucket], nPos, nOrigin);
      Demote(nKBucket, nPos, nId, nOrigin);
    }

    /** The entry at `nPos` makes room for `nId` and goes to a "new" bucket. */
    method Demote(nKBucket: int, nPos: int, nId: Id, nOrigin: int)
      requires 0 <= nKBucket < |vvTried| && 0 <= nPos < |vvTried[nKBucket]|
      requires vvTried[nKBucket][nPos] in mapInfo && vvTried[nKBucket][nPos] != nId
      requires nId in mapInfo && 0 <= nOrigin < |vvNew| == NEW_BUCKET_COUNT
      modifies this`mapInfo, this`vvTried, this`vvNew, this`nNew
      ensures S() == Evict(env, old(S()), nId, old(mapInfo)[nId].(fInTried := true), old(vvNew), nKBucket,
                           old(vvTried)[nKBucket], nPos, nOrigin).(nNew := old(nNew) + 1)
    {
      hide NewBucket, Evict;
      ghost var s := S();
      var nOld := vvTried[nKBucket][nPos];
      var nUBucket := NewBucket(env, nKey, mapInfo[nOld].service.addr, mapInfo[nOld].source);
      mapInfo := mapInfo[nOld := mapInfo[nOld].(fInTried := false)];
      mapInfo := mapInfo[nOld := mapInfo[nOld].(nRefCount := 1)];
      assert mapInfo == s.mapInfo[nOld := s.mapInfo[nOld].(fInTried := false, nRefCount := 1)];
      if |vvNew[nUBucket]| < NEW_BUCKET_SIZE {
        vvNew := vvNew[nUBucket := vvNew[nUBucket] + {nOld}];
      } else {
        vvNew := vvNew[nOrigin := vvNew[nOrigin] + {nOld}];
      }
      nNew := nNew + 1;
      var vTried: seq<Id> := vvTried[nKBucket][nPos := nId];
      vvTried := vvTried[nKBucket := vTried];
      mapInfo := mapInfo[nId := mapInfo[nId].(fInTried := true)];
      EvictIs(env, s, nId, s.mapInfo[nId].(fInTried := true), s.vvNew, nKBucket, s.vvTried[nKBucket], nPos, nOrigin, nUBucket,
        mapInfo, vvTried, vvNew);
    }

    method MakeTried(nId: Id, nOrigin: int, rnd: nat -> nat)
      requires Valid() && nId in mapInfo && !mapInfo[nId].fInTried
      requires 0 <= nOrigin < |vvNew| && nId in vvNew[nOrigin]
      modifies this
      ensures Valid() && S() == AddrManState.MakeTried(env, old(S()), nId, nOrigin, rnd)
    {
      hide Inv, Tables, RandOk, NewOk, AddrOk, TriedOk, TallyOk, RefOk, NoDup, Count, AddrManState.SelectTried, Purge,
        AddrManState.MakeTried, Evict, TriedBucket;
      ghost var s := S();
      Parts(env, s);
      RefIsCount(s, nId);
      MakeTriedKeeps(env, s, nId, nOrigin, rnd);
      ghost var t := AddrManState.MakeTried(env, s, nId, nOrigin, rnd);

      LeaveNewBuckets(nId);
      nNew := nNew - 1;
      assert mapInfo[nId].nRefCount == 0;
      MakeTriedFrom(env, s, S(), nId, nOrigin, rnd);

      var nKBucket := TriedBucket(env, nKey, mapInfo[nId].service);
      if |vvTried[nKBucket]| < TRIED_BUCKET_SIZE {
        vvTried := vvTried[nKBucket := vvTried[nKBucket] + [nId]];
        nTried := nTried + 1;
        mapInfo := mapInfo[nId := mapInfo[nId].(fInTried := true)];
      } else {
        Replace(nKBucket, nId, nOrigin, rnd);
      }
      assert S() == t;
    }

    method Find(addr: NetAddr) returns (r: Option<Id>)
      ensures r == AddrManState.Find(S(), addr)
    {
      if addr !in mapAddr {
        return None;
      }
      var nId := mapAddr[addr];
      if nId !in mapInfo {
        return None;
      }
      return Some(nId);
    }

    method Good_(addr: Service, nTime: int, rnd: nat -> nat)
      requires Valid()
      modifies this
      ensures Valid() && S() == Steps.Good(env, old(S()), addr, nTime, rnd)
    {
      hide Inv, AddrManState.MakeTried, Scan, MarkGood, GetRandInt, Steps.Good;
      ghost var s := S();
      var found := Find(addr.addr);
      if found.None? {
        GoodOfOther(env, s, addr, nTime, rnd);
        return;
      }
      var nId := found.value;
      if mapInfo[nId].service != addr {
        GoodOfOther(env, s, addr, nTime, rnd);
        return;
      }
      GoodSteps(env, s, addr, nTime, rnd, nId);
      Mark(nId, nTime);
      if mapInfo[nId].fInTried {
        return;
      }
      var nUBucket := ScanNew(nId, GetRandInt(rnd(0), |vvNew|));
      if nUBucket == -1 {
        return;
      }
      MakeTried(nId, nUBucket, rnd);
    }

    /** The updates of Good_ to the record itself. */
    method Mark(nId: Id, nTime: int)
      requires nId in mapInfo
      modifies this`mapInfo
      ensures S() == Touch(old(S()), nId, MarkGood(old(mapInfo)[nId], nTime))
    {
      hide ToUInt32;
      ghost var mi := mapInfo;
      mapInfo := mapInfo[nId := mapInfo[nId].(nLastSuccess := nTime)];
      mapInfo := mapInfo[nId := mapInfo[nId].(nLastTry := nTime)];
      assert mapInfo == mi[nId := mi[nId].(nLastSuccess := nTime, nLastTry := nTime)];
      mapInfo := mapInfo[nId := mapInfo[nId].(nTime := ToUInt32(nTime))];
      assert mapInfo == mi[nId := mi[nId].(nLastSuccess := nTime, nLastTry := nTime, nTime := ToUInt32(nTime))];
      mapInfo := mapInfo[nId := mapInfo[nId].(nAttempts := 0)];
      assert mapInfo == mi[nId := MarkGood(mi[nId], nTime)];
    }

    /** The search of Good_ for a bucket that holds `nId`, starting at bucket `nRnd`. */
    method ScanNew(nId: Id, nRnd: nat) returns (nUBucket: int)
      requires nRnd < |vvNew|
      ensures nUBucket == Scan(vvNew, nId, nRnd, 0)
    {
      nUBucket := -1;
      var n: nat := 0;
      while n < |vvNew|
        invariant n <= |vvNew|
        invariant Scan(vvNew, nId, nRnd, 0) == Scan(vvNew, nId, nRnd, n)
      {
        var nB := Rotated(n, nRnd, |vvNew|);
        if nId in vvNew[nB] {
          nUBucket := nB;
          return;
        }
        n := n + 1;
      }
    }

    /** The last step of Add_: a reference from bucket `nUBucket`, if it does not hold `nId` yet. */
    method AddRef(nUBucket: int, nId: Id, nNow: int, rnd: nat -> nat)
      requires Tables(env, S(), NOBODY) && nId in mapInfo && 0 <= nUBucket < |vvNew|
      modifies this
      ensures S() == AddrManState.AddRef(env, old(S()), nUBucket, nId, nNow, rnd)
    {
      hide Tables, RandOk, AddrManState.ShrinkNew;
      if nId !in vvNew[nUBucket] {
        CountAhead(env, S(), nId);
        mapInfo := mapInfo[nId := mapInfo[nId].(nRefCount := mapInfo[nId].nRefCount + 1)];
        if |vvNew[nUBucket]| == NEW_BUCKET_SIZE {
          var _ := ShrinkNew(nUBucket, nNow, rnd);
        }
        vvNew := vvNew[nUBucket := vvNew[nUBucket] + {nId}];
      }
    }

    method Create(addr: Address, source: NetAddr) returns (nId: Id)
      modifies this`nIdCount, this`mapInfo, this`mapAddr, this`vRandom
      ensures nId == old(nIdCount) && S() == AddrManState.Create(old(S()), addr, source)
    {
      nId := nIdCount;
      nIdCount := nIdCount + 1;
      mapInfo := mapInfo[nId := NewInfo(addr, source)];
      mapAddr := mapAddr[addr.service.addr := nId];
      mapInfo := mapInfo[nId := mapInfo[nId].(nRandomPos := |vRandom|)];
      vRandom := vRandom + [nId];
    }

    /** The stochastic test: each reference already held makes another one twice as unlikely. */
    method PassesDraw(nRefCount: int, raw: nat) returns (ok: bool)
      ensures ok == !(RefFactor(nRefCount) > 1 && GetRandInt(raw, RefFactor(nRefCount)) != 0)
      ensures ok <==> nRefCount <= 0 || raw % Numerals.Pow(2, nRefCount) == 0
    {
      var nFactor := 1;
      var n := 0;
      while n < nRefCount
        invariant 0 <= n && (nRefCount >= 0 ==> n <= nRefCount) && (nRefCount < 0 ==> n == 0)
        invariant nFactor == Numerals.Pow(2, n)
      {
        nFactor := nFactor * 2;
        n := n + 1;
      }
      ok := !(nFactor > 1 && GetRandInt(raw, nFactor) != 0);
      PowerAtLeastTwo(nRefCount);
    }

    /** The updates of Add_ to a record it already has. */
    method Refresh(nId: Id, addr: Address, nTimePenalty: int, nNow: int)
      requires nId in mapInfo
      modifies this`mapInfo
      ensures mapInfo == old(mapInfo)[nId := AddrManState.Refresh(old(mapInfo)[nId], addr, nTimePenalty, nNow)]
    {
      hide ToUInt32, MergeServices;
      var info := mapInfo[nId];
      var fCurrentlyOnline := nNow - addr.nTime < 24 * 60 * 60;
      var nUpdateInterval := if fCurrentlyOnline then 60 * 60 else 24 * 60 * 60;
      if addr.nTime != 0 && (info.nTime == 0 || info.nTime < addr.nTime - nUpdateInterval - nTimePenalty) {
        info := info.(nTime := ToUInt32(Max(0, addr.nTime - nTimePenalty)));
      }
      info := info.(nServices := MergeServices(info.nServices, addr.nServices));
      mapInfo := mapInfo[nId := info];
    }

    /** The creation of a record in Add_. */
    method Register(addr: Address, source: NetAddr, nTimePenalty: int) returns (nId: Id)
      modifies this`nIdCount, this`mapInfo, this`mapAddr, this`vRandom, this`nNew
      ensures nId == old(nIdCount) && S() == Steps.Register(old(S()), addr, source, nTimePenalty)
    {
      nId := Create(addr, source);
      mapInfo := mapInfo[nId := mapInfo[nId].(nTime := ToUInt32(Max(0, mapInfo[nId].nTime - nTimePenalty)))];
      nNew := nNew + 1;
    }

    /** Returns whether the address was not known before. */
    method Add_(addr: Address, source: NetAddr, nTimePenalty: int, nNow: int, rnd: nat -> nat) returns (fNew: bool)
      requires Valid()
      modifies this
      ensures S() == Steps.Add(env, old(S()), addr, source, nTimePenalty, nNow, rnd)
      ensures Valid()
      ensures fNew <==> env.routable(addr.service.addr) && AddrManState.Find(old(S()), addr.service.addr).None?
    {
      hide Inv, RandOk, NewOk, TriedOk, AddrOk, RefOk, IdsOk, TallyOk, AddrManState.AddRef, GetRandInt,
        Steps.Registered, Steps.RefRoom, AddrManState.Find, Numerals.Pow, AddrManState.Refresh, Steps.Register;
      if !env.routable(addr.service.addr) {
        return false;
      }
      ghost var s := S();
      Parts(env, s);
      var found := Find(addr.service.addr);
      var nId: Id;
      if found.Some? {
        nId := found.value;
        Steps.FindKnown(s, addr.service.addr);
        Steps.RefreshLinks(mapInfo[nId], addr, nTimePenalty, nNow);
        TouchKeeps(env, s, nId, AddrManState.Refresh(mapInfo[nId], addr, nTimePenalty, nNow));
        Refresh(nId, addr, nTimePenalty, nNow);
        Parts(env, S());
        if addr.nTime == 0 || (mapInfo[nId].nTime != 0 && addr.nTime <= mapInfo[nId].nTime) {
          return false;
        }
        if mapInfo[nId].fInTried {
          return false;
        }
        if mapInfo[nId].nRefCount == NEW_BUCKETS_PER_ADDRESS {
          return false;
        }
        var ok := PassesDraw(mapInfo[nId].nRefCount, rnd(0));
        if !ok {
          return false;
        }
        fNew := false;
      } else {
        Steps.RegisterTables(env, s, addr, source, nTimePenalty);
        nId := Register(addr, source, nTimePenalty);
        fNew := true;
      }
      var nUBucket := NewBucket(env, nKey, mapInfo[nId].service.addr, source);
      AddRef(nUBucket, nId, nNow, rnd);
    }

    method Attempt_(addr: Service, nTime: int)
      requires Valid()
      modifies this
      ensures Valid() && S() == Steps.Attempt(env, old(S()), addr, nTime)
    {
      hide Inv;
      ghost var s := S();
      var found := Find(addr.addr);
      if found.None? || mapInfo[found.value].service != addr {
        return;
      }
      var nId := found.value;
      TouchKeeps(env, s, nId, mapInfo[nId].(nLastTry := nTime, nAttempts := mapInfo[nId].nAttempts + 1));
      mapInfo := mapInfo[nId := mapInfo[nId].(nLastTry := nTime)];
      mapInfo := mapInfo[nId := mapInfo[nId].(nAttempts := mapInfo[nId].nAttempts + 1)];
      assert S() == Touch(s, nId, s.mapInfo[nId].(nLastTry := nTime, nAttempts := s.mapInfo[nId].nAttempts + 1));
    }

    method Connected_(addr: Service, nTime: int)
      requires Valid()
      modifies this
      ensures Valid() && S() == Steps.Connected(env, old(S()), addr, nTime)
    {
      hide Inv;
      var found := Find(addr.addr);
      if found.None? || mapInfo[found.value].service != addr {
        return;
      }
      var nId := found.value;
      var nUpdateInterval := 20 * 60;
      if nTime - mapInfo[nId].nTime > nUpdateInterval {
        TouchKeeps(env, S(), nId, mapInfo[nId].(nTime := ToUInt32(nTime)));
        mapInfo := mapInfo[nId := mapInfo[nId].(nTime := ToUInt32(nTime))];
      }
    }

    /** The addresses handed out are those that the shuffle leaves first in `vRandom`. */
    method GetAddr_(rnd: nat -> nat) returns (vAddr: seq<Address>)
      requires Valid()
      modifies this
      ensures Valid()
      ensures var k := Steps.GetAddrCount(|old(vRandom)|);
        && S() == Steps.GetAddrRounds(env, old(S()), rnd, k)
        && |vAddr| == k
        && forall i :: 0 <= i < k ==>
          vRandom[i] in mapInfo
          && (var info := mapInfo[vRandom[i]]; vAddr[i] == Address(info.service, info.nServices, info.nTime))
      ensures forall i :: 0 <= i < |vAddr| ==> vAddr[i].service.addr in mapAddr
      ensures forall i, j :: 0 <= i < j < |vAddr| ==> vAddr[i].service.addr != vAddr[j].service.addr
    {
      hide Inv, Tables, RandOk, AddrManState.SwapRandom, Steps.GetAddrRounds, SameButPos, Steps.ToAddress, GetRandInt,
        Steps.HandedOut;
      ghost var s := S();
      Steps.HandedOutNone(s);
      Steps.GetAddrStart(env, s, rnd);
      var nNodes := GETADDR_MAX_PCT * |vRandom| / 100;
      if nNodes > GETADDR_MAX {
        nNodes := GETADDR_MAX;
      }
      vAddr := [];
      var n: nat := 0;
      while n < nNodes
        invariant n <= nNodes == Steps.GetAddrCount(|s.vRandom|)
        invariant |vRandom| == |s.vRandom| && nKey == s.nKey
        invariant Valid() && S() == Steps.GetAddrRounds(env, s, rnd, n)
        invariant |vAddr| == n && Steps.HandedOut(S(), vAddr)
      {
        var nRndPos := GetRandInt(rnd(n), |vRandom| - n) + n;
        ghost var before := S();
        Steps.GetAddrStep(env, s, rnd, n);
        Steps.HandOut(before, n, nRndPos, vAddr);
        SwapRandom(n, nRndPos);
        vAddr := vAddr + [Steps.ToAddress(mapInfo[vRandom[n]])];
        n := n + 1;
      }
      Steps.HandedOutDiffer(env, S(), vAddr);
    }

    // ----- the file -----

    /** The fields cleared, and the new records read. */
    method ReadNews(d: Disk)
      requires d.nNew == |d.news| && d.nTried == |d.trieds| && |d.buckets| == NEW_BUCKET_COUNT
      modifies this
      ensures S() == LoadNew(d, |d.news|)
    {
      hide LoadNew;
      LoadSteps(env, d);
      nKey, nNew, nTried := d.nKey, d.nNew, d.nTried;
      nIdCount := 0;
      mapInfo, mapAddr, vRandom := map[], map[], [];
      vvTried, vvNew := Replicate(TRIED_BUCKET_COUNT, []), Replicate(NEW_BUCKET_COUNT, {});
      var n: nat := 0;
      while n < nNew
        invariant n <= nNew == |d.news|
        invariant S() == LoadNew(d, n)
      {
        LoadNewStep(d, n);
        AppendRecord(FromDisk(d.news[n]));
        n := n + 1;
      }
    }

    /** The tried records read, each into its bucket if there is room. */
    method ReadTrieds(d: Disk)
      requires S() == LoadNew(d, |d.news|)
      modifies this
      ensures S() == LoadTried(env, d, |d.trieds|)
    {
      hide LoadNew, LoadTried, TriedBucket;
      var nLost := 0;
      var n: nat := 0;
      LoadTriedStart(env, d);
      while n < |d.trieds|
        invariant n <= |d.trieds|
        invariant S().(nTried := nTried - nLost) == LoadTried(env, d, n)
      {
        LoadTriedStep(env, d, n);
        var info := FromDisk(d.trieds[n]);
        var nKBucket := TriedBucket(env, nKey, info.service);
        if |vvTried[nKBucket]| < TRIED_BUCKET_SIZE {
          vvTried := vvTried[nKBucket := vvTried[nKBucket] + [nIdCount]];
          AppendRecord(info.(fInTried := true));
        } else {
          nLost := nLost + 1;
        }
        n := n + 1;
      }
      nTried := nTried - nLost;
    }

    /** Write the manager to disk. */
    method Serialize() returns (d: Disk)
      requires Valid()
      ensures BucketsReferred(S()) && d == Save(S())
    {
      hide Inv, NewSeq, TriedSeq, Sorted, Infos, Indices;
      ghost var s := S();
      SavedIds(env, s);
      var ids := Sorted(mapInfo.Keys);
      var news, mapUnkIds := WriteNews(ids, mapInfo, nNew);
      var trieds := WriteTrieds(ids, mapInfo, nTried);
      var buckets := WriteBuckets(vvNew, News(s), mapUnkIds);
      d := Disk(nKey, nNew, nTried, news, trieds, buckets);
      SaveIs(s, d);
    }

    /** Replace the manager by what a file says. */
    method Unserialize(d: Disk)
      requires d.nNew == |d.news| && d.nTried == |d.trieds| && |d.buckets| == NEW_BUCKET_COUNT
      modifies this
      ensures S() == Load(env, d)
    {
      hide LoadNew, LoadTried, LoadBuckets, LoadBucket;
      ReadNews(d);
      ReadTrieds(d);
      ghost var u := S();
      LoadedTables(env, d);
      var b: nat := 0;
      LoadBucketsStart(u, d.buckets);
      while b < NEW_BUCKET_COUNT
        invariant b <= NEW_BUCKET_COUNT == |u.vvNew| == |vvNew|
        invariant S() == LoadBuckets(u, d.buckets, b)
      {
        LoadBucketsStep(u, d.buckets, b);
        LoadOneBucket(b, d.buckets[b]);
        b := b + 1;
      }
    }

    method AppendRecord(info: AddrInfo)
      modifies this`nIdCount, this`mapInfo, this`mapAddr, this`vRandom
      ensures S() == Append(old(S()), info)
    {
      var nId := nIdCount;
      mapInfo := mapInfo[nId := info.(nRandomPos := |vRandom|)];
      mapAddr := mapAddr[info.service.addr := nId];
      vRandom := vRandom + [nId];
      nIdCount := nIdCount + 1;
    }

    method LoadOneBucket(b: nat, refs: seq<Id>)
      requires b < |vvNew|
      modifies this`mapInfo, this`vvNew
      ensures S() == LoadBucket(old(S()), b, refs, |refs|)
    {
      hide LoadBucket;
      ghost var u := S();
      var n: nat := 0;
      LoadBucketStart(u, b, refs);
      while n < |refs|
        invariant n <= |refs| && |vvNew| == |u.vvNew|
        invariant S() == LoadBucket(u, b, refs, n)
      {
        LoadBucketStep(u, b, refs, n);
        var nIndex := refs[n];
        var info := InfoAt(mapInfo, nIndex);
        mapInfo := mapInfo[nIndex := info];
        if info.nRefCount < NEW_BUCKETS_PER_ADDRESS {
          mapInfo := mapInfo[nIndex := info.(nRefCount := info.nRefCount + 1)];
          vvNew := vvNew[b := vvNew[b] + {nIndex}];
        }
        n := n + 1;
      }
    }
  }

  /** What is left to do once `id` has left the "new" buckets. */
  lemma MakeTriedFrom(env: Env, s: State, u: State, id: Id, nOrigin: int, rnd: nat -> nat)
    requires Inv(env, s) && id in s.mapInfo && !s.mapInfo[id].fInTried
    requires 0 <= nOrigin < |s.vvNew| == NEW_BUCKET_COUNT && |s.vvTried| == TRIED_BUCKET_COUNT
    requires u == s.(mapInfo := s.mapInfo[id := s.mapInfo[id].(nRefCount := 0)], vvNew := Purge(s.vvNew, id), nNew := s.nNew - 1)
    ensures var kb := TriedBucket(env, s.nKey, s.mapInfo[id].service);
      var moved := u.mapInfo[id].(fInTried := true);
      var t := AddrManState.MakeTried(env, s, id, nOrigin, rnd);
      && (forall x :: x in u.vvTried[kb] ==> x in u.mapInfo && x != id)
      && if |u.vvTried[kb]| < TRIED_BUCKET_SIZE
         then t == u.(mapInfo := u.mapInfo[id := moved], vvTried := u.vvTried[kb := u.vvTried[kb] + [id]], nTried := u.nTried + 1)
         else
           var sel := AddrManState.SelectTried(u.vvTried[kb], u.mapInfo, rnd);
           && sel.v[sel.nOldestPos] in u.mapInfo
           && t == Evict(env, u, id, moved, u.vvNew, kb, sel.v, sel.nOldestPos, nOrigin).(nNew := u.nNew + 1)
  {
    hide Inv, Tables, RandOk, NewOk, AddrOk, TriedOk, TallyOk, RefOk, NoDup, Count, AddrManState.SelectTried, Purge, TriedBucket,
      NewBucket, EntriesKnown, Evict;
    Parts(env, s);
    RefIsCount(s, id);
    var kb := TriedBucket(env, s.nKey, s.mapInfo[id].service);
    BucketTried(env, s, kb);
    SelectFrame(s.vvTried[kb], s.mapInfo, u.mapInfo, rnd);
    if |s.vvTried[kb]| >= TRIED_BUCKET_SIZE {
      var sel := AddrManState.SelectTried(s.vvTried[kb], s.mapInfo, rnd);
      assert sel.v[sel.nOldestPos] in sel.v;
      EvictIgnores(env, s, id, u.mapInfo[id], u.mapInfo[id].(fInTried := true), u.vvNew, u.nNew, kb, sel.v, sel.nOldestPos, nOrigin);
    }
  }

  lemma PowerAtLeastTwo(n: int)
    ensures n > 0 ==> Numerals.Pow(2, n) >= 2
  {
    if n > 0 {
      Numerals.PowMonotone(2, 1, n);
      assert Numerals.Pow(2, 1) == 2;
    }
  }

  lemma MarkedLinks(info: AddrInfo, nTime: int)
    ensures SameLinks(info, MarkGood(info, nTime))
  {
  }

  lemma NoBuckets(id: Id)
    ensures Count([], id) == 0
  {
  }

  /** Good of the record `id`, with its steps. */
  lemma GoodSteps(env: Env, s: State, service: Service, nTime: int, rnd: nat -> nat, id: Id)
    requires Inv(env, s) && Find(s, service.addr) == Some(id) && s.mapInfo[id].service == service
    ensures var s1 := Touch(s, id, MarkGood(s.mapInfo[id], nTime)); var t := Steps.Good(env, s, service, nTime, rnd);
      && Inv(env, s1) && |s1.vvNew| == NEW_BUCKET_COUNT && s1.mapInfo[id].fInTried == s.mapInfo[id].fInTried
      && if s.mapInfo[id].fInTried then t == s1 else
         var b := Scan(s1.vvNew, id, GetRandInt(rnd(0), |s1.vvNew|), 0);
         if b == -1 then t == s1 else t == AddrManState.MakeTried(env, s1, id, b, rnd)
  {
    hide Inv, AddrManState.MakeTried, Scan, GetRandInt, MarkGood;
    MarkedLinks(s.mapInfo[id], nTime);
    TouchKeeps(env, s, id, MarkGood(s.mapInfo[id], nTime));
    Parts(env, Touch(s, id, MarkGood(s.mapInfo[id], nTime)));
  }

  lemma GoodOfOther(env: Env, s: State, service: Service, nTime: int, rnd: nat -> nat)
    requires Inv(env, s) && (Find(s, service.addr).Some? ==> s.mapInfo[Find(s, service.addr).value].service != service)
    ensures Steps.Good(env, s, service, nTime, rnd) == s
  {
    hide Inv;
  }

  lemma PositionOf(mi: map<Id, AddrInfo>, vr: seq<Id>, id: Id)
    requires RandOk(mi, vr) && id in mi
    ensures 0 <= mi[id].nRandomPos < |vr| && vr[mi[id].nRandomPos] == id
  {
  }

  lemma DeleteIs(s: State, id: Id)
    requires RandOk(s.mapInfo, s.vRandom) && id in s.mapInfo
    ensures var s1 := AddrManState.SwapRandom(s, s.mapInfo[id].nRandomPos, |s.vRandom| - 1);
      && id in s1.mapInfo && |s1.vRandom| == |s.vRandom| > 0
      && AddrManState.Delete(s, id) == s1.(vRandom := s1.vRandom[..|s1.vRandom| - 1],
                                           mapAddr := s1.mapAddr - {s1.mapInfo[id].service.addr},
                                           mapInfo := s1.mapInfo - {id}, nNew := s1.nNew - 1)
  {
    hide RandOk, AddrManState.SwapRandom;
    PositionOf(s.mapInfo, s.vRandom, id);
    SwapKeeps(s, s.mapInfo[id].nRandomPos, |s.vRandom| - 1);
  }

  /** Deleting a record does not touch the "new" buckets, or depend on them. */
  lemma DeleteApart(s: State, id: Id, vv: seq<set<Id>>)
    requires RandOk(s.mapInfo, s.vRandom) && id in s.mapInfo
    ensures AddrManState.Delete(s, id).vvNew == s.vvNew
    ensures AddrManState.Delete(s.(vvNew := vv), id) == AddrManState.Delete(s, id).(vvNew := vv)
  {
    hide RandOk;
  }

  lemma RefChange(mi: map<Id, AddrInfo>, vr: seq<Id>, id: Id, n: int)
    requires RandOk(mi, vr) && id in mi
    ensures RandOk(mi[id := mi[id].(nRefCount := n)], vr)
    ensures 0 <= mi[id].nRandomPos < |vr|
  {
    RandFrame(mi, mi[id := mi[id].(nRefCount := n)], vr);
  }

  lemma VictimIs(bucket: set<Id>, mi: map<Id, AddrInfo>, nNow: int, rnd: nat -> nat)
    requires BucketKnown(mi, bucket) && bucket != {}
    ensures var ids := Sorted(bucket);
            var t := FirstTerrible(ids, mi, nNow, 0);
            var victim := ShrinkVictim(bucket, mi, nNow, rnd);
            victim in bucket && victim == if t != -1 then t else OldestDrawn(ids, mi, FourDraws(rnd, |ids|), |ids|)
  {
  }

  /** SelectTried looks only at the success times of the ids in the bucket. */
  lemma SelectFrame(v: seq<Id>, mi: map<Id, AddrInfo>, mj: map<Id, AddrInfo>, rnd: nat -> nat)
    requires forall id :: id in v ==> id in mi && id in mj && mi[id].nLastSuccess == mj[id].nLastSuccess
    ensures AddrManState.SelectTried(v, mi, rnd) == AddrManState.SelectTried(v, mj, rnd)
  {
    SelectRoundsFrame(v, mi, mj, rnd, Rounds(v));
  }

  lemma {:induction false} SelectRoundsFrame(v: seq<Id>, mi: map<Id, AddrInfo>, mj: map<Id, AddrInfo>, rnd: nat -> nat, i: nat)
    requires i <= |v|
    requires forall id :: id in v ==> id in mi && id in mj && mi[id].nLastSuccess == mj[id].nLastSuccess
    ensures SelectRounds(v, mi, rnd, i) == SelectRounds(v, mj, rnd, i)
  {
    hide SelectRounds, SelectRound, Exchange, NoDup;
    if i > 0 {
      SelectRoundsFrame(v, mi, mj, rnd, i - 1);
      SelectStep(v, mi, rnd, i - 1);
      SelectStep(v, mj, rnd, i - 1);
      RoundFrame(SelectRounds(v, mi, rnd, i - 1), mi, mj, rnd, i - 1);
    }
  }

  lemma RoundFrame(p: Selection, mi: map<Id, AddrInfo>, mj: map<Id, AddrInfo>, rnd: nat -> nat, i: nat)
    requires i < |p.v| && (p.nOldest == -1 || p.nOldest in p.v)
    requires forall id :: id in p.v ==> id in mi && id in mj && mi[id].nLastSuccess == mj[id].nLastSuccess
    ensures SelectRound(p, mi, rnd, i) == SelectRound(p, mj, rnd, i)
  {
    hide Exchange, NoDup;
    assert p.v[Drawn(p.v, rnd, i)] in p.v;
  }
}
