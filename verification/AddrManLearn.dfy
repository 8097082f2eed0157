/** Where Add puts an address, and what a bucket gives up for it. */
module AddrManLearn {
  import opened Options
  import opened AddrManState
  import opened AddrManInv
  import opened AddrManTried
  import opened AddrManSteps
  import opened AddrManRuns

  /** `id` is in bucket `b`, which has lost at most one entry, and only if it was full. */
  ghost predicate Entered(vv: seq<set<Id>>, ww: seq<set<Id>>, b: int, id: Id) {
    && |ww| == |vv| && 0 <= b < |vv| && id in ww[b] && ww[b] <= vv[b] + {id}
    && |vv[b] - ww[b]| <= 1 && (id in vv[b] || |vv[b]| < 64 ==> vv[b] <= ww[b])
    && forall c :: 0 <= c < |vv| && c != b ==> ww[c] == vv[c]
  }

  lemma EnteredBy(vv: seq<set<Id>>, ww: seq<set<Id>>, b: int, id: Id, gone: set<Id>)
    requires 0 <= b < |vv| && gone <= vv[b] && |gone| <= 1 && id !in gone
    requires gone != {} ==> id !in vv[b] && |vv[b]| == NEW_BUCKET_SIZE
    requires |ww| == |vv| && ww[b] == vv[b] - gone + {id} && forall c :: 0 <= c < |vv| && c != b ==> ww[c] == vv[c]
    ensures Entered(vv, ww, b, id)
  {
    assert vv[b] - ww[b] == gone;
  }

  lemma AddRefEnters(env: Env, s: State, b: int, id: Id, nNow: int, rnd: nat -> nat)
    requires Tables(env, s, NOBODY) && id in s.mapInfo && 0 <= b < |s.vvNew| && RefRoom(s, b, id)
    ensures Entered(s.vvNew, AddRef(env, s, b, id, nNow, rnd).vvNew, b, id)
  {
    hide Tables, RefRoom, NewOk, RandOk, RefOk, DropRef, AddRef, Entered;
    NewTable(env, s, NOBODY);
    CountAhead(env, s, id);
    BucketFits(s, b, NOBODY);
    var ww := AddRef(env, s, b, id, nNow, rnd).vvNew;
    var gone := AddRefBuckets(env, s, b, id, nNow, rnd);
    EnteredBy(s.vvNew, ww, b, id, gone);
  }

  /** The buckets after AddRef, and what a full one gives up. */
  lemma AddRefBuckets(env: Env, s: State, b: int, id: Id, nNow: int, rnd: nat -> nat) returns (gone: set<Id>)
    requires Tables(env, s, NOBODY) && id in s.mapInfo && 0 <= b < |s.vvNew|
    ensures gone <= s.vvNew[b] && |gone| <= 1 && id !in gone
    ensures gone != {} ==> id !in s.vvNew[b] && |s.vvNew[b]| == NEW_BUCKET_SIZE
    ensures var ww := AddRef(env, s, b, id, nNow, rnd).vvNew;
      |ww| == |s.vvNew| && ww[b] == s.vvNew[b] - gone + {id} && forall c :: 0 <= c < |ww| && c != b ==> ww[c] == s.vvNew[c]
  {
    hide Tables, RandOk, ShrinkNew, ShrinkVictim, CountedAhead, Insert;
    gone := {};
    CountAhead(env, s, id);
    CountedAheadBuckets(s, id);
    var s1 := CountedAhead(s, id);
    if id in s.vvNew[b] {
      SameBuckets(s.vvNew, b, id);
    } else if |s.vvNew[b]| == NEW_BUCKET_SIZE {
      var victim := ShrinkBuckets(s1, b, nNow, rnd);
      gone := {victim};
      InsertBuckets(s.vvNew, ShrinkNew(s1, b, nNow, rnd), b, id, gone);
    } else {
      InsertBuckets(s.vvNew, s1, b, id, {});
    }
  }

  lemma CountedAheadBuckets(s: State, id: Id)
    requires id in s.mapInfo
    ensures CountedAhead(s, id).vvNew == s.vvNew && CountedAhead(s, id).vRandom == s.vRandom
  {
  }

  lemma SameBuckets(vv: seq<set<Id>>, b: int, id: Id)
    requires 0 <= b < |vv| && id in vv[b]
    ensures vv[b] == vv[b] - {} + {id}
  {
  }

  lemma InsertBuckets(vv: seq<set<Id>>, t: State, b: int, id: Id, gone: set<Id>)
    requires 0 <= b < |vv| && (t.vvNew == vv[b := vv[b] - gone] || (t.vvNew == vv && gone == {}))
    ensures var ww := Insert(t, b, id).vvNew;
      |ww| == |vv| && ww[b] == vv[b] - gone + {id} && forall c :: 0 <= c < |ww| && c != b ==> ww[c] == vv[c]
  {
  }

  lemma ShrinkBuckets(s: State, b: int, nNow: int, rnd: nat -> nat) returns (victim: Id)
    requires RandOk(s.mapInfo, s.vRandom) && 0 <= b < |s.vvNew| && s.vvNew[b] != {} && BucketKnown(s.mapInfo, s.vvNew[b])
    ensures victim in s.vvNew[b] && ShrinkNew(s, b, nNow, rnd).vvNew == s.vvNew[b := s.vvNew[b] - {victim}]
  {
    hide RandOk, ShrinkVictim;
    victim := ShrinkVictim(s.vvNew[b], s.mapInfo, nNow, rnd);
    DropRefBuckets(s, b, victim);
  }

  lemma DropRefBuckets(s: State, b: int, id: Id)
    requires RandOk(s.mapInfo, s.vRandom) && 0 <= b < |s.vvNew| && id in s.mapInfo
    ensures DropRef(s, b, id).vvNew == s.vvNew[b := s.vvNew[b] - {id}]
  {
  }

  lemma NotInBuckets(mi: map<Id, AddrInfo>, vv: seq<set<Id>>, id: Id)
    requires NewOk(mi, vv, NOBODY) && id !in mi
    ensures forall c :: 0 <= c < |vv| ==> id !in vv[c]
  {
  }

  /** An address that was not known is known afterwards, under a new id that has one reference,
      from the bucket that its own and its source's group hash to. */
  lemma AddLearns(env: Env, s: State, addr: Address, source: NetAddr, nPenalty: int, nNow: int, rnd: nat -> nat)
    requires Inv(env, s) && Find(s, addr.service.addr) == None && env.routable(addr.service.addr)
    ensures var t := Add(env, s, addr, source, nPenalty, nNow, rnd);
      var b := NewBucket(env, s.nKey, addr.service.addr, source);
      var id := s.nIdCount;
      && Find(t, addr.service.addr) == Some(id) && id in t.mapInfo && t.mapInfo[id].service == addr.service
      && !t.mapInfo[id].fInTried && t.mapInfo[id].nRefCount == 1 && t.mapInfo[id].nAttempts == 0
      && Entered(s.vvNew, t.vvNew, b, id)
      && forall c :: 0 <= c < |t.vvNew| && c != b ==> id !in t.vvNew[c]
  {
    hide Inv, Tables, RandOk, NewOk, TriedOk, AddrOk, RefRoom, RefOk, AddRef, IdsOk, TallyOk, Find, Register, Entered, StatsKept,
      AllStatsKept;
    Parts(env, s);
    UnknownAddr(env, s, addr.service.addr);
    RegisterTables(env, s, addr, source, nPenalty);
    RegisterBuckets(s, addr, source, nPenalty);
    var b := NewBucket(env, s.nKey, addr.service.addr, source);
    AddRefEnters(env, Register(s, addr, source, nPenalty), b, s.nIdCount, nNow, rnd);
    NotInBuckets(s.mapInfo, s.vvNew, s.nIdCount);
    var gone := AddFresh(env, s, addr, source, nPenalty, nNow, rnd);
    var t := Add(env, s, addr, source, nPenalty, nNow, rnd);
    Parts(env, t);
    OneReference(t, s.vvNew, b, s.nIdCount);
    FreshRecord(t, addr, source, s.nIdCount);
  }

  lemma RegisterBuckets(s: State, addr: Address, source: NetAddr, nPenalty: int)
    ensures Register(s, addr, source, nPenalty).vvNew == s.vvNew
  {
  }

  lemma OneReference(t: State, vv: seq<set<Id>>, b: int, id: Id)
    requires NewOk(t.mapInfo, t.vvNew, NOBODY) && id in t.mapInfo && Entered(vv, t.vvNew, b, id)
    requires forall c :: 0 <= c < |vv| ==> id !in vv[c]
    ensures t.mapInfo[id].nRefCount == 1 && forall c :: 0 <= c < |t.vvNew| && c != b ==> id !in t.vvNew[c]
  {
    var ww := t.vvNew[b := t.vvNew[b] - {id}];
    CountUpdate(t.vvNew, b, t.vvNew[b] - {id}, id);
    CountZero(ww, id);
  }

  lemma FreshRecord(t: State, addr: Address, source: NetAddr, id: Id)
    requires AddrOk(t.mapInfo, t.mapAddr) && id in t.mapInfo && StatsKept(NewInfo(addr, source), t.mapInfo[id])
    ensures Find(t, addr.service.addr) == Some(id) && t.mapInfo[id].service == addr.service
    ensures !t.mapInfo[id].fInTried && t.mapInfo[id].nAttempts == 0
  {
  }

  // ----- finding, creating and refreshing a record -----

  /** Find finds an id exactly under the address of its record. */
  lemma FindMeans(env: Env, s: State, addr: NetAddr, id: Id)
    requires Inv(env, s)
    ensures Find(s, addr) == Some(id) <==> id in s.mapInfo && s.mapInfo[id].service.addr == addr
  {
    hide RandOk, NewOk, TriedOk, TallyOk, IdsOk;
  }

  /** A record that is created is found under its address, and all others are found as before. */
  lemma CreateFinds(env: Env, s: State, addr: Address, source: NetAddr, a: NetAddr)
    requires Inv(env, s) && addr.service.addr !in s.mapAddr
    ensures var t := Create(s, addr, source);
      && Find(t, a) == (if a == addr.service.addr then Some(s.nIdCount) else Find(s, a))
      && t.vRandom == s.vRandom + [s.nIdCount] && t.mapInfo[s.nIdCount].nRandomPos == |s.vRandom|
      && s.nIdCount !in s.mapInfo
  {
    hide RandOk, NewOk, TriedOk, TallyOk;
  }

  predicate Includes(services: bv64, some: bv64) {
    services & some == some
  }

  /** An announcement changes the time only to a later one, not later than announced, and only
      if it is newer by an hour at least; it takes no service away; and it changes nothing else. */
  lemma RefreshMeans(info: AddrInfo, addr: Address, nPenalty: nat, nNow: int)
    ensures var r := Refresh(info, addr, nPenalty, nNow);
      && r == info.(nTime := r.nTime, nServices := r.nServices)
      && info.nTime <= r.nTime <= Max(info.nTime, addr.nTime)
      && (r.nTime != info.nTime ==> info.nTime == 0 || info.nTime + 60 * 60 < r.nTime)
      && Includes(r.nServices, info.nServices) && Includes(r.nServices, addr.nServices)
  {
    hide MergeServices, ToUInt32, Includes;
    MergedServices(info.nServices, addr.nServices);
    WholeTime(addr.nTime - nPenalty);
  }

  lemma WholeTime(x: int)
    ensures x < 0x1_0000_0000 ==> ToUInt32(Max(0, x)) == Max(0, x)
  {
  }

  lemma MergedServices(a: bv64, b: bv64)
    ensures Includes(MergeServices(a, b), a) && Includes(MergeServices(a, b), b)
  {
  }
}
