/** What the calls do to the fields of a record, and when an entry counts as terrible. */
module AddrManFields {
  import opened Options
  import opened SortedSets
  import opened AddrManState
  import opened AddrManInv
  import opened AddrManTried
  import opened AddrManSteps
  import opened AddrManRuns
  import opened AddrManLearn

  // ----- terrible entries -----

  /** An entry tried in the last minute never is; any other is for one of five reasons. */
  lemma TerribleExactly(info: AddrInfo, now: int)
    ensures IsTerrible(info, now) <==>
      && (info.nLastTry == 0 || now - info.nLastTry > 60)
      && (|| info.nTime - now > 600
          || info.nTime == 0
          || now - info.nTime > 2592000
          || (info.nAttempts >= 3 && info.nLastSuccess == 0)
          || (info.nAttempts >= 10 && now - info.nLastSuccess > 604800))
  {
  }

  /** After Good an entry is not terrible for thirty days. */
  lemma GoodIsNotTerrible(env: Env, s: State, service: Service, nTime: int, rnd: nat -> nat, id: Id, now: int)
    requires Inv(env, s) && id in s.mapInfo && s.mapInfo[id].service == service && 0 < nTime < 0x1_0000_0000
    ensures var t := Good(env, s, service, nTime, rnd); id in t.mapInfo && (IsTerrible(t.mapInfo[id], now) <==> now > nTime + 2592000)
  {
    hide Inv, Good, IsTerrible, Find;
    FindMeans(env, s, service.addr, id);
    GoodMarks(env, s, service, nTime, rnd);
    TerribleExactly(Good(env, s, service, nTime, rnd).mapInfo[id], now);
  }

  // ----- Attempt and Connected -----

  /** Attempt changes the record with exactly this service, if there is one: its last try and
      the number of its attempts. */
  lemma AttemptMeans(env: Env, s: State, service: Service, nTime: int)
    requires Inv(env, s)
    ensures var t := Attempt(env, s, service, nTime);
      && t == s.(mapInfo := t.mapInfo) && t.mapInfo.Keys == s.mapInfo.Keys
      && forall id :: id in s.mapInfo ==>
        var i := s.mapInfo[id];
        t.mapInfo[id] == if i.service == service then i.(nLastTry := nTime, nAttempts := i.nAttempts + 1) else i
  {
    hide Inv;
    OneWithService(env, s, service);
  }

  /** Connected changes the time of that record, if it is more than twenty minutes old. */
  lemma ConnectedMeans(env: Env, s: State, service: Service, nTime: int)
    requires Inv(env, s)
    ensures var t := Connected(env, s, service, nTime);
      && t == s.(mapInfo := t.mapInfo) && t.mapInfo.Keys == s.mapInfo.Keys
      && forall id :: id in s.mapInfo ==>
        var i := s.mapInfo[id];
        t.mapInfo[id] == if i.service == service && nTime > i.nTime + 1200 then i.(nTime := nTime % 0x1_0000_0000) else i
  {
    hide Inv;
    OneWithService(env, s, service);
  }

  lemma OneWithService(env: Env, s: State, service: Service)
    requires Inv(env, s)
    ensures forall id :: id in s.mapInfo && s.mapInfo[id].service == service ==> Find(s, service.addr) == Some(id)
    ensures Find(s, service.addr).Some? ==> Find(s, service.addr).value in s.mapInfo
  {
    hide RandOk, NewOk, TriedOk, TallyOk, IdsOk, RefOk;
  }

  // ----- Add on a known address -----

  /** Whether an announcement is new enough to change the time of a record. */
  predicate Due(info: AddrInfo, addr: Address, nPenalty: int, nNow: int) {
    var nInterval := if nNow - addr.nTime < 86400 then 3600 else 86400;
    addr.nTime != 0 && (info.nTime == 0 || info.nTime + nInterval + nPenalty < addr.nTime)
  }

  /** The announced time less the penalty, in 32 bits. */
  function Announced(addr: Address, nPenalty: int): (time: uint32)
    ensures nPenalty >= 0 ==> time == if addr.nTime < nPenalty then 0 else addr.nTime - nPenalty
  {
    if addr.nTime < nPenalty then 0 else (addr.nTime - nPenalty) % 0x1_0000_0000
  }

  /** A record that has been announced again: its time if that is due, and its services with
      those announced. */
  function Renewed(info: AddrInfo, addr: Address, nPenalty: int, nNow: int): AddrInfo {
    info.(nTime := if Due(info, addr, nPenalty, nNow) then Announced(addr, nPenalty) else info.nTime,
          nServices := info.nServices | addr.nServices)
  }

  lemma RefreshRenews(info: AddrInfo, addr: Address, nPenalty: int, nNow: int)
    ensures Refresh(info, addr, nPenalty, nNow) == Renewed(info, addr, nPenalty, nNow)
  {
  }

  lemma RenewedRefs(info: AddrInfo, addr: Address, nPenalty: int, nNow: int)
    ensures var r := Renewed(info, addr, nPenalty, nNow);
      r.nRefCount == info.nRefCount && r.fInTried == info.fInTried && r.service == info.service
  {
  }

  /** The draw that a record with this many references passes once in two, four or eight times. */
  predicate Lucky(nRefCount: int, raw: nat) {
    if nRefCount == 1 then raw % 2 == 0 else if nRefCount == 2 then raw % 4 == 0 else raw % 8 == 0
  }

  /** Whether an announcement is still news for a record that it has renewed, and adds a
      reference to it. */
  predicate Gains(info: AddrInfo, addr: Address, raw: nat) {
    && addr.nTime != 0 && (info.nTime == 0 || info.nTime < addr.nTime)
    && !info.fInTried && info.nRefCount < 4 && Lucky(info.nRefCount, raw)
  }

  lemma MayAddRefGains(info: AddrInfo, addr: Address, raw: nat)
    requires info.fInTried || 1 <= info.nRefCount <= NEW_BUCKETS_PER_ADDRESS
    ensures MayAddRef(info, addr, raw) <==> Gains(info, addr, raw)
  {
    if !info.fInTried && info.nRefCount < 4 {
      SmallFactors();
    }
  }

  lemma SmallFactors()
    ensures RefFactor(1) == 2 && RefFactor(2) == 4 && RefFactor(3) == 8
  {
    assert Numerals.Pow(2, 1) == 2;
    assert Numerals.Pow(2, 2) == 4;
  }

  // ----- which entry makes room -----

  lemma {:induction false} TerribleFrame(ids: seq<Id>, mi: map<Id, AddrInfo>, mj: map<Id, AddrInfo>, nNow: int, k: nat)
    requires k <= |ids| && forall id :: id in ids ==> id in mi && id in mj && mi[id] == mj[id]
    ensures FirstTerrible(ids, mi, nNow, k) == FirstTerrible(ids, mj, nNow, k)
    decreases |ids| - k
  {
    hide IsTerrible;
    if k < |ids| {
      TerribleFrame(ids, mi, mj, nNow, k + 1);
    }
  }

  lemma {:induction false} OldestFrame(ids: seq<Id>, mi: map<Id, AddrInfo>, mj: map<Id, AddrInfo>, drawn: set<Id>, k: nat)
    requires k <= |ids| && forall id :: id in ids ==> id in mi && id in mj && mi[id] == mj[id]
    ensures OldestDrawn(ids, mi, drawn, k) == OldestDrawn(ids, mj, drawn, k)
  {
    if k > 0 {
      OldestFrame(ids, mi, mj, drawn, k - 1);
    }
  }

  lemma VictimFrame(bucket: set<Id>, mi: map<Id, AddrInfo>, mj: map<Id, AddrInfo>, nNow: int, rnd: nat -> nat)
    requires forall id :: id in bucket ==> id in mi && id in mj && mi[id] == mj[id]
    ensures ShrinkVictim(bucket, mi, nNow, rnd) == ShrinkVictim(bucket, mj, nNow, rnd)
  {
    hide FourDraws, FirstTerrible, OldestDrawn;
    var ids := Sorted(bucket);
    TerribleFrame(ids, mi, mj, nNow, 0);
    OldestFrame(ids, mi, mj, FourDraws(rnd, |ids|), |ids|);
  }

  /** `id` enters bucket `b` unless it is there, and only a full one gives up an entry for it. */
  ghost predicate Enters(s: State, ww: seq<set<Id>>, b: int, id: Id, nNow: int, rnd: nat -> nat) {
    && |ww| == |s.vvNew| && 0 <= b < |s.vvNew| && (forall c :: 0 <= c < |s.vvNew| && c != b ==> ww[c] == s.vvNew[c])
    && BucketKnown(s.mapInfo, s.vvNew[b])
    && ww[b] == (if id in s.vvNew[b] || |s.vvNew[b]| < 64 then s.vvNew[b]
                 else s.vvNew[b] - {ShrinkVictim(s.vvNew[b], s.mapInfo, nNow, rnd)}) + {id}
  }

  lemma AddRefEntersExactly(env: Env, s: State, b: int, id: Id, nNow: int, rnd: nat -> nat)
    requires Tables(env, s, NOBODY) && id in s.mapInfo && 0 <= b < |s.vvNew|
    ensures Enters(s, AddRef(env, s, b, id, nNow, rnd).vvNew, b, id, nNow, rnd)
  {
    hide Tables, RandOk, NewOk, ShrinkNew, ShrinkVictim, CountedAhead, Insert, Enters, BucketKnown;
    CountAhead(env, s, id);
    CountedAheadBuckets(s, id);
    CountedAheadOthers(s, id);
    NewTable(env, s, NOBODY);
    BucketSize(s, b);
    var s1 := CountedAhead(s, id);
    if id in s.vvNew[b] {
      StaysIn(s, b, id, nNow, rnd);
    } else if |s.vvNew[b]| == NEW_BUCKET_SIZE {
      ShrunkBuckets(s1, b, nNow, rnd);
      TakesPlace(s, s1, b, id, nNow, rnd);
    } else {
      FindsRoom(s, s1, b, id, nNow, rnd);
    }
  }

  lemma StaysIn(s: State, b: int, id: Id, nNow: int, rnd: nat -> nat)
    requires 0 <= b < |s.vvNew| && BucketKnown(s.mapInfo, s.vvNew[b]) && id in s.vvNew[b]
    ensures Enters(s, s.vvNew, b, id, nNow, rnd)
  {
    hide ShrinkVictim;
  }

  lemma FindsRoom(s: State, s1: State, b: int, id: Id, nNow: int, rnd: nat -> nat)
    requires 0 <= b < |s.vvNew| && BucketKnown(s.mapInfo, s.vvNew[b]) && |s.vvNew[b]| < NEW_BUCKET_SIZE && s1.vvNew == s.vvNew
    ensures Enters(s, Insert(s1, b, id).vvNew, b, id, nNow, rnd)
  {
    hide ShrinkVictim;
  }

  lemma TakesPlace(s: State, s1: State, b: int, id: Id, nNow: int, rnd: nat -> nat)
    requires 0 <= b < |s.vvNew| && BucketKnown(s.mapInfo, s.vvNew[b]) && |s.vvNew[b]| == NEW_BUCKET_SIZE && id !in s.vvNew[b]
    requires s1.vvNew == s.vvNew && RandOk(s1.mapInfo, s1.vRandom) && BucketKnown(s1.mapInfo, s1.vvNew[b])
    requires forall x :: x in s.mapInfo && x != id ==> x in s1.mapInfo && s1.mapInfo[x] == s.mapInfo[x]
    requires ShrinkNew(s1, b, nNow, rnd).vvNew
          == s1.vvNew[b := s1.vvNew[b] - {ShrinkVictim(s1.vvNew[b], s1.mapInfo, nNow, rnd)}]
    ensures Enters(s, Insert(ShrinkNew(s1, b, nNow, rnd), b, id).vvNew, b, id, nNow, rnd)
  {
    hide ShrinkVictim, ShrinkNew, RandOk;
    VictimFrame(s.vvNew[b], s.mapInfo, s1.mapInfo, nNow, rnd);
  }

  lemma BucketSize(s: State, b: int)
    requires NewOk(s.mapInfo, s.vvNew, NOBODY) && 0 <= b < |s.vvNew|
    ensures |s.vvNew[b]| <= NEW_BUCKET_SIZE && BucketKnown(s.mapInfo, s.vvNew[b])
  {
  }

  lemma CountedAheadOthers(s: State, id: Id)
    requires id in s.mapInfo
    ensures forall x :: x in s.mapInfo && x != id ==> x in CountedAhead(s, id).mapInfo && CountedAhead(s, id).mapInfo[x] == s.mapInfo[x]
  {
  }

  lemma ShrunkBuckets(s: State, b: int, nNow: int, rnd: nat -> nat)
    requires RandOk(s.mapInfo, s.vRandom) && 0 <= b < |s.vvNew| && s.vvNew[b] != {} && BucketKnown(s.mapInfo, s.vvNew[b])
    ensures ShrinkNew(s, b, nNow, rnd).vvNew == s.vvNew[b := s.vvNew[b] - {ShrinkVictim(s.vvNew[b], s.mapInfo, nNow, rnd)}]
  {
    hide RandOk, ShrinkVictim;
    DropRefBuckets(s, b, ShrinkVictim(s.vvNew[b], s.mapInfo, nNow, rnd));
  }

  // ----- Add -----

  lemma CountEntered(vv: seq<set<Id>>, ww: seq<set<Id>>, b: int, id: Id)
    requires |ww| == |vv| && 0 <= b < |vv| && id in ww[b] && forall c :: 0 <= c < |vv| && c != b ==> ww[c] == vv[c]
    ensures Count(ww, id) == Count(vv, id) + if id in vv[b] then 0 else 1
  {
    assert ww == vv[b := ww[b]];
    CountUpdate(vv, b, ww[b], id);
  }

  lemma RefCounted(mi: map<Id, AddrInfo>, vv: seq<set<Id>>, id: Id)
    requires NewOk(mi, vv, NOBODY) && id in mi
    ensures mi[id].nRefCount == Count(vv, id)
  {
  }

  /** An announcement of a known address renews its record, and exactly when it is still news
      then adds a reference, in the bucket its source leads to, and at a full bucket's cost. */
  lemma AddKnownFields(env: Env, s: State, addr: Address, source: NetAddr, nPenalty: int, nNow: int, rnd: nat -> nat, id: Id)
    requires Inv(env, s) && env.routable(addr.service.addr) && id in s.mapInfo && s.mapInfo[id].service.addr == addr.service.addr
    ensures var t := Add(env, s, addr, source, nPenalty, nNow, rnd); var b := NewBucket(env, s.nKey, addr.service.addr, source);
      var info := Renewed(s.mapInfo[id], addr, nPenalty, nNow);
      && 0 <= b < |s.vvNew|
      && if Gains(info, addr, rnd(0))
         then id in t.mapInfo && Enters(s, t.vvNew, b, id, nNow, rnd)
              && t.mapInfo[id] == info.(nRefCount := info.nRefCount + (if id in s.vvNew[b] then 0 else 1),
                                        nRandomPos := t.mapInfo[id].nRandomPos)
         else t == s.(mapInfo := s.mapInfo[id := info])
  {
    hide Inv, Tables, RefRoom, Add, AddRef, Find, Refresh, MayAddRef, NewBucket, Renewed, Gains, Enters, StatsKept, Touch;
    FindMeans(env, s, addr.service.addr, id);
    var id', later := AddRefreshes(env, s, addr, source, nPenalty, nNow, rnd);
    var info := s.mapInfo[id];
    RefreshRenews(info, addr, nPenalty, nNow);
    RenewedRefs(info, addr, nPenalty, nNow);
    RefsInRange(env, s, id);
    MayAddRefGains(later, addr, rnd(0));
    TouchFields(s, id, later);
    if MayAddRef(later, addr, rnd(0)) {
      AddRefFields(env, s, later, NewBucket(env, s.nKey, addr.service.addr, source), id, nNow, rnd);
    }
  }

  lemma TouchFields(s: State, id: Id, info: AddrInfo)
    ensures Touch(s, id, info) == s.(mapInfo := s.mapInfo[id := info]) && Touch(s, id, info).mapInfo[id] == info
    ensures Touch(s, id, info).vvNew == s.vvNew
  {
  }

  lemma RefsInRange(env: Env, s: State, id: Id)
    requires Inv(env, s) && id in s.mapInfo
    ensures s.mapInfo[id].fInTried || 1 <= s.mapInfo[id].nRefCount <= NEW_BUCKETS_PER_ADDRESS
  {
    hide Tables;
  }

  lemma AddRefFields(env: Env, s: State, later: AddrInfo, b: int, id: Id, nNow: int, rnd: nat -> nat)
    requires Inv(env, s) && id in s.mapInfo && 0 <= b < |s.vvNew|
    requires Tables(env, Touch(s, id, later), NOBODY) && RefRoom(Touch(s, id, later), b, id) && later.nRefCount == s.mapInfo[id].nRefCount
    ensures var t := AddRef(env, Touch(s, id, later), b, id, nNow, rnd);
      && id in t.mapInfo
      && t.mapInfo[id] == later.(nRefCount := later.nRefCount + (if id in s.vvNew[b] then 0 else 1),
                                 nRandomPos := t.mapInfo[id].nRandomPos)
      && Enters(s, t.vvNew, b, id, nNow, rnd)
  {
    hide Inv, Tables, RefRoom, RefOk, NewOk, AddRef, Enters, Count;
    var s1 := Touch(s, id, later);
    var t := AddRef(env, s1, b, id, nNow, rnd);
    AddRefKeeps(env, s1, b, id, nNow, rnd);
    AddRefEntersExactly(env, s1, b, id, nNow, rnd);
    var lost := AddRefSurvivors(env, s1, b, id, nNow, rnd);
    SameEnters(s, s1, t.vvNew, b, id, nNow, rnd);
    Parts(env, s);
    Parts(env, t);
    RefCounted(s.mapInfo, s.vvNew, id);
    RefCounted(t.mapInfo, t.vvNew, id);
    EntersCounts(s, t.vvNew, b, id, nNow, rnd);
  }

  lemma EntersCounts(s: State, ww: seq<set<Id>>, b: int, id: Id, nNow: int, rnd: nat -> nat)
    requires Enters(s, ww, b, id, nNow, rnd)
    ensures 0 <= b < |s.vvNew| && Count(ww, id) == Count(s.vvNew, id) + if id in s.vvNew[b] then 0 else 1
  {
    hide ShrinkVictim, Count;
    CountEntered(s.vvNew, ww, b, id);
  }

  lemma SameEnters(s: State, s1: State, ww: seq<set<Id>>, b: int, id: Id, nNow: int, rnd: nat -> nat)
    requires Enters(s1, ww, b, id, nNow, rnd) && s1.vvNew == s.vvNew && s1.mapInfo.Keys == s.mapInfo.Keys
    requires forall x :: x in s.mapInfo && x != id ==> s1.mapInfo[x] == s.mapInfo[x]
    ensures Enters(s, ww, b, id, nNow, rnd)
  {
    hide ShrinkVictim;
    if id !in s.vvNew[b] && |s.vvNew[b]| >= 64 {
      VictimFrame(s.vvNew[b], s.mapInfo, s1.mapInfo, nNow, rnd);
    }
  }

  /** An announcement of an unknown address makes exactly this record of it. */
  lemma AddFreshFields(env: Env, s: State, addr: Address, source: NetAddr, nPenalty: int, nNow: int, rnd: nat -> nat)
    requires Inv(env, s) && env.routable(addr.service.addr) && forall id :: id in s.mapInfo ==> s.mapInfo[id].service.addr != addr.service.addr
    ensures var t := Add(env, s, addr, source, nPenalty, nNow, rnd); var id := s.nIdCount;
      && id in t.mapInfo
      && t.mapInfo[id] == AddrInfo(addr.service, addr.nServices, Announced(addr, nPenalty), 0, source, 0, 0, 1, false, t.mapInfo[id].nRandomPos)
      && Enters(s, t.vvNew, NewBucket(env, s.nKey, addr.service.addr, source), id, nNow, rnd)
  {
    hide Inv, Tables, RefRoom, AddRef, Add, Find, Register, NewBucket, Enters, Survivors, Announced;
    assert Find(s, addr.service.addr) == None by { UnknownFound(env, s, addr.service.addr); }
    AddLearns(env, s, addr, source, nPenalty, nNow, rnd);
    AddRegisters(env, s, addr, source, nPenalty, nNow, rnd);
    RegisterBuckets(s, addr, source, nPenalty);
    RegisteredRecord(s, addr, source, nPenalty);
    var s1, b := Register(s, addr, source, nPenalty), NewBucket(env, s.nKey, addr.service.addr, source);
    AddRefEntersExactly(env, s1, b, s.nIdCount, nNow, rnd);
    var lost := AddRefSurvivors(env, s1, b, s.nIdCount, nNow, rnd);
    SurvivorFields(s1.mapInfo, AddRef(env, s1, b, s.nIdCount, nNow, rnd).mapInfo, s.nIdCount);
    Parts(env, s);
    FreshEnters(s, s1, AddRef(env, s1, b, s.nIdCount, nNow, rnd).vvNew, b, nNow, rnd);
  }

  lemma UnknownFound(env: Env, s: State, addr: NetAddr)
    requires Inv(env, s) && forall id :: id in s.mapInfo ==> s.mapInfo[id].service.addr != addr
    ensures Find(s, addr) == None
  {
    hide RandOk, NewOk, TriedOk, TallyOk, IdsOk, RefOk;
  }

  lemma RegisteredRecord(s: State, addr: Address, source: NetAddr, nPenalty: int)
    requires s.nIdCount !in s.mapInfo
    ensures var t := Register(s, addr, source, nPenalty);
      && t.mapInfo[s.nIdCount] == AddrInfo(addr.service, addr.nServices, Announced(addr, nPenalty), 0, source, 0, 0, 0, false, |s.vRandom|)
      && t.mapInfo.Keys == s.mapInfo.Keys + {s.nIdCount} && forall x :: x in s.mapInfo ==> t.mapInfo[x] == s.mapInfo[x]
  {
  }

  lemma SurvivorFields(mi: map<Id, AddrInfo>, mj: map<Id, AddrInfo>, id: Id)
    requires Survivors(mi, mj) && id in mi && id in mj
    ensures mj[id] == mi[id].(nRandomPos := mj[id].nRandomPos, nRefCount := mj[id].nRefCount)
  {
  }

  lemma FreshEnters(s: State, s1: State, ww: seq<set<Id>>, b: int, nNow: int, rnd: nat -> nat)
    requires NewOk(s.mapInfo, s.vvNew, NOBODY) && s.nIdCount !in s.mapInfo
    requires Enters(s1, ww, b, s.nIdCount, nNow, rnd) && s1.vvNew == s.vvNew
    requires s1.mapInfo.Keys == s.mapInfo.Keys + {s.nIdCount} && forall x :: x in s.mapInfo ==> s1.mapInfo[x] == s.mapInfo[x]
    ensures Enters(s, ww, b, s.nIdCount, nNow, rnd)
  {
    hide ShrinkVictim, NewOk;
    BucketSize(s, b);
    if s.nIdCount !in s.vvNew[b] && |s.vvNew[b]| >= 64 {
      VictimFrame(s.vvNew[b], s.mapInfo, s1.mapInfo, nNow, rnd);
    }
  }

  // ----- what GetAddr_ can hand out -----

  /** 23 in a hundred, rounded down, and at most 2500. */
  lemma GetAddrCountMeans(n: nat)
    ensures var k := GetAddrCount(n); 100 * k <= 23 * n && k <= 2500 && (k == 2500 || 23 * n < 100 * (k + 1))
  {
  }

  ghost predicate Follows(rnd: nat -> nat, draws: seq<nat>) {
    forall i :: 0 <= i < |draws| ==> rnd(i) == draws[i]
  }

  lemma {:induction false} SameDraws(env: Env, s: State, rnd: nat -> nat, rnd': nat -> nat, n: nat)
    requires Inv(env, s) && n <= |s.vRandom| && forall i: nat :: i < n ==> rnd(i) == rnd'(i)
    ensures GetAddrRounds(env, s, rnd, n) == GetAddrRounds(env, s, rnd', n)
  {
    hide Inv, SwapRandom, GetRandInt, RandOk, GetAddrRounds, SameButPos;
    if n == 0 {
      GetAddrStart(env, s, rnd);
      GetAddrStart(env, s, rnd');
    } else {
      SameDraws(env, s, rnd, rnd', n - 1);
      GetAddrStep(env, s, rnd, n - 1);
      GetAddrStep(env, s, rnd', n - 1);
    }
  }

  /** The shuffle has put `xs` first. */
  ghost predicate First(s: State, xs: seq<Id>) {
    |xs| <= |s.vRandom| && s.vRandom[..|xs|] == xs
  }

  /** Exchanging the position that holds `x` with position `n` puts it after the first `n`. */
  lemma BringForward(p: State, xs: seq<Id>, x: Id) returns (d: nat)
    requires RandOk(p.mapInfo, p.vRandom) && x in p.mapInfo && x !in xs && First(p, xs)
    ensures |xs| + d < |p.vRandom| && First(SwapRandom(p, |xs|, |xs| + d), xs + [x])
  {
    var pos := p.mapInfo[x].nRandomPos;
    NotAmong(p.vRandom, xs, pos);
    d := pos - |xs|;
  }

  lemma NotAmong(vr: seq<Id>, xs: seq<Id>, pos: int)
    requires 0 <= pos < |vr| && |xs| <= |vr| && vr[..|xs|] == xs && vr[pos] !in xs
    ensures pos >= |xs|
  {
    assert forall i :: 0 <= i < |xs| ==> vr[i] == xs[i];
  }

  lemma DrawIs(d: nat, n: int)
    requires d < n
    ensures GetRandInt(d, n) == d
  {
  }

  lemma SelectionRound(env: Env, s: State, rnd: nat -> nat, xs: seq<Id>, x: Id, d: nat, p: State)
    requires Inv(env, s) && |xs| + d < |s.vRandom| && rnd(|xs|) == d && p == GetAddrRounds(env, s, rnd, |xs|)
    requires RandOk(p.mapInfo, p.vRandom) && |p.vRandom| == |s.vRandom| && First(SwapRandom(p, |xs|, |xs| + d), xs + [x])
    ensures First(GetAddrRounds(env, s, rnd, |xs| + 1), xs + [x])
  {
    hide Inv, SwapRandom, GetRandInt, RandOk, GetAddrRounds, First, SameButPos;
    GetAddrStep(env, s, rnd, |xs|);
    DrawIs(d, |s.vRandom| - |xs|);
  }

  /** The shuffle can put any choice of known ids first, in any order: some draws do. */
  lemma {:induction false} EverySelection(env: Env, s: State, xs: seq<Id>) returns (draws: seq<nat>)
    requires Inv(env, s) && NoDup(xs) && forall x :: x in xs ==> x in s.mapInfo
    ensures |draws| == |xs| <= |s.vRandom|
    ensures forall rnd :: Follows(rnd, draws) ==> First(GetAddrRounds(env, s, rnd, |xs|), xs)
  {
    hide Inv, SwapRandom, RandOk, GetAddrRounds, SameButPos, NoDup, First, Follows;
    if xs == [] {
      draws := [];
      NoneFirst(env, s);
    } else {
      var before, x := xs[..|xs| - 1], xs[|xs| - 1];
      LastOfDistinct(xs);
      var known := EverySelection(env, s, before);
      draws := OneMoreDraw(env, s, before, x, known);
      assert before + [x] == xs;
    }
  }

  lemma OneMoreDraw(env: Env, s: State, xs: seq<Id>, x: Id, known: seq<nat>) returns (draws: seq<nat>)
    requires Inv(env, s) && x in s.mapInfo && x !in xs && |known| == |xs| <= |s.vRandom|
    requires forall rnd :: Follows(rnd, known) ==> First(GetAddrRounds(env, s, rnd, |xs|), xs)
    ensures |draws| == |xs| + 1 <= |s.vRandom|
    ensures forall rnd :: Follows(rnd, draws) ==> First(GetAddrRounds(env, s, rnd, |xs| + 1), xs + [x])
  {
    hide Inv, SwapRandom, RandOk, GetAddrRounds, SameButPos, First, Follows;
    var rnd0 := Following(known);
    var p := GetAddrRounds(env, s, rnd0, |xs|);
    Parts(env, p);
    SameIds(s.mapInfo, p.mapInfo);
    var d := BringForward(p, xs, x);
    draws := known + [d];
    FollowsStart'(rnd0, known);
    forall rnd | Follows(rnd, draws) ensures First(GetAddrRounds(env, s, rnd, |xs| + 1), xs + [x]) {
      FollowsStart(rnd, known, d);
      SameDraws(env, s, rnd, rnd0, |xs|);
      SelectionRound(env, s, rnd, xs, x, d, p);
    }
  }

  lemma NoneFirst(env: Env, s: State)
    requires Inv(env, s)
    ensures forall rnd :: First(GetAddrRounds(env, s, rnd, 0), [])
  {
    hide Inv;
  }

  function Following(draws: seq<nat>): (rnd: nat -> nat)
    ensures Follows(rnd, draws)
  {
    (i: nat) => if i < |draws| then draws[i] else 0
  }

  lemma FollowsStart'(rnd: nat -> nat, known: seq<nat>)
    requires Follows(rnd, known)
    ensures forall i: nat :: i < |known| ==> rnd(i) == known[i]
  {
  }

  lemma FollowsStart(rnd: nat -> nat, known: seq<nat>, d: nat)
    requires Follows(rnd, known + [d])
    ensures Follows(rnd, known) && rnd(|known|) == d && forall i: nat :: i < |known| ==> rnd(i) == known[i]
  {
    assert (known + [d])[|known|] == d;
    assert forall i :: 0 <= i < |known| ==> (known + [d])[i] == known[i];
  }

  lemma LastOfDistinct(xs: seq<Id>)
    requires NoDup(xs) && xs != []
    ensures NoDup(xs[..|xs| - 1]) && xs[|xs| - 1] !in xs[..|xs| - 1] && forall x :: x in xs[..|xs| - 1] ==> x in xs
  {
  }

  lemma SameIds(mi: map<Id, AddrInfo>, mj: map<Id, AddrInfo>)
    requires SameButPos(mi, mj)
    ensures mj.Keys == mi.Keys
  {
  }
}
