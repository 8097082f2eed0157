/** Whole runs of the address manager, from the constructor on, for all
    arguments, all random draws and all hash functions. */
module AddrManRuns {
  import opened Options
  import opened AddrManState
  import opened AddrManInv
  import opened AddrManTried
  import opened AddrManSteps
  import opened AddrManReload
  import opened AddrManCheck

  /** One call on the manager.  `OpReload` saves it and loads it again. */
  datatype Op =
    | OpAdd(addr: Address, source: NetAddr, nPenalty: int, nNow: int, rnd: nat -> nat)
    | OpGood(service: Service, nTime: int, rnd: nat -> nat)
    | OpAttempt(service: Service, nTime: int)
    | OpConnected(service: Service, nTime: int)
    | OpGetAddr(rnd: nat -> nat)
    | OpReload

  ghost function Step(env: Env, s: State, op: Op): (t: State)
    requires Inv(env, s)
    ensures Inv(env, t)
  {
    hide Inv, Good, Add, Attempt, Connected, GetAddrRounds, Reload, RandOk;
    match op
    case OpAdd(addr, source, nPenalty, nNow, rnd) => Add(env, s, addr, source, nPenalty, nNow, rnd)
    case OpGood(service, nTime, rnd) => Good(env, s, service, nTime, rnd)
    case OpAttempt(service, nTime) => Attempt(env, s, service, nTime)
    case OpConnected(service, nTime) => Connected(env, s, service, nTime)
    case OpGetAddr(rnd) => GetAddrRounds(env, s, rnd, GetAddrCount(|s.vRandom|))
    case OpReload => Reload(env, s)
  }

  ghost function Run(env: Env, s: State, ops: seq<Op>): (t: State)
    requires Inv(env, s)
    ensures Inv(env, t)
  {
    hide Inv, Step;
    if ops == [] then s else Step(env, Run(env, s, ops[..|ops| - 1]), ops[|ops| - 1])
  }

  /** The state a run of the constructor and then `ops` ends in. */
  ghost function Reached(env: Env, key: Key, ops: seq<Op>): (t: State)
    ensures Inv(env, t)
  {
    InitialInv(env, key);
    Run(env, Initial(key), ops)
  }

  // ----- times -----

  /** Whether Good or Attempt acts on this service at all. */
  ghost predicate Acts(s: State, service: Service) {
    var found := Find(s, service.addr);
    found.Some? && s.mapInfo[found.value].service == service
  }

  /** The times the calls may be given: positive for Good, not negative for Attempt. */
  ghost predicate TimeAccepted(s: State, op: Op) {
    match op
    case OpGood(service, nTime, _) => Acts(s, service) ==> nTime > 0
    case OpAttempt(service, nTime) => Acts(s, service) ==> nTime >= 0
    case _ => true
  }

  /** Good on an untried record always reaches MakeTried, with a bucket that holds the id. */
  lemma GoodMoves(env: Env, s: State, service: Service, nTime: int, rnd: nat -> nat) returns (s1: State, id: Id, b: int)
    requires Inv(env, s) && Acts(s, service) && !s.mapInfo[Find(s, service.addr).value].fInTried
    ensures id == Find(s, service.addr).value && s1 == Touch(s, id, MarkGood(s.mapInfo[id], nTime)) && Inv(env, s1)
    ensures |s.vvNew| == NEW_BUCKET_COUNT && |s.vvTried| == TRIED_BUCKET_COUNT
    ensures 0 <= b < |s.vvNew| && id in s.vvNew[b] && Good(env, s, service, nTime, rnd) == MakeTried(env, s1, id, b, rnd)
  {
    hide Inv, MakeTried, Scan, GetRandInt;
    id := Find(s, service.addr).value;
    TouchKeeps(env, s, id, MarkGood(s.mapInfo[id], nTime));
    s1 := Touch(s, id, MarkGood(s.mapInfo[id], nTime));
    Parts(env, s);
    var nRnd := GetRandInt(rnd(0), NEW_BUCKET_COUNT);
    GoodFindsBucket(env, s1, id, nRnd);
    b := Scan(s1.vvNew, id, nRnd, 0);
  }

  lemma GoodStays(env: Env, s: State, service: Service, nTime: int, rnd: nat -> nat)
    requires Inv(env, s)
    ensures !Acts(s, service) ==> Good(env, s, service, nTime, rnd) == s
    ensures Acts(s, service) && s.mapInfo[Find(s, service.addr).value].fInTried ==>
              var id := Find(s, service.addr).value;
              Good(env, s, service, nTime, rnd) == Touch(s, id, MarkGood(s.mapInfo[id], nTime))
  {
    hide Inv, MakeTried, Scan, GetRandInt;
  }

  /** The records differ at most in the table they are in and how often. */
  ghost predicate StatsButTried(i: AddrInfo, j: AddrInfo) {
    j == i.(fInTried := j.fInTried, nRefCount := j.nRefCount)
  }

  /** What Good does to the record it acts on and to the others. */
  lemma GoodMarks(env: Env, s: State, service: Service, nTime: int, rnd: nat -> nat)
    requires Inv(env, s) && Acts(s, service)
    ensures var t := Good(env, s, service, nTime, rnd);
      var id := Find(s, service.addr).value;
      && t.mapInfo.Keys == s.mapInfo.Keys && t.mapAddr == s.mapAddr
      && t.mapInfo[id].fInTried && t.mapInfo[id].nLastSuccess == nTime && t.mapInfo[id].nLastTry == nTime
      && t.mapInfo[id].nTime == nTime % 0x1_0000_0000 && t.mapInfo[id].nAttempts == 0 && t.mapInfo[id].service == service
      && (forall x :: x in s.mapInfo && x != id ==>
            && StatsButTried(s.mapInfo[x], t.mapInfo[x]) && (t.mapInfo[x].fInTried ==> s.mapInfo[x].fInTried))
  {
    hide Inv, MakeTried, Good, TriedMoved, NewMoved;
    GoodStays(env, s, service, nTime, rnd);
    if !s.mapInfo[Find(s, service.addr).value].fInTried {
      var s1, id, b := GoodMoves(env, s, service, nTime, rnd);
      var demoted, target := MakeTriedMoves(env, s1, id, b, rnd);
    }
  }

  lemma GoodTimes(env: Env, s: State, service: Service, nTime: int, rnd: nat -> nat)
    requires Inv(env, s) && TimesOk(s.mapInfo)
    ensures TimesOk(Good(env, s, service, nTime, rnd).mapInfo) <==> (Acts(s, service) ==> nTime > 0)
  {
    hide Inv, Good;
    GoodStays(env, s, service, nTime, rnd);
    if Acts(s, service) {
      GoodMarks(env, s, service, nTime, rnd);
    }
  }

  // ----- what Add does to the other records -----

  /** The records that are left differ only in links and reference counts. */
  ghost predicate Survivors(mi: map<Id, AddrInfo>, mj: map<Id, AddrInfo>) {
    forall x :: x in mj ==>
      x in mi && mj[x] == mi[x].(nRandomPos := mj[x].nRandomPos, nRefCount := mj[x].nRefCount)
  }

  lemma DropRefSurvivors(env: Env, s: State, b: int, id: Id, pend: int)
    requires Tables(env, s, pend) && RefOk(s.mapInfo)
    requires id in s.mapInfo && 0 <= b < |s.vvNew| && id in s.vvNew[b] && id != pend
    ensures RandOk(s.mapInfo, s.vRandom) && !s.mapInfo[id].fInTried
    ensures var t := DropRef(s, b, id);
      Survivors(s.mapInfo, t.mapInfo) && s.mapInfo.Keys - {id} <= t.mapInfo.Keys
  {
    hide Tables, NewOk, RandOk, RefOk, Delete, Unref, Survivors, SameButPos;
    NewTable(env, s, pend);
    PlaceInRandom(env, s, pend, id);
    NewTriedApart(env, s, b, id, pend);
    var s1 := Unref(s, b, id);
    UnrefKeeps(env, s, b, id, pend);
    UnrefSurvives(s, b, id);
    if s.mapInfo[id].nRefCount == 1 {
      NoBucketLeft(s.mapInfo, s.vvNew, b, id, pend);
      PlaceInRandom(env, s1, pend, id);
      DeleteKeeps(env, s1, id, pend);
      DeletedSurvive(s1.mapInfo, Delete(s1, id).mapInfo, id);
      SurvivorsTrans(s.mapInfo, s1.mapInfo, Delete(s1, id).mapInfo);
    }
  }

  lemma DeletedSurvive(mi: map<Id, AddrInfo>, mj: map<Id, AddrInfo>, id: Id)
    requires SameButPos(mi - {id}, mj)
    ensures Survivors(mi, mj) && mi.Keys - {id} <= mj.Keys
  {
  }

  lemma UnrefSurvives(s: State, b: int, id: Id)
    requires id in s.mapInfo && 0 <= b < |s.vvNew|
    ensures var t := Unref(s, b, id);
      && Survivors(s.mapInfo, t.mapInfo) && t.mapInfo.Keys == s.mapInfo.Keys
      && t.vvNew == s.vvNew[b := s.vvNew[b] - {id}]
    ensures var info := Unref(s, b, id).mapInfo[id];
      info.nRefCount == s.mapInfo[id].nRefCount - 1 && info.fInTried == s.mapInfo[id].fInTried
  {
  }

  /** AddRef loses at most one record, an untried one of the bucket. */
  lemma AddRefSurvivors(env: Env, s: State, b: int, id: Id, nNow: int, rnd: nat -> nat) returns (lost: set<Id>)
    requires Tables(env, s, NOBODY) && id in s.mapInfo && 0 <= b < |s.vvNew| && RefRoom(s, b, id)
    ensures var t := AddRef(env, s, b, id, nNow, rnd);
      Survivors(s.mapInfo, t.mapInfo) && t.mapInfo.Keys == s.mapInfo.Keys - lost
    ensures |lost| <= 1 && lost <= s.vvNew[b] && id !in lost
    ensures forall x :: x in lost ==> x in s.mapInfo && !s.mapInfo[x].fInTried
  {
    hide Tables, NewOk, RandOk, RefOk, DropRef, Survivors, RefRoom, CountedAhead, AddRef;
    lost := {};
    CountedAheadSurvives(s, id);
    CountAhead(env, s, id);
    var victim := AddRefRecords(env, s, b, id, nNow, rnd);
    if id !in s.vvNew[b] && |s.vvNew[b]| == NEW_BUCKET_SIZE {
      CountedAheadRefs(s, b, id);
      var s1 := CountedAhead(s, id);
      DropRefSurvivors(env, s1, b, victim, id);
      var t := AddRef(env, s, b, id, nNow, rnd);
      SurvivorsTrans(s.mapInfo, s1.mapInfo, t.mapInfo);
      lost := s.mapInfo.Keys - t.mapInfo.Keys;
      SubsetSize(lost, {victim});
    }
  }

  /** The records after AddRef, and in a full bucket the entry that makes room. */
  lemma AddRefRecords(env: Env, s: State, b: int, id: Id, nNow: int, rnd: nat -> nat) returns (victim: Id)
    requires Tables(env, s, NOBODY) && id in s.mapInfo && 0 <= b < |s.vvNew|
    ensures RandOk(CountedAhead(s, id).mapInfo, s.vRandom)
    ensures var s1 := CountedAhead(s, id); var t := AddRef(env, s, b, id, nNow, rnd);
      if id in s.vvNew[b] then t.mapInfo == s.mapInfo
      else if |s.vvNew[b]| == NEW_BUCKET_SIZE
      then victim in s.vvNew[b] && victim in s1.mapInfo && t.mapInfo == DropRef(s1, b, victim).mapInfo
      else t.mapInfo == s1.mapInfo
  {
    hide Tables, RandOk, DropRef, ShrinkVictim;
    CountAhead(env, s, id);
    victim := id;
    if id !in s.vvNew[b] && |s.vvNew[b]| == NEW_BUCKET_SIZE {
      var s1 := CountedAhead(s, id);
      assert s1.vvNew[b] != {};
      victim := ShrinkVictim(s1.vvNew[b], s1.mapInfo, nNow, rnd);
    }
  }

  lemma CountedAheadSurvives(s: State, id: Id)
    requires id in s.mapInfo
    ensures var s1 := CountedAhead(s, id);
      && Survivors(s.mapInfo, s.mapInfo) && Survivors(s.mapInfo, s1.mapInfo)
      && s1 == s.(mapInfo := s1.mapInfo) && s1.mapInfo.Keys == s.mapInfo.Keys
      && forall x :: x in s.mapInfo ==> s1.mapInfo[x].fInTried == s.mapInfo[x].fInTried
  {
  }

  lemma SurvivorsTrans(mi: map<Id, AddrInfo>, mj: map<Id, AddrInfo>, mk: map<Id, AddrInfo>)
    requires Survivors(mi, mj) && Survivors(mj, mk)
    ensures Survivors(mi, mk) && mk.Keys <= mi.Keys
  {
  }

  lemma SubsetSize(a: set<Id>, b: set<Id>)
    requires a <= b
    ensures |a| <= |b|
  {
    assert b == a + (b - a);
  }

  /** The fields that Add never changes on a record it keeps. */
  ghost predicate StatsKept(i: AddrInfo, j: AddrInfo) {
    && i.service == j.service && i.source == j.source && i.nLastTry == j.nLastTry
    && i.nLastSuccess == j.nLastSuccess && i.nAttempts == j.nAttempts && i.fInTried == j.fInTried
  }

  ghost predicate AllStatsKept(mi: map<Id, AddrInfo>, mj: map<Id, AddrInfo>) {
    forall x :: x in mi && x in mj ==> StatsKept(mi[x], mj[x])
  }

  lemma SurvivorsKeepStats(mi: map<Id, AddrInfo>, mj: map<Id, AddrInfo>, mk: map<Id, AddrInfo>)
    requires AllStatsKept(mi, mj) && Survivors(mj, mk)
    ensures AllStatsKept(mi, mk) && forall x :: x in mk ==> x in mj && StatsKept(mj[x], mk[x])
  {
  }

  /** Add on a known address: its record is refreshed, and gains a reference at most. */
  lemma AddRefreshes(env: Env, s: State, addr: Address, source: NetAddr, nPenalty: int, nNow: int, rnd: nat -> nat)
    returns (id: Id, info: AddrInfo)
    requires Inv(env, s) && env.routable(addr.service.addr) && Find(s, addr.service.addr).Some?
    ensures Find(s, addr.service.addr) == Some(id) && id in s.mapInfo
    ensures info == Refresh(s.mapInfo[id], addr, nPenalty, nNow) && StatsKept(s.mapInfo[id], info)
    ensures var s1 := Touch(s, id, info); var b := NewBucket(env, s.nKey, addr.service.addr, source);
      var t := Add(env, s, addr, source, nPenalty, nNow, rnd);
      && id in s1.mapInfo && 0 <= b < |s1.vvNew| && Tables(env, s1, NOBODY)
      && if MayAddRef(info, addr, rnd(0)) then RefRoom(s1, b, id) && t == AddRef(env, s1, b, id, nNow, rnd) else t == s1
  {
    hide Inv, Tables, RandOk, NewOk, TriedOk, AddrOk, RefRoom, RefOk, AddRef, IdsOk, TallyOk, Find, MayAddRef, Refresh, NewBucket,
      SameLinks, StatsKept;
    Parts(env, s);
    FindKnown(s, addr.service.addr);
    id := Find(s, addr.service.addr).value;
    RefreshLinks(s.mapInfo[id], addr, nPenalty, nNow);
    info := Refresh(s.mapInfo[id], addr, nPenalty, nNow);
    RefreshStats(s.mapInfo[id], addr, nPenalty, nNow);
    TouchKeeps(env, s, id, info);
    Parts(env, Touch(s, id, info));
    if MayAddRef(info, addr, rnd(0)) {
      MayAddRefRoom(info, addr, rnd(0));
      KnownRoom(env, Touch(s, id, info), id, NewBucket(env, s.nKey, addr.service.addr, source));
    }
  }

  lemma RefreshStats(info: AddrInfo, addr: Address, nPenalty: int, nNow: int)
    ensures StatsKept(info, Refresh(info, addr, nPenalty, nNow))
  {
    hide MergeServices, ToUInt32;
  }

  lemma AddKnown(env: Env, s: State, addr: Address, source: NetAddr, nPenalty: int, nNow: int, rnd: nat -> nat)
    returns (lost: set<Id>)
    requires Inv(env, s) && Find(s, addr.service.addr).Some?
    ensures var t := Add(env, s, addr, source, nPenalty, nNow, rnd);
      && t.mapInfo.Keys == s.mapInfo.Keys - lost && AllStatsKept(s.mapInfo, t.mapInfo)
    ensures |lost| <= 1 && forall x :: x in lost ==> x in s.mapInfo && !s.mapInfo[x].fInTried
  {
    hide Inv, Tables, RefRoom, AddRef, Add, Find, Touch, Survivors, AllStatsKept, StatsKept, NewBucket;
    lost := {};
    if env.routable(addr.service.addr) {
      var id, info := AddRefreshes(env, s, addr, source, nPenalty, nNow, rnd);
      var s1 := Touch(s, id, info);
      TouchStats(s, id, info);
      var t := Add(env, s, addr, source, nPenalty, nNow, rnd);
      if t != s1 {
        lost := AddRefSurvivors(env, s1, NewBucket(env, s.nKey, addr.service.addr, source), id, nNow, rnd);
        SurvivorsKeepStats(s.mapInfo, s1.mapInfo, t.mapInfo);
      }
    } else {
      SameStats(s.mapInfo);
      NotRoutable(env, s, addr, source, nPenalty, nNow, rnd);
    }
  }

  lemma NotRoutable(env: Env, s: State, addr: Address, source: NetAddr, nPenalty: int, nNow: int, rnd: nat -> nat)
    requires Inv(env, s) && !env.routable(addr.service.addr)
    ensures Add(env, s, addr, source, nPenalty, nNow, rnd) == s
  {
    hide Inv;
  }

  lemma SameStats(mi: map<Id, AddrInfo>)
    ensures AllStatsKept(mi, mi)
  {
  }

  lemma TouchStats(s: State, id: Id, info: AddrInfo)
    requires id in s.mapInfo && StatsKept(s.mapInfo[id], info)
    ensures AllStatsKept(s.mapInfo, Touch(s, id, info).mapInfo) && Touch(s, id, info).mapInfo.Keys == s.mapInfo.Keys
    ensures forall x :: x in s.mapInfo ==> Touch(s, id, info).mapInfo[x].fInTried == s.mapInfo[x].fInTried
  {
  }

  /** Add on a new address: it is registered, and gains its first reference. */
  lemma AddRegisters(env: Env, s: State, addr: Address, source: NetAddr, nPenalty: int, nNow: int, rnd: nat -> nat)
    requires Inv(env, s) && Find(s, addr.service.addr) == None && env.routable(addr.service.addr)
    ensures var s1 := Register(s, addr, source, nPenalty); var b := NewBucket(env, s.nKey, addr.service.addr, source);
      && s.nIdCount !in s.mapInfo && s.nIdCount in s1.mapInfo && s1.nKey == s.nKey && 0 <= b < |s1.vvNew| && Tables(env, s1, NOBODY)
      && RefRoom(s1, b, s.nIdCount)
      && Add(env, s, addr, source, nPenalty, nNow, rnd) == AddRef(env, s1, b, s.nIdCount, nNow, rnd)
  {
    hide Inv, Tables, RandOk, NewOk, TriedOk, AddrOk, RefRoom, RefOk, AddRef, IdsOk, TallyOk, Find, Register, NewBucket, MayAddRef;
    Parts(env, s);
    UnknownAddr(env, s, addr.service.addr);
    RegisterTables(env, s, addr, source, nPenalty);
    RegisterStats(s, addr, source, nPenalty);
  }

  lemma AddFresh(env: Env, s: State, addr: Address, source: NetAddr, nPenalty: int, nNow: int, rnd: nat -> nat)
    returns (lost: set<Id>)
    requires Inv(env, s) && Find(s, addr.service.addr) == None && env.routable(addr.service.addr)
    ensures var t := Add(env, s, addr, source, nPenalty, nNow, rnd);
      && s.nIdCount !in s.mapInfo && s.nIdCount !in lost
      && t.mapInfo.Keys == s.mapInfo.Keys - lost + {s.nIdCount} && AllStatsKept(s.mapInfo, t.mapInfo)
      && StatsKept(NewInfo(addr, source), t.mapInfo[s.nIdCount])
    ensures |lost| <= 1 && forall x :: x in lost ==> x in s.mapInfo && !s.mapInfo[x].fInTried
  {
    hide Inv, Tables, RefRoom, AddRef, Add, Find, Survivors, AllStatsKept, Register, NewBucket;
    AddRegisters(env, s, addr, source, nPenalty, nNow, rnd);
    var b := NewBucket(env, s.nKey, addr.service.addr, source);
    var s1 := Register(s, addr, source, nPenalty);
    RegisterStats(s, addr, source, nPenalty);
    lost := AddRefSurvivors(env, s1, b, s.nIdCount, nNow, rnd);
    SurvivorsKeepStats(s.mapInfo, s1.mapInfo, AddRef(env, s1, b, s.nIdCount, nNow, rnd).mapInfo);
  }

  lemma RegisterStats(s: State, addr: Address, source: NetAddr, nPenalty: int)
    requires s.nIdCount !in s.mapInfo
    ensures var t := Register(s, addr, source, nPenalty);
      && t.mapInfo.Keys == s.mapInfo.Keys + {s.nIdCount} && AllStatsKept(s.mapInfo, t.mapInfo)
      && (forall x :: x in s.mapInfo ==> t.mapInfo[x] == s.mapInfo[x])
      && StatsKept(NewInfo(addr, source), t.mapInfo[s.nIdCount])
      && |t.vvNew| == |s.vvNew|
  {
  }

  // ----- every run passes Check_ -----

  lemma AttemptTimes(env: Env, s: State, service: Service, nTime: int)
    requires Inv(env, s) && TimesOk(s.mapInfo)
    ensures TimesOk(Attempt(env, s, service, nTime).mapInfo) <==> (Acts(s, service) ==> nTime >= 0)
  {
    hide Inv;
    if Acts(s, service) {
      assert Attempt(env, s, service, nTime).mapInfo[Find(s, service.addr).value].nLastTry == nTime;
    }
  }

  lemma OtherTimes(mi: map<Id, AddrInfo>, mj: map<Id, AddrInfo>)
    requires TimesOk(mi) && AllStatsKept(mi, mj)
    requires forall x :: x in mj && x !in mi ==> mj[x].nLastTry == 0 && mj[x].nLastSuccess == 0 && !mj[x].fInTried
    ensures TimesOk(mj)
  {
  }

  lemma AddTimes(env: Env, s: State, addr: Address, source: NetAddr, nPenalty: int, nNow: int, rnd: nat -> nat)
    requires Inv(env, s) && TimesOk(s.mapInfo)
    ensures TimesOk(Add(env, s, addr, source, nPenalty, nNow, rnd).mapInfo)
  {
    hide Inv, Find, TimesOk, AllStatsKept;
    if !env.routable(addr.service.addr) {
    } else if Find(s, addr.service.addr).Some? {
      var lost := AddKnown(env, s, addr, source, nPenalty, nNow, rnd);
      hide Add;
      OtherTimes(s.mapInfo, Add(env, s, addr, source, nPenalty, nNow, rnd).mapInfo);
    } else {
      var lost := AddFresh(env, s, addr, source, nPenalty, nNow, rnd);
      hide Add;
      OtherTimes(s.mapInfo, Add(env, s, addr, source, nPenalty, nNow, rnd).mapInfo);
    }
  }

  lemma ReloadTimes(s: State, t: State, order: seq<Id>)
    requires TimesOk(s.mapInfo) && SameRecords(s, t, order)
    ensures TimesOk(t.mapInfo)
  {
  }

  lemma IsoRecords(s: State, t: State, order: seq<Id>)
    requires Isomorphic(s, t, order)
    ensures SameRecords(s, t, order)
  {
  }

  lemma PositionTimes(mi: map<Id, AddrInfo>, mj: map<Id, AddrInfo>)
    requires TimesOk(mi) && SameButPos(mi, mj)
    ensures TimesOk(mj)
  {
  }

  lemma ConnectedTimes(env: Env, s: State, service: Service, nTime: int)
    requires Inv(env, s) && TimesOk(s.mapInfo)
    ensures TimesOk(Connected(env, s, service, nTime).mapInfo)
  {
    hide Inv;
  }

  lemma StepTimes(env: Env, s: State, op: Op)
    requires Inv(env, s) && TimesOk(s.mapInfo)
    ensures TimesOk(Step(env, s, op).mapInfo) <==> TimeAccepted(s, op)
  {
    hide Inv, TimesOk, Good, Add, Attempt, Connected, GetAddrRounds, Reload, Isomorphic, SameRecords, SameButPos, Acts, RandOk;
    match op
    case OpAdd(addr, source, nPenalty, nNow, rnd) => AddTimes(env, s, addr, source, nPenalty, nNow, rnd);
    case OpGood(service, nTime, rnd) => GoodTimes(env, s, service, nTime, rnd);
    case OpAttempt(service, nTime) => AttemptTimes(env, s, service, nTime);
    case OpConnected(service, nTime) => ConnectedTimes(env, s, service, nTime);
    case OpGetAddr(rnd) =>
      PositionTimes(s.mapInfo, GetAddrRounds(env, s, rnd, GetAddrCount(|s.vRandom|)).mapInfo);
    case OpReload =>
      IsoRecords(s, Reload(env, s), Order(s));
      ReloadTimes(s, Reload(env, s), Order(s));
  }

  /** From a state that passes Check_, one call leads to a state that passes it if and
      only if the call was not given an unacceptable time that it acted on. */
  lemma StepPassesCheck(env: Env, s: State, op: Op)
    requires Inv(env, s) && Consistent(s)
    ensures Consistent(Step(env, s, op)) <==> TimeAccepted(s, op)
  {
    hide Inv, Consistent, TimesOk, Step, TimeAccepted;
    ValidMeetsCheck(env, s);
    StepTimes(env, s, op);
    ValidMeetsCheck(env, Step(env, s, op));
  }

  /** A time that is acceptable in every state. */
  predicate TimelyOp(op: Op) {
    (op.OpGood? ==> op.nTime > 0) && (op.OpAttempt? ==> op.nTime >= 0)
  }

  /** Every run whose calls are given real times passes Check_ at every point. */
  lemma {:induction false} RunPassesCheck(env: Env, key: Key, ops: seq<Op>)
    requires forall i :: 0 <= i < |ops| ==> TimelyOp(ops[i])
    ensures Consistent(Reached(env, key, ops))
  {
    hide Inv, Consistent, Step, TimesOk;
    InitialInv(env, key);
    if ops == [] {
      ValidMeetsCheck(env, Initial(key));
      assert TimesOk(Initial(key).mapInfo) by {
        InitialTimes(key);
      }
    } else {
      var n := |ops| - 1;
      RunPassesCheck(env, key, ops[..n]);
      StepPassesCheck(env, Reached(env, key, ops[..n]), ops[n]);
    }
  }

  lemma InitialTimes(key: Key)
    ensures TimesOk(Initial(key).mapInfo)
  {
  }
}
