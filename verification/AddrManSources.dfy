/** How little of the "new" table the sources of a few groups can reach. */
module AddrManSources {
  import opened Options
  import opened Numerals
  import opened SortedSets
  import opened AddrManState
  import opened AddrManInv
  import opened AddrManTried
  import opened AddrManSteps
  import opened AddrManLoad
  import opened AddrManReload
  import opened AddrManRuns
  import opened AddrManCapacity
  import opened AddrManLearn

  type Group = seq<bv8>

  /** The buckets that a source of the group can put addresses into, for the first `n` of the
      values that the first round of hashing can have. */
  function GroupBuckets(env: Env, key: Key, group: Group, n: nat := NEW_BUCKETS_PER_SOURCE_GROUP): (s: set<nat>)
    ensures |s| <= n
    ensures forall r: nat :: r < n ==> env.newHash2(key, group, r) % NEW_BUCKET_COUNT in s
  {
    if n == 0 then {} else
    GroupBuckets(env, key, group, n - 1) + {env.newHash2(key, group, n - 1) % NEW_BUCKET_COUNT}
  }

  /** The buckets that sources of any of the groups can reach. */
  ghost function Reachable(env: Env, key: Key, groups: seq<Group>): set<nat> {
    if groups == [] then {}
    else Reachable(env, key, groups[..|groups| - 1]) + GroupBuckets(env, key, groups[|groups| - 1])
  }

  lemma {:induction false} ReachableAreFew(env: Env, key: Key, groups: seq<Group>)
    ensures |Reachable(env, key, groups)| <= |groups| * NEW_BUCKETS_PER_SOURCE_GROUP
  {
    if groups != [] {
      var n := |groups| - 1;
      ReachableAreFew(env, key, groups[..n]);
      var a, b := Reachable(env, key, groups[..n]), GroupBuckets(env, key, groups[n]);
      assert |a + b| == |a| + |b - a|;
      SubsetSize(b - a, b);
    }
  }

  lemma {:induction false} ReachesOwn(env: Env, key: Key, groups: seq<Group>, addr: NetAddr, source: NetAddr)
    requires From(env, groups, source)
    ensures NewBucket(env, key, addr, source) in Reachable(env, key, groups)
  {
    var n := |groups| - 1;
    if env.group(source) == groups[n] {
      assert NewBucket(env, key, addr, source) in GroupBuckets(env, key, groups[n]) by {
        var r: nat := env.newHash1(key, env.group(addr), env.group(source)) % NEW_BUCKETS_PER_SOURCE_GROUP;
        assert NewBucket(env, key, addr, source) == env.newHash2(key, groups[n], r) % NEW_BUCKET_COUNT;
      }
    } else {
      var i :| 0 <= i < |groups| && groups[i] == env.group(source);
      assert groups[..n][i] == env.group(source);
      ReachesOwn(env, key, groups[..n], addr, source);
    }
  }

  /** The source belongs to one of the groups. */
  predicate From(env: Env, groups: seq<Group>, source: NetAddr) {
    exists i :: 0 <= i < |groups| && groups[i] == env.group(source)
  }

  /** All records come from sources of the groups, and only buckets they reach hold any. */
  ghost predicate Confined(env: Env, groups: seq<Group>, s: State) {
    && (forall id :: id in s.mapInfo ==> From(env, groups, s.mapInfo[id].source))
    && (forall b :: 0 <= b < |s.vvNew| && s.vvNew[b] != {} ==> b in Reachable(env, s.nKey, groups))
  }

  lemma ConfinedFrame(env: Env, groups: seq<Group>, s: State, t: State)
    requires Confined(env, groups, s) && t.nKey == s.nKey && |t.vvNew| == |s.vvNew|
    requires forall id :: id in t.mapInfo ==> id in s.mapInfo && t.mapInfo[id].source == s.mapInfo[id].source
    requires forall b :: 0 <= b < |s.vvNew| && t.vvNew[b] != {} ==> s.vvNew[b] != {} || b in Reachable(env, s.nKey, groups)
    ensures Confined(env, groups, t)
  {
    hide Reachable, From;
  }

  lemma AddRefKey(env: Env, s: State, b: int, id: Id, nNow: int, rnd: nat -> nat)
    requires Tables(env, s, NOBODY) && id in s.mapInfo && 0 <= b < |s.vvNew|
    ensures AddRef(env, s, b, id, nNow, rnd).nKey == s.nKey
  {
    hide Tables, RandOk, ShrinkVictim;
    CountAhead(env, s, id);
  }

  /** What Add has done, whichever way it went. */
  ghost predicate Placed(env: Env, s: State, t: State, addr: NetAddr, source: NetAddr) {
    var b := NewBucket(env, s.nKey, addr, source);
    && t.nKey == s.nKey && |t.vvNew| == |s.vvNew|
    && (forall c :: 0 <= c < |s.vvNew| && c != b ==> t.vvNew[c] == s.vvNew[c])
    && (forall id :: id in t.mapInfo ==>
          if id in s.mapInfo then t.mapInfo[id].source == s.mapInfo[id].source else t.mapInfo[id].source == source)
  }

  lemma PlacedConfined(env: Env, groups: seq<Group>, s: State, t: State, addr: NetAddr, source: NetAddr)
    requires Confined(env, groups, s) && From(env, groups, source) && Placed(env, s, t, addr, source)
    ensures Confined(env, groups, t)
  {
    hide Reachable, From, NewBucket;
    ReachesOwn(env, s.nKey, groups, addr, source);
  }

  lemma EnteredElsewhere(vv: seq<set<Id>>, ww: seq<set<Id>>, b: int, id: Id)
    requires Entered(vv, ww, b, id)
    ensures |ww| == |vv| && forall c :: 0 <= c < |vv| && c != b ==> ww[c] == vv[c]
  {
  }

  lemma AddKnownPlaces(env: Env, s: State, addr: Address, source: NetAddr, nPenalty: int, nNow: int, rnd: nat -> nat)
    requires Inv(env, s) && env.routable(addr.service.addr) && Find(s, addr.service.addr).Some?
    ensures Placed(env, s, Add(env, s, addr, source, nPenalty, nNow, rnd), addr.service.addr, source)
  {
    hide Inv, Tables, RefRoom, AddRef, Add, Find, Entered, NewBucket;
    var t := Add(env, s, addr, source, nPenalty, nNow, rnd);
    var id, info := AddRefreshes(env, s, addr, source, nPenalty, nNow, rnd);
    var s1 := Touch(s, id, info);
    var b := NewBucket(env, s.nKey, addr.service.addr, source);
    if t != s1 {
      AddRefEnters(env, s1, b, id, nNow, rnd);
      EnteredElsewhere(s1.vvNew, t.vvNew, b, id);
      AddRefKey(env, s1, b, id, nNow, rnd);
    }
    var lost := AddKnown(env, s, addr, source, nPenalty, nNow, rnd);
  }

  lemma AddFreshPlaces(env: Env, s: State, addr: Address, source: NetAddr, nPenalty: int, nNow: int, rnd: nat -> nat)
    requires Inv(env, s) && env.routable(addr.service.addr) && Find(s, addr.service.addr) == None
    ensures Placed(env, s, Add(env, s, addr, source, nPenalty, nNow, rnd), addr.service.addr, source)
  {
    hide Inv, Tables, RefRoom, AddRef, Add, Find, Register, Entered, NewBucket;
    var t := Add(env, s, addr, source, nPenalty, nNow, rnd);
    AddRegisters(env, s, addr, source, nPenalty, nNow, rnd);
    RegisterBuckets(s, addr, source, nPenalty);
    var b := NewBucket(env, s.nKey, addr.service.addr, source);
    var s1 := Register(s, addr, source, nPenalty);
    AddRefEnters(env, s1, b, s.nIdCount, nNow, rnd);
    EnteredElsewhere(s.vvNew, t.vvNew, b, s.nIdCount);
    AddRefKey(env, s1, b, s.nIdCount, nNow, rnd);
    var lost := AddFresh(env, s, addr, source, nPenalty, nNow, rnd);
  }

  lemma AddConfined(env: Env, groups: seq<Group>, s: State, addr: Address, source: NetAddr, nPenalty: int, nNow: int, rnd: nat -> nat)
    requires Inv(env, s) && Confined(env, groups, s) && From(env, groups, source)
    ensures Confined(env, groups, Add(env, s, addr, source, nPenalty, nNow, rnd))
  {
    hide Inv, Confined, From, Placed, Find;
    var t := Add(env, s, addr, source, nPenalty, nNow, rnd);
    if env.routable(addr.service.addr) {
      if Find(s, addr.service.addr).Some? {
        AddKnownPlaces(env, s, addr, source, nPenalty, nNow, rnd);
      } else {
        AddFreshPlaces(env, s, addr, source, nPenalty, nNow, rnd);
      }
      PlacedConfined(env, groups, s, t, addr.service.addr, source);
    }
  }

  lemma MakeTriedConfined(env: Env, groups: seq<Group>, s: State, id: Id, nOrigin: int, rnd: nat -> nat)
    requires Inv(env, s) && Confined(env, groups, s) && id in s.mapInfo && !s.mapInfo[id].fInTried
    requires 0 <= nOrigin < |s.vvNew| == NEW_BUCKET_COUNT && |s.vvTried| == TRIED_BUCKET_COUNT && id in s.vvNew[nOrigin]
    ensures Confined(env, groups, MakeTried(env, s, id, nOrigin, rnd))
  {
    hide Inv, Confined, RecordsMoved, TriedMoved, NewMoved, MakeTried, Destination;
    var t := MakeTried(env, s, id, nOrigin, rnd);
    var demoted, target := MakeTriedMoves(env, s, id, nOrigin, rnd);
    SameSources(s.mapInfo, t.mapInfo, id, demoted);
    forall x | x in demoted
      ensures 0 <= target < |s.vvNew| && (s.vvNew[target] != {} || target in Reachable(env, s.nKey, groups))
    {
      DemotedConfined(env, groups, s, x, id, nOrigin);
    }
    FilledByDemoted(s.vvNew, t.vvNew, id, demoted, target);
    ConfinedFrame(env, groups, s, t);
  }

  lemma SameSources(mi: map<Id, AddrInfo>, mj: map<Id, AddrInfo>, id: Id, demoted: set<Id>)
    requires RecordsMoved(mi, mj, id, demoted)
    ensures forall x :: x in mj ==> x in mi && mj[x].source == mi[x].source
  {
  }

  lemma FilledByDemoted(vv: seq<set<Id>>, ww: seq<set<Id>>, id: Id, demoted: set<Id>, target: int)
    requires NewMoved(vv, ww, id, demoted, target)
    ensures |ww| == |vv| && forall b :: 0 <= b < |vv| && ww[b] != {} ==> vv[b] != {} || (b == target && exists x :: x in demoted)
  {
    forall b | 0 <= b < |vv| && ww[b] != {} && vv[b] == {} ensures b == target && exists x :: x in demoted {
      var x := Pick(ww[b]);
      assert b == target && x in demoted;
    }
  }

  /** A demoted entry goes where its own source leads, or to a bucket that held the promoted one. */
  lemma DemotedConfined(env: Env, groups: seq<Group>, s: State, x: Id, id: Id, nOrigin: int)
    requires Confined(env, groups, s) && x in s.mapInfo && |s.vvNew| == NEW_BUCKET_COUNT
    requires 0 <= nOrigin < |s.vvNew| && id in s.vvNew[nOrigin]
    ensures var target := Destination(env, s, x, id, nOrigin);
      0 <= target < |s.vvNew| && (s.vvNew[target] != {} || target in Reachable(env, s.nKey, groups))
  {
    hide Reachable, NewBucket, From;
    ReachesOwn(env, s.nKey, groups, s.mapInfo[x].service.addr, s.mapInfo[x].source);
  }

  lemma GoodConfined(env: Env, groups: seq<Group>, s: State, service: Service, nTime: int, rnd: nat -> nat)
    requires Inv(env, s) && Confined(env, groups, s)
    ensures Confined(env, groups, Good(env, s, service, nTime, rnd))
  {
    hide Inv, Good, MakeTried, From, Reachable;
    GoodStays(env, s, service, nTime, rnd);
    if Acts(s, service) {
      var id := Find(s, service.addr).value;
      ConfinedFrame(env, groups, s, Touch(s, id, MarkGood(s.mapInfo[id], nTime)));
      if !s.mapInfo[id].fInTried {
        var s1, _, b := GoodMoves(env, s, service, nTime, rnd);
        MakeTriedConfined(env, groups, s1, id, b, rnd);
      }
    }
  }

  lemma TouchConfined(env: Env, groups: seq<Group>, s: State, service: Service, nTime: int)
    requires Inv(env, s) && Confined(env, groups, s)
    ensures Confined(env, groups, Attempt(env, s, service, nTime))
    ensures Confined(env, groups, Connected(env, s, service, nTime))
  {
    hide Inv, From, Reachable;
    ConfinedFrame(env, groups, s, Attempt(env, s, service, nTime));
    ConfinedFrame(env, groups, s, Connected(env, s, service, nTime));
  }

  lemma {:induction false} GetAddrConfined(env: Env, groups: seq<Group>, s: State, rnd: nat -> nat, n: nat)
    requires Inv(env, s) && Confined(env, groups, s) && n <= |s.vRandom|
    ensures Confined(env, groups, GetAddrRounds(env, s, rnd, n))
  {
    hide Inv, From, Reachable, SwapRandom, RandOk, GetRandInt, GetAddrRounds, Confined;
    GetAddrStart(env, s, rnd);
    if n > 0 {
      GetAddrConfined(env, groups, s, rnd, n - 1);
      GetAddrStep(env, s, rnd, n - 1);
      var p := GetAddrRounds(env, s, rnd, n - 1);
      var pos := GetRandInt(rnd(n - 1), |p.vRandom| - (n - 1)) + n - 1;
      SwapKeepsInv(env, p, n - 1, pos);
      ConfinedFrame(env, groups, p, GetAddrRounds(env, s, rnd, n));
    }
  }

  lemma ReloadConfined(env: Env, groups: seq<Group>, s: State, t: State, order: seq<Id>)
    requires Confined(env, groups, s) && Isomorphic(s, t, order)
    ensures Confined(env, groups, t)
  {
    hide AddrOk, SameTried, NoDup, From, Reachable;
    forall b | 0 <= b < |s.vvNew| && t.vvNew[b] != {} ensures s.vvNew[b] != {} {
      var k := Pick(t.vvNew[b]);
      assert k in Image(order, s.vvNew[b]);
    }
  }

  lemma StepConfined(env: Env, groups: seq<Group>, s: State, op: Op)
    requires Inv(env, s) && Confined(env, groups, s) && (op.OpAdd? ==> From(env, groups, op.source))
    ensures Confined(env, groups, Step(env, s, op))
  {
    hide Inv, Confined, From, Isomorphic, Add, Good, Attempt, Connected, GetAddrRounds, Reload;
    match op
    case OpAdd(addr, source, nPenalty, nNow, rnd) => AddConfined(env, groups, s, addr, source, nPenalty, nNow, rnd);
    case OpGood(service, nTime, rnd) => GoodConfined(env, groups, s, service, nTime, rnd);
    case OpAttempt(service, nTime) => TouchConfined(env, groups, s, service, nTime);
    case OpConnected(service, nTime) => TouchConfined(env, groups, s, service, nTime);
    case OpGetAddr(rnd) => GetAddrConfined(env, groups, s, rnd, GetAddrCount(|s.vRandom|));
    case OpReload => ReloadConfined(env, groups, s, Reload(env, s), Order(s));
  }

  lemma {:induction false} RunConfined(env: Env, groups: seq<Group>, key: Key, ops: seq<Op>)
    requires forall i :: 0 <= i < |ops| && ops[i].OpAdd? ==> From(env, groups, ops[i].source)
    ensures Confined(env, groups, Reached(env, key, ops))
  {
    hide Inv, From, Step;
    InitialInv(env, key);
    if ops != [] {
      var n := |ops| - 1;
      RunConfined(env, groups, key, ops[..n]);
      StepConfined(env, groups, Reached(env, key, ops[..n]), ops[n]);
    }
  }

  /** Whatever the run, sources of `n` groups fill at most 32 "new" buckets for each, and so
      keep at most 2048 untried addresses for each. */
  lemma SourcesAreBounded(env: Env, groups: seq<Group>, key: Key, ops: seq<Op>)
    requires forall i :: 0 <= i < |ops| && ops[i].OpAdd? ==> From(env, groups, ops[i].source)
    ensures var s := Reached(env, key, ops);
      && |FilledBuckets(s)| <= |groups| * 32 && s.nNew <= |groups| * 2048
  {
    hide Inv, Reached, From, Reachable;
    var s := Reached(env, key, ops);
    RunConfined(env, groups, key, ops);
    ReachableAreFew(env, s.nKey, groups);
    SubsetSize(FilledBuckets(s), Reachable(env, s.nKey, groups));
    Parts(env, s);
    FilledHold(s);
    MulMono(|FilledBuckets(s)|, |groups| * NEW_BUCKETS_PER_SOURCE_GROUP, NEW_BUCKET_SIZE);
  }

  lemma FilledHold(s: State)
    requires NewOk(s.mapInfo, s.vvNew, NOBODY) && RefOk(s.mapInfo)
    ensures |NewIds(s.mapInfo)| <= |FilledBuckets(s)| * NEW_BUCKET_SIZE
  {
    hide NewOk, RefOk, NewIds, FilledBuckets;
    var bs := Sorted(FilledBuckets(s));
    var ss := seq(|bs|, i requires 0 <= i < |bs| => if bs[i] < |s.vvNew| then s.vvNew[bs[i]] else {});
    FilledCover(s, bs, ss);
    Covered(NewIds(s.mapInfo), ss, NEW_BUCKET_SIZE);
  }

  ghost function FilledBuckets(s: State): set<nat> {
    set b: nat | b < |s.vvNew| && s.vvNew[b] != {}
  }

  lemma FilledCover(s: State, bs: seq<nat>, ss: seq<set<Id>>)
    requires NewOk(s.mapInfo, s.vvNew, NOBODY) && RefOk(s.mapInfo) && |ss| == |bs|
    requires forall b: nat :: b in FilledBuckets(s) <==> b in bs
    requires forall i :: 0 <= i < |bs| ==> ss[i] == if bs[i] < |s.vvNew| then s.vvNew[bs[i]] else {}
    ensures forall id :: id in NewIds(s.mapInfo) ==> exists i :: 0 <= i < |ss| && id in ss[i]
    ensures forall i :: 0 <= i < |ss| ==> |ss[i]| <= NEW_BUCKET_SIZE
  {
    forall id | id in NewIds(s.mapInfo) ensures exists i :: 0 <= i < |ss| && id in ss[i] {
      CountZero(s.vvNew, id);
      var b: nat :| b < |s.vvNew| && id in s.vvNew[b];
      assert b in FilledBuckets(s);
      var i :| 0 <= i < |bs| && bs[i] == b;
      assert id in ss[i];
    }
  }
}
