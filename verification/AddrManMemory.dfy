/** Which addresses the manager forgets, and when. */
module AddrManMemory {
  import opened SortedSets
  import opened AddrManState
  import opened AddrManSteps
  import opened AddrManPersist
  import opened AddrManReload
  import opened AddrManRuns

  ghost predicate KnownTried(s: State, a: NetAddr) {
    a in s.mapAddr && s.mapAddr[a] in s.mapInfo && s.mapInfo[s.mapAddr[a]].fInTried
  }

  /** Records under their ids, with their addresses unchanged, keep the addresses known. */
  lemma SameAddresses(mi: map<Id, AddrInfo>, ma: map<NetAddr, Id>, mj: map<Id, AddrInfo>, mb: map<NetAddr, Id>)
    requires AddrOk(mi, ma) && AddrOk(mj, mb)
    requires forall x :: x in mi && x in mj ==> mi[x].service.addr == mj[x].service.addr
    ensures forall a :: a in ma && ma[a] in mj ==> a in mb
    ensures forall a :: a in mb && mb[a] in mi ==> a in ma && ma[a] == mb[a]
    ensures forall a :: a in ma ==> ma[a] in mi
    ensures forall a :: a in mb ==> mb[a] in mj && mj[mb[a]].service.addr == a
  {
  }

  lemma StatsSameAddr(mi: map<Id, AddrInfo>, mj: map<Id, AddrInfo>)
    requires AllStatsKept(mi, mj)
    ensures forall x :: x in mi && x in mj ==> mi[x].service.addr == mj[x].service.addr
  {
  }

  lemma AddrTable(env: Env, s: State)
    requires Inv(env, s)
    ensures AddrOk(s.mapInfo, s.mapAddr)
  {
  }

  /** Forgetting `gone` and learning `learnt`, seen from the addresses. */
  lemma KeysToAddresses(s: State, t: State, gone: set<Id>, learnt: set<Id>)
    requires AddrOk(s.mapInfo, s.mapAddr) && AddrOk(t.mapInfo, t.mapAddr) && AllStatsKept(s.mapInfo, t.mapInfo)
    requires t.mapInfo.Keys == s.mapInfo.Keys - gone + learnt && |gone| <= 1
    requires forall x :: x in gone ==> x in s.mapInfo && !s.mapInfo[x].fInTried
    ensures var lost := s.mapAddr.Keys - t.mapAddr.Keys;
      |lost| <= 1 && forall a :: a in lost ==> !KnownTried(s, a)
    ensures forall a :: a in t.mapAddr && a !in s.mapAddr ==>
      t.mapAddr[a] in learnt && t.mapAddr[a] in t.mapInfo && t.mapInfo[t.mapAddr[a]].service.addr == a
  {
    StatsSameAddr(s.mapInfo, t.mapInfo);
    SameAddresses(s.mapInfo, s.mapAddr, t.mapInfo, t.mapAddr);
    var lost := s.mapAddr.Keys - t.mapAddr.Keys;
    forall a | a in lost ensures s.mapAddr[a] in gone {
      assert s.mapAddr[a] in s.mapInfo && s.mapAddr[a] !in t.mapInfo;
    }
    OneLost(s.mapInfo, s.mapAddr, lost, gone);
  }

  /** At most one address goes, which was not tried, and at most `addr` comes. */
  ghost predicate Forgets(s: State, t: State, addr: NetAddr) {
    var lost := s.mapAddr.Keys - t.mapAddr.Keys;
    && |lost| <= 1 && (forall a :: a in lost ==> !KnownTried(s, a))
    && t.mapAddr.Keys - s.mapAddr.Keys <= {addr}
  }

  lemma KnownForgets(s: State, t: State, gone: set<Id>, addr: NetAddr)
    requires AddrOk(s.mapInfo, s.mapAddr) && AddrOk(t.mapInfo, t.mapAddr) && AllStatsKept(s.mapInfo, t.mapInfo)
    requires t.mapInfo.Keys == s.mapInfo.Keys - gone && |gone| <= 1
    requires forall x :: x in gone ==> x in s.mapInfo && !s.mapInfo[x].fInTried
    ensures Forgets(s, t, addr)
  {
    hide AddrOk, AllStatsKept, KnownTried;
    KeysToAddresses(s, t, gone, {});
  }

  lemma FreshForgets(s: State, t: State, gone: set<Id>, id: Id, addr: NetAddr)
    requires AddrOk(s.mapInfo, s.mapAddr) && AddrOk(t.mapInfo, t.mapAddr) && AllStatsKept(s.mapInfo, t.mapInfo)
    requires t.mapInfo.Keys == s.mapInfo.Keys - gone + {id} && |gone| <= 1
    requires id in t.mapInfo && t.mapInfo[id].service.addr == addr
    requires forall x :: x in gone ==> x in s.mapInfo && !s.mapInfo[x].fInTried
    ensures Forgets(s, t, addr)
  {
    hide AddrOk, AllStatsKept, KnownTried;
    KeysToAddresses(s, t, gone, {id});
  }

  /** Add forgets at most one address, which was not tried, and learns at most the one it is given. */
  lemma AddForgets(env: Env, s: State, addr: Address, source: NetAddr, nPenalty: int, nNow: int, rnd: nat -> nat)
    requires Inv(env, s)
    ensures Forgets(s, Add(env, s, addr, source, nPenalty, nNow, rnd), addr.service.addr)
  {
    hide Inv, Find, AddrOk, AllStatsKept, Add, KnownTried;
    var t := Add(env, s, addr, source, nPenalty, nNow, rnd);
    AddrTable(env, s);
    AddrTable(env, t);
    if !env.routable(addr.service.addr) {
      AddIgnores(env, s, addr, source, nPenalty, nNow, rnd);
    } else if Find(s, addr.service.addr).Some? {
      var gone := AddKnown(env, s, addr, source, nPenalty, nNow, rnd);
      KnownForgets(s, t, gone, addr.service.addr);
    } else {
      var gone := AddFresh(env, s, addr, source, nPenalty, nNow, rnd);
      FreshForgets(s, t, gone, s.nIdCount, addr.service.addr);
    }
  }

  lemma AddIgnores(env: Env, s: State, addr: Address, source: NetAddr, nPenalty: int, nNow: int, rnd: nat -> nat)
    requires Inv(env, s) && !env.routable(addr.service.addr)
    ensures Add(env, s, addr, source, nPenalty, nNow, rnd) == s
  {
    hide Inv;
  }

  /** Ids that go take their own addresses with them, one each. */
  lemma OneLost(mi: map<Id, AddrInfo>, ma: map<NetAddr, Id>, lost: set<NetAddr>, gone: set<Id>)
    requires AddrOk(mi, ma) && |gone| <= 1
    requires forall a :: a in lost ==> a in ma && ma[a] in gone
    ensures |lost| <= 1
  {
    if |lost| > 1 {
      var a := Pick(lost);
      assert |lost - {a}| == |lost| - 1;
      var c := Pick(lost - {a});
      assert ma[a] != ma[c];
      assert {ma[a], ma[c]} <= gone;
      SubsetSize({ma[a], ma[c]}, gone);
    }
  }

  // ----- the other operations -----

  lemma GoodRemembers(env: Env, s: State, service: Service, nTime: int, rnd: nat -> nat)
    requires Inv(env, s)
    ensures Good(env, s, service, nTime, rnd).mapAddr == s.mapAddr
  {
    hide Inv, Good;
    GoodStays(env, s, service, nTime, rnd);
    if Acts(s, service) {
      GoodMarks(env, s, service, nTime, rnd);
    }
  }

  lemma ReloadRemembers(env: Env, s: State, t: State, order: seq<Id>)
    requires Inv(env, s) && AddrOk(t.mapInfo, t.mapAddr) && SameRecords(s, t, order)
    requires forall id :: id in order <==> id in s.mapInfo
    ensures t.mapAddr.Keys == s.mapAddr.Keys
  {
    hide Inv, AddrOk, SameRecords;
    AddrTable(env, s);
    forall a ensures a in s.mapAddr <==> a in t.mapAddr {
      if a in s.mapAddr {
        RemembersThere(s, t, order, a);
      }
      if a in t.mapAddr {
        RemembersBack(s, t, order, a);
      }
    }
  }

  lemma RemembersThere(s: State, t: State, order: seq<Id>, a: NetAddr)
    requires AddrOk(s.mapInfo, s.mapAddr) && AddrOk(t.mapInfo, t.mapAddr) && SameRecords(s, t, order)
    requires (forall id :: id in order <==> id in s.mapInfo) && a in s.mapAddr
    ensures a in t.mapAddr
  {
    var k := Index(order, s.mapAddr[a]);
    assert t.mapInfo[k].service.addr == a;
  }

  lemma RemembersBack(s: State, t: State, order: seq<Id>, a: NetAddr)
    requires AddrOk(s.mapInfo, s.mapAddr) && AddrOk(t.mapInfo, t.mapAddr) && SameRecords(s, t, order)
    requires a in t.mapAddr
    ensures a in s.mapAddr
  {
    var k := t.mapAddr[a];
    assert order[k] in s.mapInfo && s.mapInfo[order[k]].service.addr == a;
  }

  lemma IsoParts(s: State, t: State, order: seq<Id>)
    requires Isomorphic(s, t, order)
    ensures SameRecords(s, t, order) && AddrOk(t.mapInfo, t.mapAddr) && forall id :: id in order <==> id in s.mapInfo
  {
  }

  lemma TouchRemembers(env: Env, s: State, service: Service, nTime: int)
    requires Inv(env, s)
    ensures Attempt(env, s, service, nTime).mapAddr == s.mapAddr
    ensures Connected(env, s, service, nTime).mapAddr == s.mapAddr
  {
    hide Inv;
  }

  /** At most one address is lost, an untried one, and none unless `adding`. */
  ghost predicate Loses(s: State, t: State, adding: bool) {
    var lost := s.mapAddr.Keys - t.mapAddr.Keys;
    && |lost| <= 1 && (forall a :: a in lost ==> !KnownTried(s, a))
    && (!adding ==> t.mapAddr.Keys == s.mapAddr.Keys)
  }

  /** Only Add ever forgets an address, one at a time, and never a tried one. */
  lemma StepForgets(env: Env, s: State, op: Op)
    requires Inv(env, s)
    ensures Loses(s, Step(env, s, op), op.OpAdd?)
  {
    hide Inv, Add, Good, Attempt, Connected, GetAddrRounds, Reload, Isomorphic, SameRecords, AddrOk, KnownTried, RandOk, Loses, Forgets;
    match op
    case OpAdd(addr, source, nPenalty, nNow, rnd) =>
      AddForgets(env, s, addr, source, nPenalty, nNow, rnd);
      ForgetsOne(s, Step(env, s, op), addr.service.addr);
    case OpGood(service, nTime, rnd) =>
      GoodRemembers(env, s, service, nTime, rnd);
      LosesNone(s, Step(env, s, op));
    case OpAttempt(service, nTime) =>
      TouchRemembers(env, s, service, nTime);
      LosesNone(s, Step(env, s, op));
    case OpConnected(service, nTime) =>
      TouchRemembers(env, s, service, nTime);
      LosesNone(s, Step(env, s, op));
    case OpGetAddr(rnd) =>
      LosesNone(s, Step(env, s, op));
    case OpReload =>
      IsoParts(s, Reload(env, s), Order(s));
      ReloadRemembers(env, s, Reload(env, s), Order(s));
      LosesNone(s, Step(env, s, op));
  }

  lemma LosesNone(s: State, t: State)
    requires t.mapAddr.Keys == s.mapAddr.Keys
    ensures Loses(s, t, false)
  {
    assert s.mapAddr.Keys - t.mapAddr.Keys == {};
  }

  lemma ForgetsOne(s: State, t: State, addr: NetAddr)
    requires Forgets(s, t, addr)
    ensures Loses(s, t, true)
  {
  }

  /** Over any run, a tried address that is gone at the end was demoted first: at some
      point in between it was known but not tried. */
  lemma {:induction false} OnlyDemotedAreForgotten(env: Env, s: State, ops: seq<Op>, a: NetAddr) returns (k: nat)
    requires Inv(env, s) && KnownTried(s, a) && a !in Run(env, s, ops).mapAddr
    ensures k < |ops| && a in Run(env, s, ops[..k]).mapAddr && !KnownTried(Run(env, s, ops[..k]), a)
  {
    hide Inv, Step;
    if ops == [] {
      assert false;
    } else {
      var n := |ops| - 1;
      var p := Run(env, s, ops[..n]);
      if a !in p.mapAddr {
        k := OnlyDemotedAreForgotten(env, s, ops[..n], a);
        assert ops[..n][..k] == ops[..k];
      } else {
        StepForgets(env, p, ops[n]);
        assert a in p.mapAddr.Keys - Step(env, p, ops[n]).mapAddr.Keys;
        k := n;
      }
    }
  }
}
