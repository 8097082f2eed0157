/** The public operations as functions of the state, and the proof that each of
    them keeps the invariant. */
module AddrManSteps {
  import opened Options
  import opened AddrManState
  import opened AddrManInv
  import opened AddrManTried

  lemma InitialInv(env: Env, key: Key)
    ensures Inv(env, Initial(key))
  {
    assert TriedIds(map[]) == {} && NewIds(map[]) == {};
  }

  // ----- Add -----

  /** A record just created is known everywhere but in the buckets. */
  ghost predicate Registered(s: State, t: State, addr: NetAddr) {
    && s.nIdCount in t.mapInfo && t.mapInfo.Keys == s.mapInfo.Keys + {s.nIdCount}
    && (forall id :: id in s.mapInfo ==> t.mapInfo[id] == s.mapInfo[id])
    && (var info := t.mapInfo[s.nIdCount];
        info.service.addr == addr && info.nRefCount == 0 && !info.fInTried && info.nRandomPos == |s.vRandom|)
    && t == s.(nIdCount := s.nIdCount + 1, mapInfo := t.mapInfo, mapAddr := s.mapAddr[addr := s.nIdCount],
               vRandom := s.vRandom + [s.nIdCount], nNew := s.nNew + 1)
  }

  lemma RegisterIds(s: State, t: State, addr: NetAddr)
    requires IdsOk(s.mapInfo, s.nIdCount) && Registered(s, t, addr)
    ensures IdsOk(t.mapInfo, t.nIdCount) && s.nIdCount !in s.mapInfo
  {
  }

  lemma RegisterAddr(s: State, t: State, addr: NetAddr)
    requires AddrOk(s.mapInfo, s.mapAddr) && Registered(s, t, addr)
    requires s.nIdCount !in s.mapInfo && addr !in s.mapAddr
    ensures AddrOk(t.mapInfo, t.mapAddr)
  {
  }

  lemma RegisterRand(s: State, t: State, addr: NetAddr)
    requires RandOk(s.mapInfo, s.vRandom) && Registered(s, t, addr) && s.nIdCount !in s.mapInfo
    ensures RandOk(t.mapInfo, t.vRandom)
  {
  }

  lemma RegisterNew(s: State, t: State, addr: NetAddr)
    requires NewOk(s.mapInfo, s.vvNew, NOBODY) && Registered(s, t, addr) && s.nIdCount !in s.mapInfo
    ensures NewOk(t.mapInfo, t.vvNew, NOBODY)
  {
    CountZero(s.vvNew, s.nIdCount);
  }

  lemma RegisterTried(env: Env, s: State, t: State, addr: NetAddr)
    requires TriedOk(env, s.nKey, s.mapInfo, s.vvTried) && Registered(s, t, addr)
    ensures TriedOk(env, t.nKey, t.mapInfo, t.vvTried)
  {
    forall b | 0 <= b < |t.vvTried| ensures TriedBucketOk(env, t.nKey, t.mapInfo, b, t.vvTried[b]) {
      assert TriedBucketOk(env, s.nKey, s.mapInfo, b, s.vvTried[b]);
    }
  }

  lemma RegisterTally(s: State, t: State, addr: NetAddr)
    requires TallyOk(s.mapInfo, s.nTried, s.nNew) && Registered(s, t, addr) && s.nIdCount !in s.mapInfo
    ensures TallyOk(t.mapInfo, t.nTried, t.nNew)
  {
    TallyOneMore(s.mapInfo, t.mapInfo, s.nIdCount);
  }

  lemma TallyOneMore(mi: map<Id, AddrInfo>, mj: map<Id, AddrInfo>, id: Id)
    requires id !in mi && id in mj && !mj[id].fInTried
    requires forall x :: x in mj <==> x in mi || x == id
    requires forall x :: x in mi ==> mj[x] == mi[x]
    ensures |TriedIds(mj)| == |TriedIds(mi)| && |NewIds(mj)| == |NewIds(mi)| + 1
  {
    assert TriedIds(mj) == TriedIds(mi);
    assert NewIds(mj) == NewIds(mi) + {id};
  }

  lemma RegisterKeeps(env: Env, s: State, t: State, addr: NetAddr)
    requires Inv(env, s) && Registered(s, t, addr) && addr !in s.mapAddr
    ensures Tables(env, t, NOBODY) && s.nIdCount !in s.mapInfo
  {
    hide NewOk, RandOk, AddrOk, TriedOk, RefOk, IdsOk, TallyOk, Registered;
    Parts(env, s);
    RegisterIds(s, t, addr);
    RegisterAddr(s, t, addr);
    RegisterRand(s, t, addr);
    RegisterNew(s, t, addr);
    RegisterTried(env, s, t, addr);
    RegisterTally(s, t, addr);
  }

  /** The reference counts once `id` is in bucket `b`. */
  ghost predicate RefRoom(s: State, b: int, id: Id) {
    && id in s.mapInfo && 0 <= b < |s.vvNew| && !s.mapInfo[id].fInTried
    && 0 <= s.mapInfo[id].nRefCount < NEW_BUCKETS_PER_ADDRESS
    && (forall x :: x in s.mapInfo && x != id ==>
          if s.mapInfo[x].fInTried then s.mapInfo[x].nRefCount == 0
          else 1 <= s.mapInfo[x].nRefCount <= NEW_BUCKETS_PER_ADDRESS)
  }

  lemma CountedAheadRefs(s: State, b: int, id: Id)
    requires RefRoom(s, b, id)
    ensures RefOk(CountedAhead(s, id).mapInfo)
  {
  }

  lemma InBucketHasRef(s: State, b: int, id: Id)
    requires NewOk(s.mapInfo, s.vvNew, NOBODY) && RefRoom(s, b, id) && id in s.vvNew[b]
    ensures RefOk(s.mapInfo)
  {
    CountZero(s.vvNew, id);
  }

  lemma BucketFits(s: State, b: int, pend: int)
    requires NewOk(s.mapInfo, s.vvNew, pend) && 0 <= b < |s.vvNew|
    ensures |s.vvNew[b]| <= NEW_BUCKET_SIZE
  {
  }

  lemma AddRefKeeps(env: Env, s: State, b: int, id: Id, nNow: int, rnd: nat -> nat)
    requires Tables(env, s, NOBODY) && id in s.mapInfo && 0 <= b < |s.vvNew| && RefRoom(s, b, id)
    ensures Inv(env, AddRef(env, s, b, id, nNow, rnd))
  {
    hide Tables, RefRoom, NewOk, RandOk, RefOk, DropRef, ShrinkVictim;
    NewTable(env, s, NOBODY);
    if id in s.vvNew[b] {
      InBucketHasRef(s, b, id);
    } else {
      CountAhead(env, s, id);
      CountedAheadRefs(s, b, id);
      BucketFits(s, b, NOBODY);
      var s1 := CountedAhead(s, id);
      if |s.vvNew[b]| == NEW_BUCKET_SIZE {
        var victim := ShrinkVictim(s1.vvNew[b], s1.mapInfo, nNow, rnd);
        assert victim in s1.vvNew[b];
        assert victim in s1.mapInfo;
        DropRefKeeps(env, s1, b, victim, id);
        InsertKeeps(env, ShrinkNew(s1, b, nNow, rnd), b, id);
      } else {
        InsertKeeps(env, s1, b, id);
      }
    }
  }

  /** A fresh record with its time penalty applied. */
  function Register(s: State, addr: Address, source: NetAddr, nPenalty: int): State {
    var s1 := Create(s, addr, source);
    var info := s1.mapInfo[s.nIdCount];
    s1.(mapInfo := s1.mapInfo[s.nIdCount := info.(nTime := ToUInt32(Max(0, info.nTime - nPenalty)))],
        nNew := s1.nNew + 1)
  }

  lemma RegisterIsFresh(s: State, addr: Address, source: NetAddr, nPenalty: int)
    requires s.nIdCount !in s.mapInfo
    ensures Registered(s, Register(s, addr, source, nPenalty), addr.service.addr)
  {
  }

  lemma FindKnown(s: State, addr: NetAddr)
    requires AddrOk(s.mapInfo, s.mapAddr) && Find(s, addr).Some?
    ensures var id := Find(s, addr).value; id in s.mapInfo && s.mapInfo[id].service.addr == addr
  {
  }

  lemma RefreshLinks(info: AddrInfo, addr: Address, nPenalty: int, nNow: int)
    ensures SameLinks(info, Refresh(info, addr, nPenalty, nNow))
  {
  }

  lemma RegisterTables(env: Env, s: State, addr: Address, source: NetAddr, nPenalty: int)
    requires Inv(env, s) && Find(s, addr.service.addr) == None
    ensures var t := Register(s, addr, source, nPenalty);
      && Tables(env, t, NOBODY)
      && s.nIdCount in t.mapInfo && t.mapInfo[s.nIdCount].service.addr == addr.service.addr
      && (forall b :: 0 <= b < |s.vvNew| ==> RefRoom(t, b, s.nIdCount))
      && |t.vvNew| == NEW_BUCKET_COUNT && t.nKey == s.nKey
  {
    hide Inv, Tables, TriedOk, RandOk, NewOk, AddrOk, TallyOk, IdsOk, RefOk, Find, RefRoom;
    Parts(env, s);
    UnknownAddr(env, s, addr.service.addr);
    RegisterIsFresh(s, addr, source, nPenalty);
    var t := Register(s, addr, source, nPenalty);
    RegisterKeeps(env, s, t, addr.service.addr);
    forall b | 0 <= b < |s.vvNew| ensures RefRoom(t, b, s.nIdCount) {
      FreshRoom(s, t, addr.service.addr, b);
    }
  }

  lemma UnknownAddr(env: Env, s: State, addr: NetAddr)
    requires Inv(env, s) && Find(s, addr) == None
    ensures addr !in s.mapAddr && s.nIdCount !in s.mapInfo
  {
  }

  lemma FreshRoom(s: State, t: State, addr: NetAddr, b: int)
    requires RefOk(s.mapInfo) && Registered(s, t, addr) && 0 <= b < |s.vvNew|
    ensures RefRoom(t, b, s.nIdCount)
  {
  }

  lemma MayAddRefRoom(info: AddrInfo, addr: Address, raw: nat)
    requires MayAddRef(info, addr, raw)
    ensures !info.fInTried && info.nRefCount != NEW_BUCKETS_PER_ADDRESS
  {
  }

  lemma KnownRoom(env: Env, s: State, id: Id, b: int)
    requires RefOk(s.mapInfo) && id in s.mapInfo && 0 <= b < |s.vvNew|
    requires !s.mapInfo[id].fInTried && s.mapInfo[id].nRefCount != NEW_BUCKETS_PER_ADDRESS
    ensures RefRoom(s, b, id)
  {
  }

  /** Add_ */
  ghost function Add(env: Env, s: State, addr: Address, source: NetAddr, nPenalty: int, nNow: int, rnd: nat -> nat): (t: State)
    requires Inv(env, s)
    ensures Inv(env, t)
  {
    hide Inv, Tables, RandOk, NewOk, TriedOk, AddrOk, RefRoom, RefOk, AddRef, IdsOk, TallyOk, Find, Refresh, Register, MayAddRef;
    if !env.routable(addr.service.addr) then s else
    Parts(env, s);
    var b := NewBucket(env, s.nKey, addr.service.addr, source);
    match Find(s, addr.service.addr)
    case Some(id) =>
      FindKnown(s, addr.service.addr);
      RefreshLinks(s.mapInfo[id], addr, nPenalty, nNow);
      var info := Refresh(s.mapInfo[id], addr, nPenalty, nNow);
      TouchKeeps(env, s, id, info);
      var s1 := Touch(s, id, info);
      Parts(env, s1);
      if !MayAddRef(info, addr, rnd(0)) then s1 else
      MayAddRefRoom(info, addr, rnd(0));
      KnownRoom(env, s1, id, b);
      AddRefKeeps(env, s1, b, id, nNow, rnd);
      AddRef(env, s1, b, id, nNow, rnd)
    case None =>
      RegisterTables(env, s, addr, source, nPenalty);
      var s1 := Register(s, addr, source, nPenalty);
      AddRefKeeps(env, s1, b, s.nIdCount, nNow, rnd);
      AddRef(env, s1, b, s.nIdCount, nNow, rnd)
  }

  // ----- Good -----

  lemma {:induction false} ScanFinds(vv: seq<set<Id>>, id: Id, nRnd: nat, n: nat)
    requires nRnd < |vv| && n <= |vv|
    ensures Scan(vv, id, nRnd, n) == -1 <==> forall k :: n <= k < |vv| ==> id !in vv[Rotated(k, nRnd, |vv|)]
    decreases |vv| - n
  {
    if n < |vv| && id !in vv[Rotated(n, nRnd, |vv|)] {
      ScanFinds(vv, id, nRnd, n + 1);
    }
  }

  /** A rotated scan visits each bucket at exactly one step. */
  lemma RotationVisitsOnce(nRnd: nat, m: nat, b: nat) returns (n: nat)
    requires nRnd < m && b < m
    ensures n < m && Rotated(n, nRnd, m) == b
    ensures forall k: nat :: k < m && Rotated(k, nRnd, m) == b ==> k == n
  {
    n := if b >= nRnd then b - nRnd else b - nRnd + m;
  }

  /** Every untried record of a valid state is found by the scan, wherever it starts. */
  lemma GoodFindsBucket(env: Env, s: State, id: Id, nRnd: nat)
    requires Inv(env, s) && id in s.mapInfo && !s.mapInfo[id].fInTried && nRnd < NEW_BUCKET_COUNT
    ensures |s.vvNew| == NEW_BUCKET_COUNT
    ensures var b := Scan(s.vvNew, id, nRnd, 0); 0 <= b < |s.vvNew| && id in s.vvNew[b]
  {
    CountZero(s.vvNew, id);
    var b :| 0 <= b < |s.vvNew| && id in s.vvNew[b];
    var n := RotationVisitsOnce(nRnd, |s.vvNew|, b);
    ScanFinds(s.vvNew, id, nRnd, 0);
  }

  /** Good_ */
  ghost function Good(env: Env, s: State, service: Service, nTime: int, rnd: nat -> nat): (t: State)
    requires Inv(env, s)
    ensures Inv(env, t)
  {
    hide Inv, MakeTried;
    match Find(s, service.addr)
    case None => s
    case Some(id) =>
      var info := s.mapInfo[id];
      if info.service != service then s else
      TouchKeeps(env, s, id, MarkGood(info, nTime));
      var s1 := Touch(s, id, MarkGood(info, nTime));
      if info.fInTried then s1 else
      var nRnd := GetRandInt(rnd(0), NEW_BUCKET_COUNT);
      Parts(env, s1);
      var nUBucket := Scan(s1.vvNew, id, nRnd, 0);
      if nUBucket == -1 then s1 else
      MakeTriedKeeps(env, s1, id, nUBucket, rnd);
      MakeTried(env, s1, id, nUBucket, rnd)
  }

  // ----- Attempt, Connected, GetAddr -----

  /** Attempt_ */
  ghost function Attempt(env: Env, s: State, service: Service, nTime: int): (t: State)
    requires Inv(env, s)
    ensures Inv(env, t)
  {
    hide Inv;
    match Find(s, service.addr)
    case None => s
    case Some(id) =>
      var info := s.mapInfo[id];
      if info.service != service then s else
      var info' := info.(nLastTry := nTime, nAttempts := info.nAttempts + 1);
      TouchKeeps(env, s, id, info');
      Touch(s, id, info')
  }

  /** Connected_ */
  ghost function Connected(env: Env, s: State, service: Service, nTime: int): (t: State)
    requires Inv(env, s)
    ensures Inv(env, t)
  {
    hide Inv;
    match Find(s, service.addr)
    case None => s
    case Some(id) =>
      var info := s.mapInfo[id];
      if info.service != service || !(nTime - info.nTime > 20 * 60) then s else
      var info' := info.(nTime := ToUInt32(nTime));
      TouchKeeps(env, s, id, info');
      Touch(s, id, info')
  }

  /** How many addresses GetAddr_ hands out. */
  function GetAddrCount(n: nat): (k: nat)
    ensures k <= n
  {
    var k := GETADDR_MAX_PCT * n / 100;
    if k > GETADDR_MAX then GETADDR_MAX else k
  }

  lemma SwapKeepsInv(env: Env, s: State, pos1: int, pos2: int)
    requires Inv(env, s) && 0 <= pos1 < |s.vRandom| && 0 <= pos2 < |s.vRandom|
    ensures RandOk(s.mapInfo, s.vRandom)
    ensures var t := SwapRandom(s, pos1, pos2);
      && Inv(env, t) && SameButPos(s.mapInfo, t.mapInfo) && |t.vRandom| == |s.vRandom|
      && t == s.(mapInfo := t.mapInfo, vRandom := t.vRandom)
  {
    hide Tables, RandOk, SwapRandom;
    Parts(env, s);
    SwapKeeps(s, pos1, pos2);
    SameButPosKeeps(env, s, SwapRandom(s, pos1, pos2), NOBODY);
  }

  lemma SameButPosSelf(mi: map<Id, AddrInfo>)
    ensures SameButPos(mi, mi)
  {
  }

  lemma SameButPosTrans(mi: map<Id, AddrInfo>, mj: map<Id, AddrInfo>, mk: map<Id, AddrInfo>)
    requires SameButPos(mi, mj) && SameButPos(mj, mk)
    ensures SameButPos(mi, mk)
  {
  }

  /** A record as GetAddr_ hands it out. */
  function ToAddress(info: AddrInfo): Address {
    Address(info.service, info.nServices, info.nTime)
  }

  /** `vAddr` are the addresses of the first records of `vRandom`. */
  ghost predicate HandedOut(s: State, vAddr: seq<Address>) {
    && |vAddr| <= |s.vRandom|
    && forall i :: 0 <= i < |vAddr| ==> s.vRandom[i] in s.mapInfo && vAddr[i] == ToAddress(s.mapInfo[s.vRandom[i]])
  }

  lemma HandedOutNone(s: State)
    ensures HandedOut(s, [])
  {
  }

  /** Such addresses are known and different. */
  lemma HandedOutDiffer(env: Env, s: State, vAddr: seq<Address>)
    requires Inv(env, s) && HandedOut(s, vAddr)
    ensures forall i :: 0 <= i < |vAddr| ==>
      s.vRandom[i] in s.mapInfo && (var info := s.mapInfo[s.vRandom[i]]; vAddr[i] == Address(info.service, info.nServices, info.nTime))
    ensures forall i :: 0 <= i < |vAddr| ==> vAddr[i].service.addr in s.mapAddr
    ensures forall i, j :: 0 <= i < j < |vAddr| ==> vAddr[i].service.addr != vAddr[j].service.addr
  {
  }

  /** Exchanging positions from `n` on leaves the earlier ones and their records alone. */
  lemma HandOut(s: State, n: int, pos: int, vAddr: seq<Address>)
    requires RandOk(s.mapInfo, s.vRandom) && 0 <= n <= pos < |s.vRandom| && |vAddr| == n && HandedOut(s, vAddr)
    ensures var t := SwapRandom(s, n, pos);
      && |t.vRandom| == |s.vRandom| && t.vRandom[n] in t.mapInfo
      && HandedOut(t, vAddr + [ToAddress(t.mapInfo[t.vRandom[n]])])
  {
  }

  /** GetAddr_ after `n` rounds of its partial shuffle. */
  ghost function GetAddrRounds(env: Env, s: State, rnd: nat -> nat, n: nat): (t: State)
    requires Inv(env, s) && n <= |s.vRandom|
    ensures Inv(env, t) && SameButPos(s.mapInfo, t.mapInfo) && |t.vRandom| == |s.vRandom|
    ensures t == s.(mapInfo := t.mapInfo, vRandom := t.vRandom)
  {
    hide Inv, SameButPos, SwapRandom, RandOk, Tables;
    if n == 0 then SameButPosSelf(s.mapInfo); s else
    var p := GetAddrRounds(env, s, rnd, n - 1);
    var nRndPos := GetRandInt(rnd(n - 1), |p.vRandom| - (n - 1)) + (n - 1);
    SwapKeepsInv(env, p, n - 1, nRndPos);
    SameButPosTrans(s.mapInfo, p.mapInfo, SwapRandom(p, n - 1, nRndPos).mapInfo);
    SwapRandom(p, n - 1, nRndPos)
  }

  lemma GetAddrStart(env: Env, s: State, rnd: nat -> nat)
    requires Inv(env, s)
    ensures GetAddrRounds(env, s, rnd, 0) == s
  {
    hide Inv;
  }

  lemma GetAddrStep(env: Env, s: State, rnd: nat -> nat, n: nat)
    requires Inv(env, s) && n < |s.vRandom|
    ensures var p := GetAddrRounds(env, s, rnd, n);
      var nRndPos := GetRandInt(rnd(n), |p.vRandom| - n) + n;
      && RandOk(p.mapInfo, p.vRandom)
      && GetAddrRounds(env, s, rnd, n + 1) == SwapRandom(p, n, nRndPos)
  {
    hide Inv, SameButPos, SwapRandom, RandOk, GetRandInt;
    var p := GetAddrRounds(env, s, rnd, n);
    SwapKeepsInv(env, p, n, GetRandInt(rnd(n), |p.vRandom| - n) + n);
  }
}
