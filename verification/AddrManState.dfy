/** The address manager's records, tables and constants, and what each operation
    does to them as a function of the state, the arguments and the random draws.
    The class in AddrManOps.dfy carries out the same operations step by step. */
module AddrManState {
  import opened Options
  import Numerals
  import opened SortedSets

  const TRIED_BUCKET_COUNT := 64
  const TRIED_BUCKET_SIZE := 64
  const NEW_BUCKET_COUNT := 256
  const NEW_BUCKET_SIZE := 64
  const TRIED_BUCKETS_PER_GROUP := 4
  const NEW_BUCKETS_PER_SOURCE_GROUP := 32
  const NEW_BUCKETS_PER_ADDRESS := 4
  const TRIED_ENTRIES_INSPECT_ON_EVICT := 4
  const HORIZON_DAYS := 30
  const RETRIES := 3
  const MAX_FAILURES := 10
  const MIN_FAIL_DAYS := 7
  const GETADDR_MAX_PCT := 23
  const GETADDR_MAX := 2500

  type uint32 = x: int | 0 <= x < 0x1_0000_0000
  type Key = seq<bv8>
  type Id = nat

  /** CNetAddr: the key of `mapAddr`. */
  datatype NetAddr = NetAddr(ip: seq<bv8>)

  /** CService: an address with its port. */
  datatype Service = Service(addr: NetAddr, port: nat)

  /** CAddress, as a caller passes it in. */
  datatype Address = Address(service: Service, nServices: bv64, nTime: uint32)

  /** CAddrInfo. */
  datatype AddrInfo = AddrInfo(
    service: Service,
    nServices: bv64,
    nTime: uint32,
    nLastTry: int,
    source: NetAddr,
    nLastSuccess: int,
    nAttempts: int,
    nRefCount: int,
    fInTried: bool,
    nRandomPos: int)

  /** The functions the manager calls but does not define: address groups, the
      two rounds of hashing behind each bucket choice, and routability. */
  datatype Env = Env(
    group: NetAddr -> seq<bv8>,
    triedHash1: (Key, Service) -> nat,
    triedHash2: (Key, seq<bv8>, nat) -> nat,
    newHash1: (Key, seq<bv8>, seq<bv8>) -> nat,
    newHash2: (Key, seq<bv8>, nat) -> nat,
    routable: NetAddr -> bool)

  /** The fields of CAddrMan. */
  datatype State = State(
    nKey: Key,
    nIdCount: nat,
    mapInfo: map<Id, AddrInfo>,
    mapAddr: map<NetAddr, Id>,
    vRandom: seq<Id>,
    nTried: int,
    vvTried: seq<seq<Id>>,
    nNew: int,
    vvNew: seq<set<Id>>)

  /** A raw random number reduced to the range the caller asks for. */
  function GetRandInt(raw: nat, nMax: int): (r: int)
    ensures nMax > 0 ==> 0 <= r < nMax
  {
    if nMax <= 0 then 0 else raw % nMax
  }

  /** Assignment of a 64-bit signed value to an `unsigned int` field. */
  function ToUInt32(x: int): uint32 {
    x % 0x1_0000_0000
  }

  function Max(x: int, y: int): int {
    if x < y then y else x
  }

  function TriedBucket(env: Env, key: Key, service: Service): (b: int)
    ensures 0 <= b < TRIED_BUCKET_COUNT
  {
    var hash1 := env.triedHash1(key, service);
    var hash2 := env.triedHash2(key, env.group(service.addr), hash1 % TRIED_BUCKETS_PER_GROUP);
    hash2 % TRIED_BUCKET_COUNT
  }

  function NewBucket(env: Env, key: Key, addr: NetAddr, source: NetAddr): (b: int)
    ensures 0 <= b < NEW_BUCKET_COUNT
  {
    var hash1 := env.newHash1(key, env.group(addr), env.group(source));
    var hash2 := env.newHash2(key, env.group(source), hash1 % NEW_BUCKETS_PER_SOURCE_GROUP);
    hash2 % NEW_BUCKET_COUNT
  }

  predicate IsTerrible(info: AddrInfo, nNow: int) {
    if info.nLastTry != 0 && info.nLastTry >= nNow - 60 then false
    else if info.nTime > nNow + 10 * 60 then true
    else if info.nTime == 0 || nNow - info.nTime > HORIZON_DAYS * 86400 then true
    else if info.nLastSuccess == 0 && info.nAttempts >= RETRIES then true
    else nNow - info.nLastSuccess > MIN_FAIL_DAYS * 86400 && info.nAttempts >= MAX_FAILURES
  }

  // ----- the invariant -----

  /** The number of "new" buckets that hold `id`. */
  ghost function Count(vv: seq<set<Id>>, id: Id): (n: nat)
    ensures n <= |vv|
  {
    if vv == [] then 0
    else Count(vv[..|vv| - 1], id) + if id in vv[|vv| - 1] then 1 else 0
  }

  /** Ids are handed out in order. */
  ghost predicate IdsOk(mi: map<Id, AddrInfo>, nIdCount: nat) {
    forall id :: id in mi ==> id < nIdCount
  }

  /** `mapAddr` is exactly the inverse of the record addresses. */
  ghost predicate AddrOk(mi: map<Id, AddrInfo>, ma: map<NetAddr, Id>) {
    && (forall id :: id in mi ==> mi[id].service.addr in ma && ma[mi[id].service.addr] == id)
    && (forall a :: a in ma ==> ma[a] in mi && mi[ma[a]].service.addr == a)
  }

  /** `vRandom` lists every id once, and each record knows its position there. */
  ghost predicate RandOk(mi: map<Id, AddrInfo>, vr: seq<Id>) {
    && (forall id :: id in mi ==> 0 <= mi[id].nRandomPos < |vr| && vr[mi[id].nRandomPos] == id)
    && (forall i :: 0 <= i < |vr| ==> vr[i] in mi && mi[vr[i]].nRandomPos == i)
  }

  /** Each reference count is the number of "new" buckets that hold the id.  The
      id `pend` has been counted once for a bucket it is still to be put in. */
  ghost predicate NewOk(mi: map<Id, AddrInfo>, vv: seq<set<Id>>, pend: int) {
    && |vv| == NEW_BUCKET_COUNT
    && (forall b :: 0 <= b < |vv| ==> |vv[b]| <= NEW_BUCKET_SIZE)
    && (forall b, id :: 0 <= b < |vv| && id in vv[b] ==> id in mi)
    && (forall id :: id in mi ==> mi[id].nRefCount == Count(vv, id) + if id == pend then 1 else 0)
  }

  /** A record is in the tried table, or in one to four "new" buckets. */
  ghost predicate RefOk(mi: map<Id, AddrInfo>) {
    forall id :: id in mi ==>
      if mi[id].fInTried then mi[id].nRefCount == 0
      else 1 <= mi[id].nRefCount <= NEW_BUCKETS_PER_ADDRESS
  }

  ghost predicate NoDup(v: seq<Id>) {
    forall i, j :: 0 <= i < j < |v| ==> v[i] != v[j]
  }

  ghost function Members(v: seq<Id>): set<Id> {
    set id | id in v
  }

  /** What tried bucket `b` may hold. */
  ghost predicate TriedBucketOk(env: Env, key: Key, mi: map<Id, AddrInfo>, b: int, v: seq<Id>) {
    && |v| <= TRIED_BUCKET_SIZE
    && NoDup(v)
    && (forall id :: id in v ==> id in mi && mi[id].fInTried && TriedBucket(env, key, mi[id].service) == b)
  }

  /** Tried ids sit, once, in the bucket their service hashes to. */
  ghost predicate TriedOk(env: Env, key: Key, mi: map<Id, AddrInfo>, vv: seq<seq<Id>>) {
    && |vv| == TRIED_BUCKET_COUNT
    && (forall b :: 0 <= b < |vv| ==> TriedBucketOk(env, key, mi, b, vv[b]))
    && (forall id :: id in mi && mi[id].fInTried ==> id in vv[TriedBucket(env, key, mi[id].service)])
  }

  ghost function TriedIds(mi: map<Id, AddrInfo>): set<Id> {
    set id | id in mi && mi[id].fInTried
  }

  ghost function NewIds(mi: map<Id, AddrInfo>): set<Id> {
    set id | id in mi && !mi[id].fInTried
  }

  ghost predicate TallyOk(mi: map<Id, AddrInfo>, nTried: int, nNew: int) {
    nTried == |TriedIds(mi)| && nNew == |NewIds(mi)|
  }

  /** The invariant without the bounds on reference counts, for the middle of an operation. */
  ghost predicate Tables(env: Env, s: State, pend: int) {
    && IdsOk(s.mapInfo, s.nIdCount)
    && AddrOk(s.mapInfo, s.mapAddr)
    && RandOk(s.mapInfo, s.vRandom)
    && NewOk(s.mapInfo, s.vvNew, pend)
    && TriedOk(env, s.nKey, s.mapInfo, s.vvTried)
    && TallyOk(s.mapInfo, s.nTried, s.nNew)
  }

  const NOBODY := -1

  /** What every reachable state satisfies, whatever times the callers pass in. */
  ghost predicate Inv(env: Env, s: State) {
    Tables(env, s, NOBODY) && RefOk(s.mapInfo)
  }

  // ----- operations -----

  function Replicate<T>(n: nat, x: T): (xs: seq<T>)
    ensures |xs| == n && forall i :: 0 <= i < n ==> xs[i] == x
  {
    seq(n, _ => x)
  }

  function Initial(key: Key): State {
    State(key, 0, map[], map[], [], 0, Replicate(TRIED_BUCKET_COUNT, []), 0, Replicate(NEW_BUCKET_COUNT, {}))
  }

  /** The id stored for a network address, whatever its port. */
  function Find(s: State, addr: NetAddr): Option<Id> {
    if addr in s.mapAddr && s.mapAddr[addr] in s.mapInfo then Some(s.mapAddr[addr]) else None
  }

  function NewInfo(addr: Address, source: NetAddr): AddrInfo {
    AddrInfo(addr.service, addr.nServices, addr.nTime, 0, source, 0, 0, 0, false, -1)
  }

  function Create(s: State, addr: Address, source: NetAddr): State {
    s.(nIdCount := s.nIdCount + 1,
       mapInfo := s.mapInfo[s.nIdCount := NewInfo(addr, source).(nRandomPos := |s.vRandom|)],
       mapAddr := s.mapAddr[addr.service.addr := s.nIdCount],
       vRandom := s.vRandom + [s.nIdCount])
  }

  function SwapRandom(s: State, pos1: int, pos2: int): State
    requires RandOk(s.mapInfo, s.vRandom)
    requires pos1 == pos2 || (0 <= pos1 < |s.vRandom| && 0 <= pos2 < |s.vRandom|)
  {
    if pos1 == pos2 then s else
    var id1, id2 := s.vRandom[pos1], s.vRandom[pos2];
    s.(mapInfo := s.mapInfo[id1 := s.mapInfo[id1].(nRandomPos := pos2)][id2 := s.mapInfo[id2].(nRandomPos := pos1)],
       vRandom := s.vRandom[pos1 := id2][pos2 := id1])
  }

  /** Forget a record altogether: last out of `vRandom`, then out of both maps. */
  function Delete(s: State, id: Id): State
    requires RandOk(s.mapInfo, s.vRandom) && id in s.mapInfo
  {
    var last := |s.vRandom| - 1;
    var s1 := SwapRandom(s, s.mapInfo[id].nRandomPos, last);
    s1.(vRandom := s1.vRandom[..last],
        mapAddr := s1.mapAddr - {s.mapInfo[id].service.addr},
        mapInfo := s1.mapInfo - {id},
        nNew := s1.nNew - 1)
  }

  function Unref(s: State, b: int, id: Id): State
    requires id in s.mapInfo && 0 <= b < |s.vvNew|
  {
    s.(vvNew := s.vvNew[b := s.vvNew[b] - {id}],
       mapInfo := s.mapInfo[id := s.mapInfo[id].(nRefCount := s.mapInfo[id].nRefCount - 1)])
  }

  /** Take `id` out of "new" bucket `b`; a record that loses its last bucket goes. */
  function DropRef(s: State, b: int, id: Id): (t: State)
    requires RandOk(s.mapInfo, s.vRandom) && 0 <= b < |s.vvNew| && id in s.mapInfo
    ensures |t.vvNew| == |s.vvNew|
  {
    if s.mapInfo[id].nRefCount == 1 then Delete(Unref(s, b, id), id) else Unref(s, b, id)
  }

  /** The first terrible entry among the ids from position `k` on, or -1. */
  function FirstTerrible(ids: seq<Id>, mi: map<Id, AddrInfo>, nNow: int, k: nat): (id: int)
    requires k <= |ids| && forall id :: id in ids ==> id in mi
    ensures id == -1 || id in ids
    decreases |ids| - k
  {
    if k == |ids| then -1
    else if IsTerrible(mi[ids[k]], nNow) then ids[k]
    else FirstTerrible(ids, mi, nNow, k + 1)
  }

  /** The oldest entry among the first `k` ids whose positions were drawn, or -1. */
  function OldestDrawn(ids: seq<Id>, mi: map<Id, AddrInfo>, drawn: set<Id>, k: nat): (id: int)
    requires k <= |ids| && forall id :: id in ids ==> id in mi
    ensures id == -1 || id in ids
    ensures (exists d :: d in drawn && 0 <= d < k) ==> id != -1
  {
    if k == 0 then -1 else
    var best := OldestDrawn(ids, mi, drawn, k - 1);
    if k - 1 in drawn && (best == -1 || mi[ids[k - 1]].nTime < mi[best].nTime) then ids[k - 1] else best
  }

  function FourDraws(rnd: nat -> nat, n: int): set<Id> {
    {GetRandInt(rnd(1), n), GetRandInt(rnd(2), n), GetRandInt(rnd(3), n), GetRandInt(rnd(4), n)}
  }

  /** Which entry ShrinkNew removes from bucket `b`. */
  function ShrinkVictim(bucket: set<Id>, mi: map<Id, AddrInfo>, nNow: int, rnd: nat -> nat): (id: int)
    requires forall id :: id in bucket ==> id in mi
    ensures bucket != {} ==> id in bucket
  {
    var ids := Sorted(bucket);
    var t := FirstTerrible(ids, mi, nNow, 0);
    if t != -1 then t else
    var drawn := FourDraws(rnd, |ids|);
    assert bucket != {} ==> GetRandInt(rnd(1), |ids|) in drawn && 0 <= GetRandInt(rnd(1), |ids|) < |ids|;
    OldestDrawn(ids, mi, drawn, |ids|)
  }

  /** SelectTried's bucket, candidate and recorded position after `i` rounds. */
  datatype Selection = Selection(v: seq<Id>, nOldest: int, nOldestPos: int)

  /** Round `i` exchanges position `i` with a position drawn from there on. */
  function Drawn(v: seq<Id>, rnd: nat -> nat, i: nat): (nPos: int)
    ensures i < |v| ==> i <= nPos < |v|
  {
    GetRandInt(rnd(i + 1), |v| - i) + i
  }

  function Exchange(v: seq<Id>, i: int, j: int): (w: seq<Id>)
    requires 0 <= i < |v| && 0 <= j < |v|
    ensures |w| == |v|
    ensures forall x :: x in w <==> x in v
    ensures NoDup(v) ==> NoDup(w)
  {
    ExchangeKeeps(v, i, j);
    v[j := v[i]][i := v[j]]
  }

  lemma ExchangeKeeps(v: seq<Id>, i: int, j: int)
    requires 0 <= i < |v| && 0 <= j < |v|
    ensures forall x :: x in v[j := v[i]][i := v[j]] <==> x in v
  {
    var w := v[j := v[i]][i := v[j]];
    assert forall k :: 0 <= k < |v| ==> w[k] == if k == i then v[j] else if k == j then v[i] else v[k];
    assert forall k :: 0 <= k < |v| ==> v[k] == if k == i then w[j] else if k == j then w[i] else w[k];
  }

  function SelectRound(p: Selection, mi: map<Id, AddrInfo>, rnd: nat -> nat, i: nat): (r: Selection)
    requires i < |p.v| && forall id :: id in p.v ==> id in mi
    requires p.nOldest == -1 || p.nOldest in mi
    ensures |r.v| == |p.v| && (forall x :: x in r.v <==> x in p.v) && (NoDup(p.v) ==> NoDup(r.v))
    ensures r.nOldest in p.v || r.nOldest == p.nOldest != -1
    ensures 0 <= r.nOldestPos < |p.v| || r.nOldestPos == p.nOldestPos
    ensures p.nOldest == -1 ==> 0 <= r.nOldestPos < |p.v|
  {
    var nPos := Drawn(p.v, rnd, i);
    var nTemp := p.v[nPos];
    var w := Exchange(p.v, i, nPos);
    if p.nOldest == -1 || mi[nTemp].nLastSuccess < mi[p.nOldest].nLastSuccess
    then Selection(w, nTemp, nPos)
    else Selection(w, p.nOldest, p.nOldestPos)
  }

  function SelectRounds(v: seq<Id>, mi: map<Id, AddrInfo>, rnd: nat -> nat, i: nat): (r: Selection)
    requires i <= |v| && forall id :: id in v ==> id in mi
    ensures |r.v| == |v| && forall x :: x in r.v <==> x in v
    ensures NoDup(v) ==> NoDup(r.v)
    ensures i == 0 ==> r == Selection(v, -1, -1)
    ensures i > 0 ==> r.nOldest in v && 0 <= r.nOldestPos < |v|
  {
    if i == 0 then Selection(v, -1, -1)
    else SelectRound(SelectRounds(v, mi, rnd, i - 1), mi, rnd, i - 1)
  }

  lemma SelectStep(v: seq<Id>, mi: map<Id, AddrInfo>, rnd: nat -> nat, i: nat)
    requires i < |v| && forall id :: id in v ==> id in mi
    ensures SelectRounds(v, mi, rnd, i + 1) == SelectRound(SelectRounds(v, mi, rnd, i), mi, rnd, i)
  {
    hide SelectRound, Exchange;
  }

  /** One round, with the bucket and the candidate before and after it. */
  lemma RoundIs(v: seq<Id>, mi: map<Id, AddrInfo>, rnd: nat -> nat, i: nat, p: Selection, r: Selection)
    requires i < |v| && (forall id :: id in v ==> id in mi) && SelectRounds(v, mi, rnd, i) == p
    requires var nPos := Drawn(p.v, rnd, i);
      && r.v == p.v[nPos := p.v[i]][i := p.v[nPos]]
      && if p.nOldest == -1 || mi[p.v[nPos]].nLastSuccess < mi[p.nOldest].nLastSuccess
         then r.nOldest == p.v[nPos] && r.nOldestPos == nPos
         else r.nOldest == p.nOldest && r.nOldestPos == p.nOldestPos
    ensures SelectRounds(v, mi, rnd, i + 1) == r
  {
    hide SelectRounds, NoDup, GetRandInt;
    SelectStep(v, mi, rnd, i);
  }

  function Rounds(v: seq<Id>): (n: nat)
    ensures n <= |v|
  {
    if |v| < TRIED_ENTRIES_INSPECT_ON_EVICT then |v| else TRIED_ENTRIES_INSPECT_ON_EVICT
  }

  function SelectTried(v: seq<Id>, mi: map<Id, AddrInfo>, rnd: nat -> nat): (r: Selection)
    requires forall id :: id in v ==> id in mi
    ensures |r.v| == |v| && (forall x :: x in r.v <==> x in v) && (NoDup(v) ==> NoDup(r.v))
    ensures if v == [] then r.nOldestPos == -1 else 0 <= r.nOldestPos < |v|
  {
    SelectRounds(v, mi, rnd, Rounds(v))
  }

  /** `id` out of every "new" bucket. */
  function Purge(vv: seq<set<Id>>, id: Id): (w: seq<set<Id>>)
    ensures |w| == |vv|
    ensures forall b :: 0 <= b < |vv| ==> w[b] == vv[b] - {id}
  {
    seq(|vv|, b requires 0 <= b < |vv| => vv[b] - {id})
  }

  lemma TablesForMakeTried(env: Env, s: State)
    requires Inv(env, s)
    ensures |s.vvNew| == NEW_BUCKET_COUNT && |s.vvTried| == TRIED_BUCKET_COUNT
    ensures forall b :: 0 <= b < TRIED_BUCKET_COUNT ==> EntriesKnown(s.mapInfo, s.vvTried[b])
  {
    hide IdsOk, AddrOk, RandOk, TallyOk, RefOk;
    forall b | 0 <= b < TRIED_BUCKET_COUNT ensures EntriesKnown(s.mapInfo, s.vvTried[b]) {
      assert TriedBucketOk(env, s.nKey, s.mapInfo, b, s.vvTried[b]);
    }
  }

  ghost predicate EntriesKnown(mi: map<Id, AddrInfo>, bucket: seq<Id>) {
    forall id :: id in bucket ==> id in mi
  }

  /** `moved` takes the place at `pos` of the full tried bucket `kb`, now `v`, and the entry
      that was there goes to its own "new" bucket, or to `nOrigin` if that is full. */
  function Evict(env: Env, s: State, id: Id, moved: AddrInfo, vv: seq<set<Id>>, kb: int, v: seq<Id>, pos: int, nOrigin: int): State
    requires 0 <= kb < |s.vvTried| && 0 <= pos < |v| && v[pos] in s.mapInfo
    requires |vv| == NEW_BUCKET_COUNT && 0 <= nOrigin < |vv|
  {
    var infoOld := s.mapInfo[v[pos]];
    var nUBucket := NewBucket(env, s.nKey, infoOld.service.addr, infoOld.source);
    var target := if |vv[nUBucket]| < NEW_BUCKET_SIZE then nUBucket else nOrigin;
    s.(mapInfo := s.mapInfo[v[pos] := infoOld.(fInTried := false, nRefCount := 1)][id := moved],
       vvTried := s.vvTried[kb := v[pos := id]],
       vvNew := vv[target := vv[target] + {v[pos]}])
  }

  lemma EvictIs(env: Env, s: State, id: Id, moved: AddrInfo, vv: seq<set<Id>>, kb: int, v: seq<Id>, pos: int, nOrigin: int, u: int,
                mi: map<Id, AddrInfo>, vvTried: seq<seq<Id>>, vvNew: seq<set<Id>>)
    requires 0 <= kb < |s.vvTried| && 0 <= pos < |v| && v[pos] in s.mapInfo
    requires |vv| == NEW_BUCKET_COUNT && 0 <= nOrigin < |vv|
    requires u == NewBucket(env, s.nKey, s.mapInfo[v[pos]].service.addr, s.mapInfo[v[pos]].source)
    requires mi == s.mapInfo[v[pos] := s.mapInfo[v[pos]].(fInTried := false, nRefCount := 1)][id := moved]
    requires vvTried == s.vvTried[kb := v[pos := id]]
    requires vvNew == if |vv[u]| < NEW_BUCKET_SIZE then vv[u := vv[u] + {v[pos]}] else vv[nOrigin := vv[nOrigin] + {v[pos]}]
    ensures Evict(env, s, id, moved, vv, kb, v, pos, nOrigin) == s.(mapInfo := mi, vvTried := vvTried, vvNew := vvNew)
  {
    hide NewBucket;
  }

  /** The record of `id` and the "new" tables of the state are replaced, whatever they were. */
  lemma EvictIgnores(env: Env, s: State, id: Id, info: AddrInfo, moved: AddrInfo, vv: seq<set<Id>>, n: int, kb: int, v: seq<Id>,
                     pos: int, nOrigin: int)
    requires 0 <= kb < |s.vvTried| && 0 <= pos < |v| && v[pos] in s.mapInfo && v[pos] != id
    requires |vv| == NEW_BUCKET_COUNT && 0 <= nOrigin < |vv|
    ensures Evict(env, s.(mapInfo := s.mapInfo[id := info], vvNew := vv, nNew := n), id, moved, vv, kb, v, pos, nOrigin)
         == Evict(env, s, id, moved, vv, kb, v, pos, nOrigin).(nNew := n)
    ensures Evict(env, s, id, moved, vv, kb, v, pos, nOrigin).nNew == s.nNew
  {
    hide NewBucket;
    var u := s.mapInfo[id := info];
    var demoted := s.mapInfo[v[pos]].(fInTried := false, nRefCount := 1);
    assert u[v[pos] := demoted][id := moved] == s.mapInfo[v[pos] := demoted][id := moved];
  }

  lemma EvictOverwrites(env: Env, s: State, id: Id, moved: AddrInfo, vv: seq<set<Id>>, kb: int, v: seq<Id>, pos: int, nOrigin: int)
    requires 0 <= kb < |s.vvTried| && 0 <= pos < |v| && v[pos] in s.mapInfo
    requires |vv| == NEW_BUCKET_COUNT && 0 <= nOrigin < |vv|
    ensures Evict(env, s.(vvTried := s.vvTried[kb := v]), id, moved, vv, kb, v, pos, nOrigin)
         == Evict(env, s, id, moved, vv, kb, v, pos, nOrigin)
  {
    hide NewBucket;
    assert s.vvTried[kb := v][kb := v[pos := id]] == s.vvTried[kb := v[pos := id]];
  }

  ghost function MakeTried(env: Env, s: State, id: Id, nOrigin: int, rnd: nat -> nat): State
    requires Inv(env, s) && id in s.mapInfo && !s.mapInfo[id].fInTried
    requires 0 <= nOrigin < |s.vvNew|
  {
    hide Inv, SelectTried, Count, Purge, TriedBucket, NoDup, Evict;
    TablesForMakeTried(env, s);
    var info := s.mapInfo[id];
    var moved := info.(nRefCount := info.nRefCount - Count(s.vvNew, id), fInTried := true);
    var vv := Purge(s.vvNew, id);
    var nKBucket := TriedBucket(env, s.nKey, info.service);
    var vTried := s.vvTried[nKBucket];
    if |vTried| < TRIED_BUCKET_SIZE then
      s.(mapInfo := s.mapInfo[id := moved],
         vvTried := s.vvTried[nKBucket := vTried + [id]],
         vvNew := vv,
         nNew := s.nNew - 1,
         nTried := s.nTried + 1)
    else
      var sel := SelectTried(vTried, s.mapInfo, rnd);
      assert sel.v[sel.nOldestPos] in sel.v;
      Evict(env, s, id, moved, vv, nKBucket, sel.v, sel.nOldestPos, nOrigin)
  }

  lemma OnceAround(x: nat, m: nat)
    requires x < 2 * m
    ensures x % m == if x < m then x else x - m
  {
    if x >= m {
      Numerals.DivOfMul(1, m, x - m);
    }
  }

  /** The `n`-th bucket of a scan over `m` buckets that starts at bucket `nRnd`. */
  function Rotated(n: nat, nRnd: nat, m: nat): (b: nat)
    requires n < m && nRnd < m
    ensures b == if n + nRnd < m then n + nRnd else n + nRnd - m
  {
    OnceAround(n + nRnd, m);
    (n + nRnd) % m
  }

  /** The first bucket that holds `id`, from step `n` of the scan on, or -1. */
  function Scan(vv: seq<set<Id>>, id: Id, nRnd: nat, n: nat): (b: int)
    requires nRnd < |vv| && n <= |vv|
    ensures b == -1 || (0 <= b < |vv| && id in vv[b])
    decreases |vv| - n
  {
    if n == |vv| then -1
    else if id in vv[Rotated(n, nRnd, |vv|)] then Rotated(n, nRnd, |vv|)
    else Scan(vv, id, nRnd, n + 1)
  }

  function MarkGood(info: AddrInfo, nTime: int): AddrInfo {
    info.(nLastSuccess := nTime, nLastTry := nTime, nTime := ToUInt32(nTime), nAttempts := 0)
  }

  function Touch(s: State, id: Id, info: AddrInfo): State {
    s.(mapInfo := s.mapInfo[id := info])
  }

  /** The maps agree on the fields that tie records to everything but the reference counts. */
  ghost predicate SamePlaces(mi: map<Id, AddrInfo>, mj: map<Id, AddrInfo>) {
    && mi.Keys == mj.Keys
    && (forall id :: id in mi ==> mi[id].service == mj[id].service && mi[id].fInTried == mj[id].fInTried)
  }

  lemma AddrFrame(mi: map<Id, AddrInfo>, mj: map<Id, AddrInfo>, ma: map<NetAddr, Id>, nIdCount: nat)
    requires mi.Keys == mj.Keys && forall id :: id in mi ==> mi[id].service == mj[id].service
    ensures IdsOk(mi, nIdCount) ==> IdsOk(mj, nIdCount)
    ensures AddrOk(mi, ma) ==> AddrOk(mj, ma)
  {
  }

  lemma PlacesFrame(env: Env, s: State, mj: map<Id, AddrInfo>)
    requires SamePlaces(s.mapInfo, mj)
    ensures IdsOk(s.mapInfo, s.nIdCount) ==> IdsOk(mj, s.nIdCount)
    ensures AddrOk(s.mapInfo, s.mapAddr) ==> AddrOk(mj, s.mapAddr)
    ensures TriedOk(env, s.nKey, s.mapInfo, s.vvTried) ==> TriedOk(env, s.nKey, mj, s.vvTried)
    ensures TallyOk(s.mapInfo, s.nTried, s.nNew) ==> TallyOk(mj, s.nTried, s.nNew)
  {
    AddrFrame(s.mapInfo, mj, s.mapAddr, s.nIdCount);
    assert TriedIds(s.mapInfo) == TriedIds(mj);
    assert NewIds(s.mapInfo) == NewIds(mj);
    if TriedOk(env, s.nKey, s.mapInfo, s.vvTried) {
      forall b | 0 <= b < |s.vvTried| ensures TriedBucketOk(env, s.nKey, mj, b, s.vvTried[b]) {
        assert TriedBucketOk(env, s.nKey, s.mapInfo, b, s.vvTried[b]);
      }
    }
  }

  lemma RandFrame(mi: map<Id, AddrInfo>, mj: map<Id, AddrInfo>, vr: seq<Id>)
    requires RandOk(mi, vr) && mi.Keys == mj.Keys
    requires forall id :: id in mi ==> mi[id].nRandomPos == mj[id].nRandomPos
    ensures RandOk(mj, vr)
  {
  }

  lemma NewFrame(mi: map<Id, AddrInfo>, mj: map<Id, AddrInfo>, vv: seq<set<Id>>, pend: int)
    requires NewOk(mi, vv, pend) && mi.Keys == mj.Keys
    requires forall id :: id in mi ==> mi[id].nRefCount == mj[id].nRefCount
    ensures NewOk(mj, vv, pend)
  {
  }

  /** The fields that tie a record to the tables. */
  ghost predicate SameLinks(i: AddrInfo, j: AddrInfo) {
    && i.service == j.service && i.source == j.source && i.nRefCount == j.nRefCount
    && i.fInTried == j.fInTried && i.nRandomPos == j.nRandomPos
  }

  ghost predicate SameLinksAll(mi: map<Id, AddrInfo>, mj: map<Id, AddrInfo>) {
    mi.Keys == mj.Keys && forall id :: id in mi ==> SameLinks(mi[id], mj[id])
  }

  lemma LinksFrame(env: Env, s: State, t: State)
    requires Inv(env, s) && SameLinksAll(s.mapInfo, t.mapInfo) && t == s.(mapInfo := t.mapInfo)
    ensures Inv(env, t)
  {
    PlacesFrame(env, s, t.mapInfo);
    RandFrame(s.mapInfo, t.mapInfo, s.vRandom);
    NewFrame(s.mapInfo, t.mapInfo, s.vvNew, NOBODY);
  }

  /** Overwriting only statistics keeps the invariant. */
  lemma TouchKeeps(env: Env, s: State, id: Id, info: AddrInfo)
    requires Inv(env, s) && id in s.mapInfo && SameLinks(s.mapInfo[id], info)
    ensures Inv(env, Touch(s, id, info))
  {
    hide Inv;
    LinksFrame(env, s, Touch(s, id, info));
  }

  function MergeServices(a: bv64, b: bv64): bv64 {
    a | b
  }

  /** The record after a repeated announcement. */
  function Refresh(info: AddrInfo, addr: Address, nPenalty: int, nNow: int): AddrInfo {
    var nUpdateInterval := if nNow - addr.nTime < 24 * 60 * 60 then 60 * 60 else 24 * 60 * 60;
    var nTime := if addr.nTime != 0 && (info.nTime == 0 || info.nTime < addr.nTime - nUpdateInterval - nPenalty)
                 then ToUInt32(Max(0, addr.nTime - nPenalty)) else info.nTime;
    info.(nTime := nTime, nServices := MergeServices(info.nServices, addr.nServices))
  }

  function RefFactor(nRefCount: int): nat {
    if nRefCount < 0 then 1 else Numerals.Pow(2, nRefCount)
  }

  /** Whether a repeated announcement may add a reference. */
  predicate MayAddRef(info: AddrInfo, addr: Address, raw: nat) {
    && !(addr.nTime == 0 || (info.nTime != 0 && addr.nTime <= info.nTime))
    && !info.fInTried
    && info.nRefCount != NEW_BUCKETS_PER_ADDRESS
    && !(RefFactor(info.nRefCount) > 1 && GetRandInt(raw, RefFactor(info.nRefCount)) != 0)
  }

  /** The reference is counted before the bucket holds the id. */
  function CountedAhead(s: State, id: Id): State
    requires id in s.mapInfo
  {
    Touch(s, id, s.mapInfo[id].(nRefCount := s.mapInfo[id].nRefCount + 1))
  }

  lemma CountAhead(env: Env, s: State, id: Id)
    requires Tables(env, s, NOBODY) && id in s.mapInfo
    ensures Tables(env, CountedAhead(s, id), id)
    ensures RandOk(CountedAhead(s, id).mapInfo, s.vRandom)
    ensures forall b :: 0 <= b < |s.vvNew| ==> BucketKnown(CountedAhead(s, id).mapInfo, s.vvNew[b])
  {
    hide IdsOk, AddrOk, RandOk, NewOk, TriedOk, TallyOk, CountedAhead, SamePlaces;
    var mj := CountedAhead(s, id).mapInfo;
    CountedAheadIs(s, id);
    PlacesFrame(env, s, mj);
    RandFrame(s.mapInfo, mj, s.vRandom);
    NewAhead(s.mapInfo, mj, s.vvNew, id);
  }

  lemma CountedAheadIs(s: State, id: Id)
    requires id in s.mapInfo
    ensures var mj := CountedAhead(s, id).mapInfo;
      && CountedAhead(s, id) == s.(mapInfo := mj) && mj.Keys == s.mapInfo.Keys && SamePlaces(s.mapInfo, mj)
      && (forall x :: x in s.mapInfo ==> mj[x].nRandomPos == s.mapInfo[x].nRandomPos)
      && (forall x :: x in s.mapInfo ==> mj[x].nRefCount == s.mapInfo[x].nRefCount + if x == id then 1 else 0)
  {
  }

  lemma NewAhead(mi: map<Id, AddrInfo>, mj: map<Id, AddrInfo>, vv: seq<set<Id>>, id: Id)
    requires NewOk(mi, vv, NOBODY) && mj.Keys == mi.Keys
    requires forall x :: x in mi ==> mj[x].nRefCount == mi[x].nRefCount + if x == id then 1 else 0
    ensures NewOk(mj, vv, id) && forall b :: 0 <= b < |vv| ==> BucketKnown(mj, vv[b])
  {
    hide Count;
  }

  ghost predicate BucketKnown(mi: map<Id, AddrInfo>, bucket: set<Id>) {
    forall id :: id in bucket ==> id in mi
  }

  /** Remove one entry from "new" bucket `b`. */
  function ShrinkNew(s: State, b: int, nNow: int, rnd: nat -> nat): (r: State)
    requires RandOk(s.mapInfo, s.vRandom) && 0 <= b < |s.vvNew| && s.vvNew[b] != {}
    requires BucketKnown(s.mapInfo, s.vvNew[b])
    ensures |r.vvNew| == |s.vvNew|
  {
    hide ShrinkVictim, RandOk, DropRef;
    DropRef(s, b, ShrinkVictim(s.vvNew[b], s.mapInfo, nNow, rnd))
  }

  /** Put `id` in bucket `b`, unless it is there, making room first if the bucket is full. */
  ghost function AddRef(env: Env, s: State, b: int, id: Id, nNow: int, rnd: nat -> nat): State
    requires Tables(env, s, NOBODY) && id in s.mapInfo && 0 <= b < |s.vvNew|
  {
    if id in s.vvNew[b] then s else
    CountAhead(env, s, id);
    var s1 := CountedAhead(s, id);
    var s2 := if |s.vvNew[b]| == NEW_BUCKET_SIZE then ShrinkNew(s1, b, nNow, rnd) else s1;
    Insert(s2, b, id)
  }

  function Insert(s: State, b: int, id: Id): State
    requires 0 <= b < |s.vvNew|
  {
    s.(vvNew := s.vvNew[b := s.vvNew[b] + {id}])
  }
}
