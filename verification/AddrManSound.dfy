/** What a state that passes Check_ satisfies. */
module AddrManSound {
  import opened SortedSets
  import opened AddrManState
  import opened AddrManPersist
  import opened AddrManCheck

  // ----- the random order of a state that passes -----

  /** The positions that the records of `ids` give. */
  ghost function PositionsOf(ids: set<Id>, mi: map<Id, AddrInfo>): (ps: set<int>)
    requires forall id :: id in ids ==> id in mi
    ensures forall id :: id in ids ==> mi[id].nRandomPos in ps
    ensures forall p :: p in ps ==> exists id :: id in ids && mi[id].nRandomPos == p
  {
    set id | id in ids :: mi[id].nRandomPos
  }

  /** Every record is at the position it gives. */
  ghost predicate Placed(mi: map<Id, AddrInfo>, vr: seq<Id>) {
    forall id :: id in mi ==> 0 <= mi[id].nRandomPos < |vr| && vr[mi[id].nRandomPos] == id
  }

  lemma {:induction false} PositionsDiffer(ids: set<Id>, mi: map<Id, AddrInfo>, vr: seq<Id>)
    requires Placed(mi, vr) && forall id :: id in ids ==> id in mi
    ensures |PositionsOf(ids, mi)| == |ids|
  {
    if ids != {} {
      var id := Pick(ids);
      PositionsDiffer(ids - {id}, mi, vr);
      assert PositionsOf(ids, mi) == PositionsOf(ids - {id}, mi) + {mi[id].nRandomPos};
    }
  }

  ghost function Below(n: nat): (ps: set<int>)
    ensures |ps| == n && forall p :: p in ps <==> 0 <= p < n
  {
    if n == 0 then {} else Below(n - 1) + {n - 1}
  }

  lemma SubsetIsAll(a: set<int>, b: set<int>)
    requires a <= b && |a| == |b|
    ensures a == b
  {
    assert b == a + (b - a);
  }

  /** As many positions as records, and each record at its own: then every position is right. */
  lemma PlacedIsAll(mi: map<Id, AddrInfo>, vr: seq<Id>)
    requires Placed(mi, vr) && |vr| == |mi|
    ensures RandOk(mi, vr)
  {
    var ps := PositionsOf(mi.Keys, mi);
    PositionsDiffer(mi.Keys, mi, vr);
    SubsetIsAll(ps, Below(|vr|));
    forall i | 0 <= i < |vr| ensures vr[i] in mi && mi[vr[i]].nRandomPos == i {
      assert i in ps;
    }
  }

  // ----- all that passing means -----

  /** `mapAddr` leads to the record of its address; a missing entry reads as id 0. */
  ghost predicate AddressesLead(mi: map<Id, AddrInfo>, ma: map<NetAddr, Id>) {
    forall id :: id in mi ==> if mi[id].service.addr in ma then ma[mi[id].service.addr] == id else id == 0
  }

  /** Every untried id is in as many "new" buckets as its record counts, every tried one once in
      the tried buckets, and no other id anywhere. */
  ghost predicate BucketsAgree(s: State) {
    && (forall id :: Count(s.vvNew, id) == if id in s.mapInfo && !s.mapInfo[id].fInTried then s.mapInfo[id].nRefCount else 0)
    && (forall id :: Occurrences(s.vvTried, id) == if id in s.mapInfo && s.mapInfo[id].fInTried then 1 else 0)
  }

  /** Check_ accepts a state exactly if the random order is a permutation of the ids with right
      back-pointers, the counters count, the references are within their bounds, addresses lead to
      their records, the buckets agree with the records, and the times are acceptable. */
  lemma ConsistentMeans(s: State)
    ensures Consistent(s) <==>
      && RandOk(s.mapInfo, s.vRandom) && TallyOk(s.mapInfo, s.nTried, s.nNew) && RefOk(s.mapInfo)
      && AddressesLead(s.mapInfo, s.mapAddr) && BucketsAgree(s) && TimesOk(s.mapInfo)
  {
    hide Count, Occurrences, RandOk, RecordOk, RefOk, AddressesLead, TimesOk, Placed, TriedIds, NewIds, TriedShare, NewShare;
    SplitIds(s.mapInfo);
    RecordsMean(s);
    SharesMean(s);
    if RandOk(s.mapInfo, s.vRandom) {
      RandomSize(s.mapInfo, s.vRandom);
      RandomPlaces(s.mapInfo, s.vRandom);
    } else if Placed(s.mapInfo, s.vRandom) && |s.vRandom| == |s.mapInfo| {
      PlacedIsAll(s.mapInfo, s.vRandom);
    }
  }

  lemma RandomPlaces(mi: map<Id, AddrInfo>, vr: seq<Id>)
    requires RandOk(mi, vr)
    ensures Placed(mi, vr)
  {
  }

  lemma SharesMean(s: State)
    ensures forall id :: NewShare(s, id) == if id in s.mapInfo && !s.mapInfo[id].fInTried then s.mapInfo[id].nRefCount else 0
    ensures forall id :: TriedShare(s, id) == if id in s.mapInfo && s.mapInfo[id].fInTried then 1 else 0
  {
  }

  lemma RecordsMean(s: State)
    ensures (forall n :: n in s.mapInfo ==> RecordOk(s, n)) <==>
      Placed(s.mapInfo, s.vRandom) && RefOk(s.mapInfo) && AddressesLead(s.mapInfo, s.mapAddr) && TimesOk(s.mapInfo)
  {
    hide Placed, RefOk, AddressesLead, TimesOk, RecordOk;
    if forall n :: n in s.mapInfo ==> RecordOk(s, n) {
      RecordsApart(s);
    }
    if Placed(s.mapInfo, s.vRandom) && RefOk(s.mapInfo) && AddressesLead(s.mapInfo, s.mapAddr) && TimesOk(s.mapInfo) {
      RecordsTogether(s);
    }
  }

  lemma RecordsApart(s: State)
    requires forall n :: n in s.mapInfo ==> RecordOk(s, n)
    ensures Placed(s.mapInfo, s.vRandom) && RefOk(s.mapInfo) && AddressesLead(s.mapInfo, s.mapAddr) && TimesOk(s.mapInfo)
  {
  }

  lemma RecordsTogether(s: State)
    requires Placed(s.mapInfo, s.vRandom) && RefOk(s.mapInfo) && AddressesLead(s.mapInfo, s.mapAddr) && TimesOk(s.mapInfo)
    ensures forall n :: n in s.mapInfo ==> RecordOk(s, n)
  {
  }
}
