/** What the address manager writes to disk, what it makes of it when it reads it
    back, and why the two states are the same up to a renumbering of ids. */
module AddrManPersist {
  import opened SortedSets
  import opened AddrManState
  import opened AddrManInv
  import opened AddrManTried

  /** The serialised fields of a record. */
  datatype DiskInfo = DiskInfo(
    service: Service, nServices: bv64, nTime: uint32, source: NetAddr, nLastSuccess: int, nAttempts: int)

  /** A file written with the current number of "new" buckets. */
  datatype Disk = Disk(
    nKey: Key, nNew: int, nTried: int, news: seq<DiskInfo>, trieds: seq<DiskInfo>, buckets: seq<seq<Id>>)

  function ToDisk(info: AddrInfo): DiskInfo {
    DiskInfo(info.service, info.nServices, info.nTime, info.source, info.nLastSuccess, info.nAttempts)
  }

  function FromDisk(d: DiskInfo): AddrInfo {
    AddrInfo(d.service, d.nServices, d.nTime, 0, d.source, d.nLastSuccess, d.nAttempts, 0, false, -1)
  }

  // ----- saving -----

  /** The ids of `ids` that a "new" bucket refers to, in the same order. */
  function NewSeq(ids: seq<Id>, mi: map<Id, AddrInfo>): (xs: seq<Id>)
    requires forall id :: id in ids ==> id in mi
    ensures forall x :: x in xs <==> x in ids && mi[x].nRefCount != 0
    ensures NoDup(ids) ==> NoDup(xs)
    ensures |xs| <= |ids|
  {
    if ids == [] then [] else
    var last := ids[|ids| - 1];
    var xs := NewSeq(ids[..|ids| - 1], mi);
    if mi[last].nRefCount != 0 then xs + [last] else xs
  }

  /** The tried ids of `ids`, in the same order. */
  function TriedSeq(ids: seq<Id>, mi: map<Id, AddrInfo>): (xs: seq<Id>)
    requires forall id :: id in ids ==> id in mi
    ensures forall x :: x in xs <==> x in ids && mi[x].fInTried
    ensures NoDup(ids) ==> NoDup(xs)
    ensures |xs| <= |ids|
  {
    if ids == [] then [] else
    var last := ids[|ids| - 1];
    var xs := TriedSeq(ids[..|ids| - 1], mi);
    if mi[last].fInTried then xs + [last] else xs
  }

  /** The untried ids written so far are the first of those that will be. */
  lemma {:induction false} NewSeqPrefix(ids: seq<Id>, mi: map<Id, AddrInfo>, k: nat)
    requires k <= |ids| && forall id :: id in ids ==> id in mi
    ensures NewSeq(ids[..k], mi) <= NewSeq(ids, mi)
    decreases |ids|
  {
    if k < |ids| {
      assert ids[..|ids| - 1][..k] == ids[..k];
      NewSeqPrefix(ids[..|ids| - 1], mi, k);
    } else {
      assert ids[..k] == ids;
    }
  }

  lemma {:induction false} TriedSeqPrefix(ids: seq<Id>, mi: map<Id, AddrInfo>, k: nat)
    requires k <= |ids| && forall id :: id in ids ==> id in mi
    ensures TriedSeq(ids[..k], mi) <= TriedSeq(ids, mi)
    decreases |ids|
  {
    if k < |ids| {
      assert ids[..|ids| - 1][..k] == ids[..k];
      TriedSeqPrefix(ids[..|ids| - 1], mi, k);
    } else {
      assert ids[..k] == ids;
    }
  }

  /** The position of `x` in `xs`. */
  function Index(xs: seq<Id>, x: Id): (k: nat)
    requires x in xs
    ensures k < |xs| && xs[k] == x
  {
    if xs[0] == x then 0 else 1 + Index(xs[1..], x)
  }

  function Infos(ids: seq<Id>, mi: map<Id, AddrInfo>): (r: seq<DiskInfo>)
    requires forall id :: id in ids ==> id in mi
    ensures |r| == |ids| && forall i :: 0 <= i < |r| ==> ids[i] in mi && r[i] == ToDisk(mi[ids[i]])
  {
    seq(|ids|, i requires 0 <= i < |ids| => (assert ids[i] in ids; ToDisk(mi[ids[i]])))
  }

  function Indices(ids: seq<Id>, order: seq<Id>): (r: seq<Id>)
    requires forall id :: id in ids ==> id in order
    ensures |r| == |ids| && forall i :: 0 <= i < |r| ==> r[i] < |order| && order[r[i]] == ids[i]
  {
    seq(|ids|, i requires 0 <= i < |ids| => (assert ids[i] in ids; Index(order, ids[i])))
  }

  ghost function News(s: State): seq<Id> {
    NewSeq(Sorted(s.mapInfo.Keys), s.mapInfo)
  }

  ghost function Trieds(s: State): seq<Id> {
    TriedSeq(Sorted(s.mapInfo.Keys), s.mapInfo)
  }

  ghost predicate BucketsReferred(s: State) {
    forall b :: 0 <= b < |s.vvNew| ==> forall id :: id in s.vvNew[b] ==> id in News(s)
  }

  /** The file a valid state is saved as. */
  ghost function Save(s: State): Disk
    requires BucketsReferred(s)
  {
    Disk(s.nKey, s.nNew, s.nTried, Infos(News(s), s.mapInfo), Infos(Trieds(s), s.mapInfo),
         seq(|s.vvNew|, b requires 0 <= b < |s.vvNew| => Indices(Sorted(s.vvNew[b]), News(s))))
  }

  lemma AscendingNoDup(xs: seq<Id>)
    requires Ascending(xs)
    ensures NoDup(xs)
  {
  }

  lemma {:induction false} NoDupSize(xs: seq<Id>, s: set<Id>)
    requires NoDup(xs) && forall x :: x in xs <==> x in s
    ensures |xs| == |s|
  {
    if xs == [] {
      assert s == {};
    } else {
      var n := |xs| - 1;
      assert xs[n] in xs;
      forall x ensures x in xs[..n] <==> x in s - {xs[n]} {
        if x in s - {xs[n]} {
          assert x in xs;
          var i :| 0 <= i < |xs| && xs[i] == x;
          assert i < n;
        }
        if x in xs[..n] {
          assert x in xs;
        }
      }
      NoDupSize(xs[..n], s - {xs[n]});
    }
  }

  lemma SplitIds(mi: map<Id, AddrInfo>)
    ensures |mi| == |NewIds(mi)| + |TriedIds(mi)|
  {
    assert NewIds(mi) + TriedIds(mi) == mi.Keys;
  }

  lemma RefsAreNew(mi: map<Id, AddrInfo>)
    requires RefOk(mi)
    ensures forall id :: id in mi ==> (mi[id].nRefCount != 0 <==> !mi[id].fInTried)
  {
  }

  lemma BucketsSaved(env: Env, s: State)
    requires Inv(env, s)
    ensures BucketsReferred(s)
  {
    hide Tables, AddrOk, RandOk, IdsOk, TriedOk, NewOk, RefOk, Ascending, Count;
    Parts(env, s);
    RefsAreNew(s.mapInfo);
    forall b, id | 0 <= b < |s.vvNew| && id in s.vvNew[b] ensures id in News(s) {
      NewTriedApart(env, s, b, id, NOBODY);
    }
  }

  /** Of a valid state, exactly the untried ids are written as "new", and the counters are right. */
  lemma SavedIds(env: Env, s: State)
    requires Inv(env, s)
    ensures NoDup(News(s)) && NoDup(Trieds(s)) && BucketsReferred(s)
    ensures forall id :: id in News(s) <==> id in s.mapInfo && !s.mapInfo[id].fInTried
    ensures forall id :: id in Trieds(s) <==> id in s.mapInfo && s.mapInfo[id].fInTried
    ensures |News(s)| == s.nNew && |Trieds(s)| == s.nTried
    ensures |s.mapInfo| == s.nNew + s.nTried
  {
    hide Tables, AddrOk, RandOk, IdsOk, TriedOk, NewOk, RefOk, NoDup, Ascending, BucketsReferred;
    Parts(env, s);
    AscendingNoDup(Sorted(s.mapInfo.Keys));
    RefsAreNew(s.mapInfo);
    NoDupSize(News(s), NewIds(s.mapInfo));
    NoDupSize(Trieds(s), TriedIds(s.mapInfo));
    SplitIds(s.mapInfo);
    BucketsSaved(env, s);
  }

  // ----- the loops that write -----

  lemma NewSeqStep(ids: seq<Id>, mi: map<Id, AddrInfo>, k: nat)
    requires k < |ids| && forall id :: id in ids ==> id in mi
    ensures ids[k] in mi
    ensures NewSeq(ids[..k + 1], mi) == NewSeq(ids[..k], mi) + if mi[ids[k]].nRefCount != 0 then [ids[k]] else []
  {
    assert ids[..k + 1][..k] == ids[..k] && ids[k] in ids;
  }

  lemma TriedSeqStep(ids: seq<Id>, mi: map<Id, AddrInfo>, k: nat)
    requires k < |ids| && forall id :: id in ids ==> id in mi
    ensures ids[k] in mi
    ensures TriedSeq(ids[..k + 1], mi) == TriedSeq(ids[..k], mi) + if mi[ids[k]].fInTried then [ids[k]] else []
  {
    assert ids[..k + 1][..k] == ids[..k] && ids[k] in ids;
  }

  lemma InfosAppend(xs: seq<Id>, x: Id, mi: map<Id, AddrInfo>)
    requires x in mi && forall id :: id in xs ==> id in mi
    ensures forall id :: id in xs + [x] ==> id in mi
    ensures Infos(xs + [x], mi) == Infos(xs, mi) + [ToDisk(mi[x])]
  {
  }

  /** `mapUnkIds` gives each id of `xs` its position there. */
  ghost predicate Positions(xs: seq<Id>, mapUnkIds: map<Id, nat>) {
    forall i: nat :: i < |xs| ==> xs[i] in mapUnkIds && mapUnkIds[xs[i]] == i
  }

  lemma PositionsStep(xs: seq<Id>, x: Id, mapUnkIds: map<Id, nat>)
    requires Positions(xs, mapUnkIds) && x !in xs
    ensures Positions(xs, mapUnkIds[x := |xs|]) && Positions(xs + [x], mapUnkIds[x := |xs|])
  {
    forall i: nat | i < |xs| ensures xs[i] != x {
      assert xs[i] in xs;
    }
  }

  /** Write the untried records in the order of their ids, numbering them from 0. */
  method WriteNews(ids: seq<Id>, mi: map<Id, AddrInfo>, nNew: int) returns (news: seq<DiskInfo>, mapUnkIds: map<Id, nat>)
    requires NoDup(ids) && forall id :: id in ids ==> id in mi
    requires nNew == |NewSeq(ids, mi)|
    ensures news == Infos(NewSeq(ids, mi), mi) && Positions(NewSeq(ids, mi), mapUnkIds)
  {
    hide NewSeq, NoDup, Infos, Positions, NewsWritten;
    news, mapUnkIds := [], map[];
    var nIds := 0;
    var k: nat := 0;
    NothingWritten(ids, mi);
    while k < |ids|
      invariant k <= |ids| && nIds == |NewSeq(ids[..k], mi)| && NewsWritten(ids, mi, k, news, mapUnkIds)
    {
      if nIds == nNew {
        break;
      }
      WriteNext(ids, mi, k, news, mapUnkIds);
      var id := ids[k];
      mapUnkIds := mapUnkIds[id := nIds];
      if mi[id].nRefCount != 0 {
        news := news + [ToDisk(mi[id])];
        nIds := nIds + 1;
      }
      k := k + 1;
    }
    AllWritten(ids, mi, k, news, mapUnkIds);
  }

  /** The records with references among the first `k` ids are written and numbered. */
  ghost predicate NewsWritten(ids: seq<Id>, mi: map<Id, AddrInfo>, k: nat, news: seq<DiskInfo>, mapUnkIds: map<Id, nat>)
    requires k <= |ids| && forall id :: id in ids ==> id in mi
  {
    var xs := NewSeq(ids[..k], mi);
    xs <= NewSeq(ids, mi) && news == Infos(xs, mi) && Positions(xs, mapUnkIds)
  }

  lemma WriteNext(ids: seq<Id>, mi: map<Id, AddrInfo>, k: nat, news: seq<DiskInfo>, mapUnkIds: map<Id, nat>)
    requires k < |ids| && NoDup(ids) && (forall id :: id in ids ==> id in mi) && NewsWritten(ids, mi, k, news, mapUnkIds)
    ensures var xs := NewSeq(ids[..k], mi);
      && ids[k] in mi
      && NewSeq(ids[..k + 1], mi) == xs + (if mi[ids[k]].nRefCount != 0 then [ids[k]] else [])
      && NewsWritten(ids, mi, k + 1, if mi[ids[k]].nRefCount != 0 then news + [ToDisk(mi[ids[k]])] else news,
                     mapUnkIds[ids[k] := |xs|])
  {
    hide NewSeq, NoDup, Infos, Positions;
    var xs := NewSeq(ids[..k], mi);
    NewSeqPrefix(ids, mi, k + 1);
    NewSeqStep(ids, mi, k);
    NotBefore(ids, k, mi);
    PositionsStep(xs, ids[k], mapUnkIds);
    InfosAppend(xs, ids[k], mi);
    assert xs + [] == xs;
  }

  lemma AllWritten(ids: seq<Id>, mi: map<Id, AddrInfo>, k: nat, news: seq<DiskInfo>, mapUnkIds: map<Id, nat>)
    requires k <= |ids| && (forall id :: id in ids ==> id in mi) && NewsWritten(ids, mi, k, news, mapUnkIds)
    requires k == |ids| || |NewSeq(ids[..k], mi)| == |NewSeq(ids, mi)|
    ensures news == Infos(NewSeq(ids, mi), mi) && Positions(NewSeq(ids, mi), mapUnkIds)
  {
    hide NewSeq, Infos, Positions;
    if k == |ids| {
      assert ids[..k] == ids;
    }
    assert NewSeq(ids[..k], mi) == NewSeq(ids, mi);
  }

  lemma NothingWritten(ids: seq<Id>, mi: map<Id, AddrInfo>)
    requires forall id :: id in ids ==> id in mi
    ensures NewsWritten(ids, mi, 0, [], map[])
    ensures ids[..0] == [] && NewSeq([], mi) == [] && TriedSeq([], mi) == [] && Infos([], mi) == [] && Positions([], map[])
  {
  }

  lemma NotBefore(ids: seq<Id>, k: nat, mi: map<Id, AddrInfo>)
    requires NoDup(ids) && k < |ids| && forall id :: id in ids ==> id in mi
    ensures ids[k] !in NewSeq(ids[..k], mi) && ids[k] !in TriedSeq(ids[..k], mi)
  {
  }

  /** Write the tried records in the order of their ids. */
  method WriteTrieds(ids: seq<Id>, mi: map<Id, AddrInfo>, nTried: int) returns (trieds: seq<DiskInfo>)
    requires forall id :: id in ids ==> id in mi
    requires nTried == |TriedSeq(ids, mi)|
    ensures trieds == Infos(TriedSeq(ids, mi), mi)
  {
    hide TriedSeq, Infos;
    trieds := [];
    ghost var all := TriedSeq(ids, mi);
    ghost var xs: seq<Id> := [];
    var nIds := 0;
    var k: nat := 0;
    NothingWritten(ids, mi);
    while k < |ids|
      invariant k <= |ids| && xs == TriedSeq(ids[..k], mi) && xs <= all && nIds == |xs|
      invariant (forall id :: id in xs ==> id in mi) && trieds == Infos(xs, mi)
    {
      if nIds == nTried {
        break;
      }
      TriedSeqPrefix(ids, mi, k + 1);
      TriedSeqStep(ids, mi, k);
      var id := ids[k];
      if mi[id].fInTried {
        InfosAppend(xs, id, mi);
        trieds := trieds + [ToDisk(mi[id])];
        nIds := nIds + 1;
        xs := xs + [id];
      }
      k := k + 1;
    }
    if k == |ids| {
      assert ids[..k] == ids;
    }
    assert xs == all;
  }

  /** Write each bucket as the numbers of its members. */
  method WriteBuckets(vvNew: seq<set<Id>>, ghost all: seq<Id>, mapUnkIds: map<Id, nat>) returns (buckets: seq<seq<Id>>)
    requires NoDup(all) && Positions(all, mapUnkIds)
    requires forall b :: 0 <= b < |vvNew| ==> forall id :: id in vvNew[b] ==> id in all
    ensures |buckets| == |vvNew|
    ensures forall b :: 0 <= b < |vvNew| ==> buckets[b] == Indices(Sorted(vvNew[b]), all)
  {
    hide NoDup, Positions, Indices, Sorted;
    buckets := [];
    var b := 0;
    while b < |vvNew|
      invariant 0 <= b <= |vvNew| && |buckets| == b
      invariant forall c :: 0 <= c < b ==> buckets[c] == Indices(Sorted(vvNew[c]), all)
    {
      var refs := WriteBucket(vvNew[b], all, mapUnkIds);
      buckets := buckets + [refs];
      b := b + 1;
    }
  }

  method WriteBucket(bucket: set<Id>, ghost all: seq<Id>, mapUnkIds: map<Id, nat>) returns (refs: seq<Id>)
    requires NoDup(all) && Positions(all, mapUnkIds) && forall id :: id in bucket ==> id in all
    ensures refs == Indices(Sorted(bucket), all)
  {
    hide Sorted, Indices;
    var ids := Sorted(bucket);
    ghost var want := Indices(ids, all);
    refs := [];
    var n: nat := 0;
    while n < |ids|
      invariant n <= |ids| && refs == want[..n]
    {
      assert ids[n] in ids;
      PositionIs(all, mapUnkIds, want[n]);
      refs := refs + [if ids[n] in mapUnkIds then mapUnkIds[ids[n]] else 0];
      n := n + 1;
    }
  }

  lemma PositionIs(all: seq<Id>, mapUnkIds: map<Id, nat>, k: nat)
    requires Positions(all, mapUnkIds) && k < |all|
    ensures all[k] in mapUnkIds && mapUnkIds[all[k]] == k
  {
  }

  lemma SaveIs(s: State, d: Disk)
    requires BucketsReferred(s)
    requires d.nKey == s.nKey && d.nNew == s.nNew && d.nTried == s.nTried
    requires d.news == Infos(News(s), s.mapInfo) && d.trieds == Infos(Trieds(s), s.mapInfo)
    requires |d.buckets| == |s.vvNew|
    requires forall b :: 0 <= b < |s.vvNew| ==> d.buckets[b] == Indices(Sorted(s.vvNew[b]), News(s))
    ensures d == Save(s)
  {
    hide News, Trieds, Infos, Indices, Sorted;
    assert d.buckets == Save(s).buckets;
  }
}
