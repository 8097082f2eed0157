/** What is in a file that the address manager writes, and what it makes of any file it reads,
    its own or not. */
module AddrManFiles {
  import opened SortedSets
  import opened AddrManState
  import opened AddrManTried
  import opened AddrManPersist
  import opened AddrManLoad
  import opened AddrManCheck

  // ----- writing -----

  ghost predicate Holds(d: DiskInfo, info: AddrInfo) {
    && d.service == info.service && d.nServices == info.nServices && d.nTime == info.nTime
    && d.source == info.source && d.nLastSuccess == info.nLastSuccess && d.nAttempts == info.nAttempts
  }

  /** The records of the ids in `xs`, in this order. */
  ghost predicate HoldsAll(s: State, infos: seq<DiskInfo>, xs: seq<Id>) {
    |infos| == |xs| && forall i :: 0 <= i < |xs| ==> xs[i] in s.mapInfo && Holds(infos[i], s.mapInfo[xs[i]])
  }

  /** The members of a bucket as positions in `xs`, smallest first. */
  ghost predicate Refers(bucket: set<Id>, refs: seq<Id>, xs: seq<Id>) {
    && |refs| == |bucket| && (forall j :: 0 <= j < |refs| ==> refs[j] < |xs| && xs[refs[j]] in bucket)
    && forall j, k :: 0 <= j < k < |refs| ==> xs[refs[j]] < xs[refs[k]]
  }

  /** A saved state: the untried records and the tried ones, each in the order of their ids, and
      every "new" bucket as positions among the former. */
  lemma SavedFile(env: Env, s: State) returns (xs: seq<Id>, ys: seq<Id>)
    requires Inv(env, s)
    ensures BucketsReferred(s) && Ascending(xs) && Ascending(ys)
    ensures forall id :: id in xs <==> id in s.mapInfo && !s.mapInfo[id].fInTried
    ensures forall id :: id in ys <==> id in s.mapInfo && s.mapInfo[id].fInTried
    ensures var d := Save(s);
      && d.nKey == s.nKey && d.nNew == s.nNew && d.nTried == s.nTried
      && HoldsAll(s, d.news, xs) && HoldsAll(s, d.trieds, ys)
      && |d.buckets| == |s.vvNew| == 256 && forall b :: 0 <= b < 256 ==> Refers(s.vvNew[b], d.buckets[b], xs)
  {
    hide Inv, BucketsReferred, Holds, Refers, News, Trieds, Indices, Ascending;
    SavedIds(env, s);
    Parts(env, s);
    xs, ys := News(s), Trieds(s);
    SeqsAscend(s);
    InfosHold(s, xs);
    InfosHold(s, ys);
    forall b | 0 <= b < 256 ensures Refers(s.vvNew[b], Save(s).buckets[b], xs) {
      ReferredIn(s, b);
      IndicesRefer(s.vvNew[b], xs);
    }
  }

  lemma ReferredIn(s: State, b: int)
    requires BucketsReferred(s) && 0 <= b < |s.vvNew|
    ensures (forall id :: id in s.vvNew[b] ==> id in News(s)) && Save(s).buckets[b] == Indices(Sorted(s.vvNew[b]), News(s))
  {
    hide News, Indices;
  }

  lemma IndicesRefer(bucket: set<Id>, xs: seq<Id>)
    requires forall id :: id in bucket ==> id in xs
    ensures Refers(bucket, Indices(Sorted(bucket), xs), xs)
  {
    hide Sorted;
    var ids := Sorted(bucket);
    forall j | 0 <= j < |ids| ensures ids[j] in bucket {
      assert ids[j] in ids;
    }
  }

  lemma InfosHold(s: State, xs: seq<Id>)
    requires forall id :: id in xs ==> id in s.mapInfo
    ensures HoldsAll(s, Infos(xs, s.mapInfo), xs)
  {
  }

  lemma SeqsAscend(s: State)
    ensures Ascending(News(s)) && Ascending(Trieds(s))
  {
    SeqAscends(Sorted(s.mapInfo.Keys), s.mapInfo);
  }

  lemma {:induction false} SeqAscends(ids: seq<Id>, mi: map<Id, AddrInfo>)
    requires Ascending(ids) && forall id :: id in ids ==> id in mi
    ensures Ascending(NewSeq(ids, mi)) && Ascending(TriedSeq(ids, mi))
  {
    if ids != [] {
      var n := |ids| - 1;
      SeqAscends(ids[..n], mi);
      forall x | x in ids[..n] ensures x < ids[n] {
      }
      LastIsLargest(NewSeq(ids[..n], mi), ids[n]);
      LastIsLargest(TriedSeq(ids[..n], mi), ids[n]);
    }
  }

  lemma LastIsLargest(xs: seq<Id>, x: Id)
    requires Ascending(xs) && forall y :: y in xs ==> y < x
    ensures Ascending(xs + [x])
  {
    forall i | 0 <= i < |xs| ensures xs[i] < x {
      assert xs[i] in xs;
    }
  }

  // ----- reading: the records -----

  /** A record as it is read, before its references are. */
  function Record(d: DiskInfo, tried: bool, pos: nat): AddrInfo {
    AddrInfo(d.service, d.nServices, d.nTime, 0, d.source, d.nLastSuccess, d.nAttempts, 0, tried, pos)
  }

  /** How many of these records belong in tried bucket `b`. */
  function Wanting(env: Env, key: Key, infos: seq<DiskInfo>, b: int): nat {
    if infos == [] then 0 else
    Wanting(env, key, infos[..|infos| - 1], b) + if TriedBucket(env, key, infos[|infos| - 1].service) == b then 1 else 0
  }

  /** The tried records that find room: those that at most 63 before them want the bucket of. */
  function Kept(env: Env, key: Key, infos: seq<DiskInfo>): (kept: seq<DiskInfo>)
    ensures |kept| <= |infos|
  {
    if infos == [] then [] else
    var before, last := infos[..|infos| - 1], infos[|infos| - 1];
    Kept(env, key, before) + if Wanting(env, key, before, TriedBucket(env, key, last.service)) < 64 then [last] else []
  }

  lemma OneMoreInfo(env: Env, key: Key, infos: seq<DiskInfo>, last: DiskInfo, b: int)
    ensures Wanting(env, key, infos + [last], b)
         == Wanting(env, key, infos, b) + if TriedBucket(env, key, last.service) == b then 1 else 0
    ensures Kept(env, key, infos + [last])
         == Kept(env, key, infos) + if Wanting(env, key, infos, TriedBucket(env, key, last.service)) < 64 then [last] else []
  {
    hide TriedBucket;
    assert (infos + [last])[..|infos|] == infos;
  }

  /** A bucket gets those that want it, up to 64. */
  lemma {:induction false} KeptWanting(env: Env, key: Key, infos: seq<DiskInfo>, b: int)
    ensures Wanting(env, key, Kept(env, key, infos), b) == (var n := Wanting(env, key, infos, b); if n < 64 then n else 64)
  {
    hide TriedBucket, Wanting, Kept;
    if infos == [] {
      NoneWanting(env, key, b);
    } else {
      var before, last := infos[..|infos| - 1], infos[|infos| - 1];
      assert infos == before + [last];
      KeptWanting(env, key, before, b);
      OneMoreInfo(env, key, before, last, b);
      OneMoreInfo(env, key, Kept(env, key, before), last, b);
      assert Kept(env, key, before) + [] == Kept(env, key, before);
    }
  }

  lemma NoneWanting(env: Env, key: Key, b: int)
    ensures Kept(env, key, []) == [] && Wanting(env, key, [], b) == 0
  {
  }

  function Records(news: seq<DiskInfo>, kept: seq<DiskInfo>): (rs: seq<AddrInfo>)
    ensures |rs| == |news| + |kept|
    ensures forall k :: 0 <= k < |rs| ==>
      rs[k] == if k < |news| then Record(news[k], false, k) else Record(kept[k - |news|], true, k)
  {
    seq(|news| + |kept|, k requires 0 <= k < |news| + |kept| =>
      if k < |news| then Record(news[k], false, k) else Record(kept[k - |news|], true, k))
  }

  /** The records are numbered in the order in which they were read, and an address leads to the
      last one that has it. */
  ghost predicate Lists(t: State, rs: seq<AddrInfo>) {
    && t.nIdCount == |rs| && (forall k: Id :: k in t.mapInfo <==> k < |rs|)
    && (forall k: Id :: k < |rs| ==> t.mapInfo[k] == rs[k])
    && Ordered(t, rs)
  }

  ghost predicate Ordered(t: State, rs: seq<AddrInfo>) {
    && |t.vRandom| == |rs| && (forall k :: 0 <= k < |rs| ==> t.vRandom[k] == k)
    && (forall a :: a in t.mapAddr ==> t.mapAddr[a] < |rs| && rs[t.mapAddr[a]].service.addr == a)
    && (forall k: Id :: k < |rs| ==> rs[k].service.addr in t.mapAddr && k <= t.mapAddr[rs[k].service.addr])
  }

  lemma AppendLists(t: State, rs: seq<AddrInfo>, info: AddrInfo)
    requires Lists(t, rs)
    ensures Lists(Append(t, info), rs + [info.(nRandomPos := |rs|)])
  {
    var u, us := Append(t, info), rs + [info.(nRandomPos := |rs|)];
    assert forall k :: 0 <= k < |rs| ==> us[k] == rs[k];
    assert us[|rs|] == info.(nRandomPos := |rs|);
  }

  lemma NoneListed(d: Disk)
    ensures Lists(LoadNew(d, 0), Records([], []))
  {
  }

  lemma {:induction false} NewsListed(d: Disk, n: nat)
    requires n <= |d.news|
    ensures Lists(LoadNew(d, n), Records(d.news[..n], []))
  {
    hide LoadNew, Lists, Append, Records, Record, FromDisk;
    if n == 0 {
      NoneListed(d);
      assert d.news[..0] == [];
    } else {
      NewsListed(d, n - 1);
      LoadNewStep(d, n - 1);
      AppendLists(LoadNew(d, n - 1), Records(d.news[..n - 1], []), FromDisk(d.news[n - 1]));
      OneMoreNew(d.news[..n - 1], d.news[n - 1]);
      assert d.news[..n - 1] + [d.news[n - 1]] == d.news[..n];
    }
  }

  lemma OneMoreNew(news: seq<DiskInfo>, last: DiskInfo)
    ensures Records(news + [last], []) == Records(news, []) + [FromDisk(last).(nRandomPos := |Records(news, [])|)]
  {
  }

  lemma OneMoreTried(news: seq<DiskInfo>, kept: seq<DiskInfo>, last: DiskInfo)
    ensures Records(news, kept + [last])
         == Records(news, kept) + [FromDisk(last).(fInTried := true, nRandomPos := |Records(news, kept)|)]
  {
  }

  /** Tried bucket `b` holds the ids of the tried records that want it, in order. */
  ghost predicate Fills(env: Env, key: Key, rs: seq<AddrInfo>, news: nat, v: seq<Id>, b: int) {
    && (forall i, j :: 0 <= i < j < |v| ==> v[i] < v[j])
    && (forall k: Id :: k in v <==> news <= k < |rs| && TriedBucket(env, key, rs[k].service) == b)
  }

  lemma FillsMore(env: Env, key: Key, rs: seq<AddrInfo>, info: AddrInfo, news: nat, v: seq<Id>, b: int)
    requires Fills(env, key, rs, news, v, b) && news <= |rs|
    ensures TriedBucket(env, key, info.service) == b ==> Fills(env, key, rs + [info], news, v + [|rs|], b)
    ensures TriedBucket(env, key, info.service) != b ==> Fills(env, key, rs + [info], news, v, b)
  {
    hide TriedBucket;
    assert forall k :: 0 <= k < |rs| ==> (rs + [info])[k] == rs[k];
    assert (rs + [info])[|rs|] == info;
    forall i | 0 <= i < |v| ensures v[i] < |rs| {
      assert v[i] in v;
    }
  }

  /** What has been read after `n` tried records. */
  ghost predicate TriedsRead(env: Env, d: Disk, n: nat, t: State)
    requires n <= |d.trieds|
  {
    var kept := Kept(env, d.nKey, d.trieds[..n]);
    && t.nKey == d.nKey && t.nNew == d.nNew && t.nTried == d.nTried - (n - |kept|)
    && Lists(t, Records(d.news, kept)) && |t.vvTried| == TRIED_BUCKET_COUNT
    && (forall b :: 0 <= b < TRIED_BUCKET_COUNT ==>
          && |t.vvTried[b]| == Wanting(env, d.nKey, kept, b)
          && Fills(env, d.nKey, Records(d.news, kept), |d.news|, t.vvTried[b], b))
    && t.vvNew == Replicate(NEW_BUCKET_COUNT, {})
  }

  lemma {:induction false} FirstFields(d: Disk, n: nat)
    requires n <= |d.news|
    ensures var t := LoadNew(d, n);
      && t.nKey == d.nKey && t.nNew == d.nNew && t.nTried == d.nTried
      && t.vvTried == Replicate(TRIED_BUCKET_COUNT, []) && t.vvNew == Replicate(NEW_BUCKET_COUNT, {})
  {
    hide Replicate, FromDisk;
    if n > 0 {
      FirstFields(d, n - 1);
    }
  }

  lemma NoneTried(env: Env, d: Disk)
    ensures TriedsRead(env, d, 0, LoadTried(env, d, 0))
  {
    hide LoadNew, Lists, TriedBucket, Records;
    NewsListed(d, |d.news|);
    FirstFields(d, |d.news|);
    assert d.news[..|d.news|] == d.news && d.trieds[..0] == [];
    NoneWanting(env, d.nKey, 0);
    LoadTriedStart(env, d);
  }

  /** Entering one more tried record, or losing it. */
  lemma EnterTriedReads(env: Env, d: Disk, n: nat, t: State)
    requires n < |d.trieds| && TriedsRead(env, d, n, t) && |t.vvTried| == TRIED_BUCKET_COUNT
    ensures TriedsRead(env, d, n + 1, EnterTried(env, t, FromDisk(d.trieds[n])))
  {
    hide Lists, TriedBucket, Records, Fills, Wanting, Kept, Append, FromDisk;
    var last, before := d.trieds[n], d.trieds[..n];
    assert d.trieds[..n + 1] == before + [last];
    var kept := Kept(env, d.nKey, before);
    var kb := TriedBucket(env, d.nKey, last.service);
    OneMoreInfo(env, d.nKey, before, last, kb);
    KeptWanting(env, d.nKey, before, kb);
    SameService(last);
    assert kept + [] == kept;
    if Wanting(env, d.nKey, before, kb) < 64 {
      KeepsOne(env, d, n, t, last);
    } else {
      assert |t.vvTried[kb]| == 64;
      ListsFrame(t, EnterTried(env, t, FromDisk(last)), Records(d.news, kept));
    }
  }

  lemma SameService(d: DiskInfo)
    ensures FromDisk(d).service == d.service
  {
  }

  lemma KeepsOne(env: Env, d: Disk, n: nat, t: State, last: DiskInfo)
    requires n < |d.trieds| && TriedsRead(env, d, n, t) && last == d.trieds[n]
    requires Kept(env, d.nKey, d.trieds[..n + 1]) == Kept(env, d.nKey, d.trieds[..n]) + [last]
    requires |t.vvTried[TriedBucket(env, d.nKey, last.service)]| < TRIED_BUCKET_SIZE && |t.vvTried| == TRIED_BUCKET_COUNT
    ensures TriedsRead(env, d, n + 1, EnterTried(env, t, FromDisk(last)))
  {
    hide Lists, TriedBucket, Records, Fills, Wanting, Kept, FromDisk, Replicate;
    var kept := Kept(env, d.nKey, d.trieds[..n]);
    var rs, info := Records(d.news, kept), FromDisk(last).(fInTried := true);
    SameService(last);
    OneMoreTried(d.news, kept, last);
    AppendLists(t, rs, info);
    var u := EnterTried(env, t, FromDisk(last));
    ListsFrame(Append(t, info), u, Records(d.news, kept + [last]));
    ListsCount(t, rs);
    forall b | 0 <= b < TRIED_BUCKET_COUNT
      ensures |u.vvTried[b]| == Wanting(env, d.nKey, kept + [last], b)
      ensures Fills(env, d.nKey, Records(d.news, kept + [last]), |d.news|, u.vvTried[b], b)
    {
      OneMoreInfo(env, d.nKey, kept, last, b);
      FillsMore(env, d.nKey, rs, info.(nRandomPos := |rs|), |d.news|, t.vvTried[b], b);
    }
  }

  lemma ListsFrame(t: State, u: State, rs: seq<AddrInfo>)
    requires Lists(t, rs) && u.nIdCount == t.nIdCount && u.mapInfo == t.mapInfo && u.mapAddr == t.mapAddr && u.vRandom == t.vRandom
    ensures Lists(u, rs)
  {
  }

  lemma ListsCount(t: State, rs: seq<AddrInfo>)
    requires Lists(t, rs)
    ensures t.nIdCount == |rs|
  {
  }

  lemma {:induction false} LoadTriedReads(env: Env, d: Disk, n: nat)
    requires n <= |d.trieds|
    ensures TriedsRead(env, d, n, LoadTried(env, d, n))
  {
    hide TriedsRead, LoadTried, EnterTried, FromDisk;
    if n == 0 {
      NoneTried(env, d);
    } else {
      LoadTriedReads(env, d, n - 1);
      LoadTriedStep(env, d, n - 1);
      EnterTriedReads(env, d, n - 1, LoadTried(env, d, n - 1));
    }
  }

  // ----- reading: the references -----

  /** How often `k` has been referred to, in the buckets `before` and in `refs`. */
  ghost function Seen(before: seq<seq<Id>>, refs: seq<Id>, k: Id): nat {
    Occurrences(before, k) + multiset(refs)[k]
  }

  /** Every record counts its references, up to four; a number without a record makes one. */
  ghost predicate RefsCounted(mi: map<Id, AddrInfo>, mj: map<Id, AddrInfo>, before: seq<seq<Id>>, refs: seq<Id>) {
    && (forall k: Id :: k in mj <==> k in mi || Seen(before, refs, k) > 0)
    && (forall k: Id :: k in mj ==>
          && mj[k] == (if k in mi then mi[k] else DEFAULT_INFO).(nRefCount := mj[k].nRefCount)
          && mj[k].nRefCount == if Seen(before, refs, k) < 4 then Seen(before, refs, k) else 4)
  }

  /** A bucket holds the ids it refers to, but those that four references came before. */
  ghost predicate MembersRead(vv: seq<set<Id>>, before: seq<seq<Id>>, refs: seq<Id>) {
    && |before| <= |vv|
    && (forall c :: 0 <= c < |before| ==> BucketRead(vv[c], before[..c], before[c]))
    && (|before| < |vv| ==> BucketRead(vv[|before|], before, refs))
    && (forall c :: |before| < c < |vv| ==> vv[c] == {})
  }

  ghost predicate BucketRead(bucket: set<Id>, before: seq<seq<Id>>, refs: seq<Id>) {
    forall k: Id :: k in bucket <==> k in refs && Occurrences(before, k) < 4
  }

  lemma OneMoreSeen(before: seq<seq<Id>>, refs: seq<Id>, idx: Id, k: Id)
    ensures Seen(before, refs + [idx], k) == Seen(before, refs, k) + if k == idx then 1 else 0
    ensures k in refs <==> multiset(refs)[k] > 0
  {
  }

  lemma BucketSeen(before: seq<seq<Id>>, refs: seq<Id>, k: Id)
    ensures Seen(before + [refs], [], k) == Seen(before, refs, k)
  {
    assert (before + [refs])[..|before|] == before;
  }

  lemma LoadRefCounts(u: State, t: State, before: seq<seq<Id>>, refs: seq<Id>, b: nat, idx: Id)
    requires b < |t.vvNew| && RefsCounted(u.mapInfo, t.mapInfo, before, refs)
    requires forall k: Id :: k in u.mapInfo ==> u.mapInfo[k].nRefCount == 0
    ensures RefsCounted(u.mapInfo, LoadRef(t, b, idx).mapInfo, before, refs + [idx])
  {
    hide Seen;
    var mj, mk := t.mapInfo, LoadRef(t, b, idx).mapInfo;
    LoadRefRecord(t, b, idx);
    forall k: Id ensures Seen(before, refs + [idx], k) == Seen(before, refs, k) + if k == idx then 1 else 0 {
      OneMoreSeen(before, refs, idx, k);
    }
    hide LoadRef;
    forall k: Id ensures k in mk <==> k in u.mapInfo || Seen(before, refs + [idx], k) > 0 {
      assert k in mk <==> k in mj || k == idx;
    }
    forall k: Id | k in mk
      ensures mk[k] == (if k in u.mapInfo then u.mapInfo[k] else DEFAULT_INFO).(nRefCount := mk[k].nRefCount)
      ensures mk[k].nRefCount == if Seen(before, refs + [idx], k) < 4 then Seen(before, refs + [idx], k) else 4
    {
      assert k != idx ==> mk[k] == mj[k];
    }
  }

  lemma LoadRefRecord(t: State, b: nat, idx: Id)
    requires b < |t.vvNew|
    ensures var mk := LoadRef(t, b, idx).mapInfo; var info := InfoAt(t.mapInfo, idx);
      && (forall k: Id :: k in mk <==> k in t.mapInfo || k == idx) && (forall k: Id :: k in mk && k != idx ==> mk[k] == t.mapInfo[k])
      && mk[idx] == info.(nRefCount := if info.nRefCount < 4 then info.nRefCount + 1 else info.nRefCount)
  {
  }

  lemma LoadRefMembers(u: State, t: State, before: seq<seq<Id>>, refs: seq<Id>, idx: Id)
    requires |before| < |t.vvNew| && RefsCounted(u.mapInfo, t.mapInfo, before, refs) && MembersRead(t.vvNew, before, refs)
    requires forall k: Id :: k in u.mapInfo ==> u.mapInfo[k].nRefCount == 0
    ensures MembersRead(LoadRef(t, |before|, idx).vvNew, before, refs + [idx])
  {
    hide Occurrences, BucketRead, RefsCounted;
    var b := |before|;
    RefCountSeen(u, t, before, refs, idx);
    BucketReadMore(t.vvNew[b], before, refs, idx);
  }

  lemma RefCountSeen(u: State, t: State, before: seq<seq<Id>>, refs: seq<Id>, idx: Id)
    requires RefsCounted(u.mapInfo, t.mapInfo, before, refs)
    requires forall k: Id :: k in u.mapInfo ==> u.mapInfo[k].nRefCount == 0
    ensures InfoAt(t.mapInfo, idx).nRefCount < 4 <==> Seen(before, refs, idx) < 4
  {
    hide Seen;
  }

  lemma BucketReadMore(bucket: set<Id>, before: seq<seq<Id>>, refs: seq<Id>, idx: Id)
    requires BucketRead(bucket, before, refs)
    ensures Seen(before, refs, idx) < 4 ==> BucketRead(bucket + {idx}, before, refs + [idx])
    ensures Seen(before, refs, idx) >= 4 ==> BucketRead(bucket, before, refs + [idx])
  {
    hide Occurrences;
    OneMoreSeen(before, refs, idx, idx);
  }

  ghost predicate RefsRead(u: State, t: State, before: seq<seq<Id>>, refs: seq<Id>) {
    && t == u.(mapInfo := t.mapInfo, vvNew := t.vvNew) && |t.vvNew| == |u.vvNew|
    && RefsCounted(u.mapInfo, t.mapInfo, before, refs) && MembersRead(t.vvNew, before, refs)
  }

  lemma LoadRefReads(u: State, t: State, before: seq<seq<Id>>, refs: seq<Id>, idx: Id)
    requires |before| < |t.vvNew| && RefsRead(u, t, before, refs)
    requires forall k: Id :: k in u.mapInfo ==> u.mapInfo[k].nRefCount == 0
    ensures RefsRead(u, LoadRef(t, |before|, idx), before, refs + [idx])
  {
    hide RefsCounted, MembersRead;
    LoadRefCounts(u, t, before, refs, |before|, idx);
    LoadRefMembers(u, t, before, refs, idx);
  }

  lemma NextBucket(u: State, t: State, before: seq<seq<Id>>, refs: seq<Id>)
    requires |before| < |t.vvNew| && RefsRead(u, t, before, refs)
    ensures RefsRead(u, t, before + [refs], [])
  {
    hide Seen, Occurrences;
    forall k: Id ensures Seen(before + [refs], [], k) == Seen(before, refs, k) {
      BucketSeen(before, refs, k);
    }
    var after := before + [refs];
    forall c | 0 <= c < |after| ensures BucketRead(t.vvNew[c], after[..c], after[c]) {
      assert after[..c] == if c < |before| then before[..c] else before;
    }
  }

  lemma {:induction false} LoadBucketReads(u: State, t: State, before: seq<seq<Id>>, refs: seq<Id>, j: nat)
    requires j <= |refs| && |before| < |t.vvNew| && RefsRead(u, t, before, [])
    requires forall k: Id :: k in u.mapInfo ==> u.mapInfo[k].nRefCount == 0
    ensures RefsRead(u, LoadBucket(t, |before|, refs, j), before, refs[..j])
  {
    hide RefsRead, LoadRef, LoadBucket;
    if j == 0 {
      LoadBucketStart(t, |before|, refs);
      assert refs[..0] == [];
    } else {
      LoadBucketReads(u, t, before, refs, j - 1);
      LoadBucketStep(t, |before|, refs, j - 1);
      LoadRefReads(u, LoadBucket(t, |before|, refs, j - 1), before, refs[..j - 1], refs[j - 1]);
      assert refs[..j - 1] + [refs[j - 1]] == refs[..j];
    }
  }

  lemma NothingRead(u: State)
    requires forall b :: 0 <= b < |u.vvNew| ==> u.vvNew[b] == {}
    requires forall k: Id :: k in u.mapInfo ==> u.mapInfo[k].nRefCount == 0
    ensures RefsRead(u, u, [], [])
  {
  }

  lemma {:induction false} LoadBucketsRead(u: State, buckets: seq<seq<Id>>, b: nat)
    requires b <= |buckets| <= |u.vvNew| && forall c :: 0 <= c < |u.vvNew| ==> u.vvNew[c] == {}
    requires forall k: Id :: k in u.mapInfo ==> u.mapInfo[k].nRefCount == 0
    ensures RefsRead(u, LoadBuckets(u, buckets, b), buckets[..b], [])
  {
    hide RefsRead, LoadBucket, LoadBuckets;
    if b == 0 {
      LoadBucketsStart(u, buckets);
      NothingRead(u);
      assert buckets[..0] == [];
    } else {
      var before, refs := buckets[..b - 1], buckets[b - 1];
      LoadBucketsRead(u, buckets, b - 1);
      LoadBucketsStep(u, buckets, b - 1);
      var t := LoadBuckets(u, buckets, b - 1);
      LoadBucketReads(u, t, before, refs, |refs|);
      assert refs[..|refs|] == refs && before + [refs] == buckets[..b];
      NextBucket(u, LoadBucket(t, b - 1, refs, |refs|), before, refs);
    }
  }

  // ----- reading: the whole file -----

  lemma NothingMoreSeen(buckets: seq<seq<Id>>)
    ensures forall k: Id :: Seen(buckets, [], k) == Occurrences(buckets, k)
  {
    hide Occurrences;
  }

  /** Whatever the file, its records are numbered in order, tried ones only as far as their bucket
      has room, which the counter is corrected for; and its references are entered and counted up
      to the fourth of a record. */
  lemma LoadMeans(env: Env, d: Disk)
    requires |d.buckets| == 256
    ensures var t := Load(env, d); var kept := Kept(env, d.nKey, d.trieds); var rs := Records(d.news, kept);
      && t.nKey == d.nKey && t.nNew == d.nNew && t.nTried == d.nTried - (|d.trieds| - |kept|)
      && t.nIdCount == |rs| && Ordered(t, rs)
      && |t.vvTried| == 64 && (forall b :: 0 <= b < 64 ==>
            && |t.vvTried[b]| == (var n := Wanting(env, d.nKey, d.trieds, b); if n < 64 then n else 64)
            && Fills(env, d.nKey, rs, |d.news|, t.vvTried[b], b))
      && (forall k: Id :: k in t.mapInfo <==> k < |rs| || Occurrences(d.buckets, k) > 0)
      && (forall k: Id :: k in t.mapInfo ==>
            && t.mapInfo[k] == (if k < |rs| then rs[k] else DEFAULT_INFO).(nRefCount := t.mapInfo[k].nRefCount)
            && t.mapInfo[k].nRefCount == (var n := Occurrences(d.buckets, k); if n < 4 then n else 4))
      && |t.vvNew| == 256 && (forall b :: 0 <= b < 256 ==> forall k: Id ::
            k in t.vvNew[b] <==> k in d.buckets[b] && Occurrences(d.buckets[..b], k) < 4)
  {
    hide LoadTried, LoadBuckets, TriedBucket, Fills, Wanting, Kept, Occurrences, Ordered, Seen;
    var u := LoadTried(env, d, |d.trieds|);
    LoadTriedReads(env, d, |d.trieds|);
    assert d.trieds[..|d.trieds|] == d.trieds;
    LoadBucketsRead(u, d.buckets, 256);
    assert d.buckets[..256] == d.buckets;
    forall b | 0 <= b < 64
      ensures Wanting(env, d.nKey, Kept(env, d.nKey, d.trieds), b) == (var n := Wanting(env, d.nKey, d.trieds, b); if n < 64 then n else 64)
    {
      KeptWanting(env, d.nKey, d.trieds, b);
    }
    NothingMoreSeen(d.buckets);
    OrderedFrame(u, Load(env, d), Records(d.news, Kept(env, d.nKey, d.trieds)));
  }

  lemma OrderedFrame(t: State, u: State, rs: seq<AddrInfo>)
    requires Ordered(t, rs) && u.mapAddr == t.mapAddr && u.vRandom == t.vRandom
    ensures Ordered(u, rs)
  {
  }
}
