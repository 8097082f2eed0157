/** How much an address manager can hold, in total and from one address group. */
module AddrManCapacity {
  import opened AddrManState
  import opened AddrManInv
  import opened AddrManTried
  import opened AddrManSteps
  import opened AddrManPersist
  import opened AddrManCheck
  import opened AddrManRuns

  ghost function UnionOf(ss: seq<set<Id>>): set<Id> {
    if ss == [] then {} else UnionOf(ss[..|ss| - 1]) + ss[|ss| - 1]
  }

  lemma {:induction false} UnionMembers(ss: seq<set<Id>>)
    ensures forall b :: 0 <= b < |ss| ==> ss[b] <= UnionOf(ss)
  {
    if ss != [] {
      var n := |ss| - 1;
      UnionMembers(ss[..n]);
      forall b | 0 <= b < n ensures ss[b] <= UnionOf(ss) {
        assert ss[..n][b] == ss[b];
      }
    }
  }

  lemma {:induction false} UnionSize(ss: seq<set<Id>>, m: nat)
    requires forall b :: 0 <= b < |ss| ==> |ss[b]| <= m
    ensures |UnionOf(ss)| <= |ss| * m
  {
    if ss != [] {
      var n := |ss| - 1;
      UnionSize(ss[..n], m);
      var a, c := UnionOf(ss[..n]), ss[n];
      assert |a + c| == |a| + |c - a|;
      SubsetSize(c - a, c);
      assert |ss| * m == n * m + m;
    }
  }

  lemma Covered(ids: set<Id>, ss: seq<set<Id>>, m: nat)
    requires forall id :: id in ids ==> exists b :: 0 <= b < |ss| && id in ss[b]
    requires forall b :: 0 <= b < |ss| ==> |ss[b]| <= m
    ensures |ids| <= |ss| * m
  {
    UnionMembers(ss);
    UnionSize(ss, m);
    SubsetSize(ids, UnionOf(ss));
  }

  lemma NewFits(s: State)
    requires NewOk(s.mapInfo, s.vvNew, NOBODY) && RefOk(s.mapInfo)
    ensures |NewIds(s.mapInfo)| <= NEW_BUCKET_COUNT * NEW_BUCKET_SIZE
  {
    forall id | id in NewIds(s.mapInfo) ensures exists b :: 0 <= b < |s.vvNew| && id in s.vvNew[b] {
      CountZero(s.vvNew, id);
    }
    Covered(NewIds(s.mapInfo), s.vvNew, NEW_BUCKET_SIZE);
  }

  lemma MembersSize(v: seq<Id>)
    requires NoDup(v)
    ensures |Members(v)| == |v|
  {
    NoDupSize(v, Members(v));
  }

  lemma TriedFits(env: Env, s: State)
    requires TriedOk(env, s.nKey, s.mapInfo, s.vvTried)
    ensures |TriedIds(s.mapInfo)| <= TRIED_BUCKET_COUNT * TRIED_BUCKET_SIZE
  {
    var ss := seq(|s.vvTried|, b requires 0 <= b < |s.vvTried| => Members(s.vvTried[b]));
    forall b | 0 <= b < |ss| ensures |ss[b]| <= TRIED_BUCKET_SIZE {
      BucketTried(env, s, b);
      MembersSize(s.vvTried[b]);
    }
    forall id | id in TriedIds(s.mapInfo) ensures exists b :: 0 <= b < |ss| && id in ss[b] {
      assert id in ss[TriedBucket(env, s.nKey, s.mapInfo[id].service)];
    }
    Covered(TriedIds(s.mapInfo), ss, TRIED_BUCKET_SIZE);
  }

  /** No run makes the manager hold more than its buckets have room for. */
  lemma RunIsBounded(env: Env, key: Key, ops: seq<Op>)
    ensures var s := Reached(env, key, ops);
      && |s.vRandom| == |s.mapInfo| == s.nTried + s.nNew
      && s.nTried <= 4096 && s.nNew <= 16384 && |s.mapInfo| <= 20480
      && |s.vvNew| == 256 && |s.vvTried| == 64
      && (forall b :: 0 <= b < |s.vvNew| ==> |s.vvNew[b]| <= 64)
      && (forall b :: 0 <= b < |s.vvTried| ==> |s.vvTried[b]| <= 64)
  {
    hide Inv, Tables, NewOk, TriedOk, RefOk, RandOk, AddrOk, IdsOk, Reached;
    var s := Reached(env, key, ops);
    Parts(env, s);
    NewFits(s);
    TriedFits(env, s);
    SplitIds(s.mapInfo);
    RandomSize(s.mapInfo, s.vRandom);
    forall b | 0 <= b < |s.vvNew| ensures |s.vvNew[b]| <= NEW_BUCKET_SIZE {
      BucketFits(s, b, NOBODY);
    }
    forall b | 0 <= b < |s.vvTried| ensures |s.vvTried[b]| <= TRIED_BUCKET_SIZE {
      BucketTried(env, s, b);
    }
  }

  /** The tried ids whose address belongs to `group`. */
  ghost function TriedOfGroup(env: Env, s: State, group: seq<bv8>): set<Id> {
    set id | id in s.mapInfo && s.mapInfo[id].fInTried && env.group(s.mapInfo[id].service.addr) == group
  }

  /** However many addresses of one group are tried, they share four buckets. */
  lemma GroupIsBounded(env: Env, s: State, group: seq<bv8>)
    requires Inv(env, s)
    ensures |TriedOfGroup(env, s, group)| <= 256
  {
    hide Inv, NewOk, RandOk, AddrOk, IdsOk, RefOk;
    Parts(env, s);
    var ss := seq(TRIED_BUCKETS_PER_GROUP, r requires 0 <= r < TRIED_BUCKETS_PER_GROUP =>
                    Members(s.vvTried[env.triedHash2(s.nKey, group, r) % TRIED_BUCKET_COUNT]));
    forall r | 0 <= r < |ss| ensures |ss[r]| <= TRIED_BUCKET_SIZE {
      var b := env.triedHash2(s.nKey, group, r) % TRIED_BUCKET_COUNT;
      BucketTried(env, s, b);
      MembersSize(s.vvTried[b]);
    }
    forall id | id in TriedOfGroup(env, s, group) ensures exists r :: 0 <= r < |ss| && id in ss[r] {
      var service := s.mapInfo[id].service;
      assert id in s.vvTried[TriedBucket(env, s.nKey, service)];
      assert id in ss[env.triedHash1(s.nKey, service) % TRIED_BUCKETS_PER_GROUP];
    }
    Covered(TriedOfGroup(env, s, group), ss, TRIED_BUCKET_SIZE);
  }
}
