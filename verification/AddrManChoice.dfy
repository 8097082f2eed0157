/** Which entry is picked: for eviction from a tried bucket, for removal from a
    "new" bucket, and for a reply to a request for addresses. */
module AddrManChoice {
  import opened SortedSets
  import opened AddrManState

  // ----- SelectTried -----

  /** Of the first `i` entries of `u`, the one at `w` is the first least recently successful one. */
  ghost predicate Best(u: seq<Id>, mi: map<Id, AddrInfo>, i: nat, w: nat)
    requires i <= |u| && forall id :: id in u ==> id in mi
  {
    && w < i
    && (forall j :: 0 <= j < i ==> mi[u[w]].nLastSuccess <= mi[u[j]].nLastSuccess)
    && (forall j :: 0 <= j < w ==> mi[u[w]].nLastSuccess < mi[u[j]].nLastSuccess)
  }

  lemma ExchangePrefix(u: seq<Id>, mi: map<Id, AddrInfo>, i: nat, pos: int)
    requires i <= pos < |u| && forall id :: id in u ==> id in mi
    ensures var x := Exchange(u, i, pos);
      && x[i] == u[pos] && (forall j :: 0 <= j < i ==> x[j] == u[j])
      && (forall id :: id in x ==> id in mi)
  {
  }

  lemma BestStep(u: seq<Id>, x: seq<Id>, mi: map<Id, AddrInfo>, i: nat, w: nat)
    requires i < |u| == |x| && (forall id :: id in u ==> id in mi) && (forall id :: id in x ==> id in mi)
    requires (forall j :: 0 <= j < i ==> x[j] == u[j]) && Best(u, mi, i, w)
    ensures if mi[x[i]].nLastSuccess < mi[u[w]].nLastSuccess then Best(x, mi, i + 1, i) else Best(x, mi, i + 1, w)
  {
  }

  lemma {:induction false} CandidateFound(v: seq<Id>, mi: map<Id, AddrInfo>, rnd: nat -> nat, i: nat) returns (w: nat)
    requires 0 < i <= |v| && forall id :: id in v ==> id in mi
    ensures var r := SelectRounds(v, mi, rnd, i);
      Best(r.v, mi, i, w) && r.nOldest == r.v[w] && r.nOldestPos == Drawn(v, rnd, w)
  {
    hide GetRandInt, NoDup, Exchange, Best, SelectRounds;
    SelectStep(v, mi, rnd, i - 1);
    var p := SelectRounds(v, mi, rnd, i - 1);
    var r := SelectRounds(v, mi, rnd, (i - 1) + 1);
    var nPos := Drawn(p.v, rnd, i - 1);
    ExchangePrefix(p.v, mi, i - 1, nPos);
    if i == 1 {
      w := 0;
      BestOfOne(r.v, mi);
    } else {
      w := CandidateFound(v, mi, rnd, i - 1);
      BestInside(p.v, mi, i - 1, w);
      BestStep(p.v, r.v, mi, i - 1, w);
      if mi[p.v[nPos]].nLastSuccess < mi[p.nOldest].nLastSuccess {
        w := i - 1;
      }
    }
  }

  lemma BestOfOne(u: seq<Id>, mi: map<Id, AddrInfo>)
    requires u != [] && forall id :: id in u ==> id in mi
    ensures Best(u, mi, 1, 0)
  {
  }

  lemma BestInside(u: seq<Id>, mi: map<Id, AddrInfo>, i: nat, w: nat)
    requires i <= |u| && (forall id :: id in u ==> id in mi) && Best(u, mi, i, w)
    ensures w < i
  {
  }

  /** SelectTried settles on the least recently successful of the entries it inspects,
      which end up first in the bucket.  The position it returns is the one that entry was
      drawn from, and it still holds the entry exactly if the draw did not move it. */
  lemma SelectTriedExactly(v: seq<Id>, mi: map<Id, AddrInfo>, rnd: nat -> nat) returns (w: nat)
    requires v != [] && NoDup(v) && forall id :: id in v ==> id in mi
    ensures var r := SelectTried(v, mi, rnd);
      && w < 4 && w < |v| && r.nOldest == r.v[w]
      && (forall j :: 0 <= j < 4 && j < |v| ==> r.v[j] in mi && mi[r.v[w]].nLastSuccess <= mi[r.v[j]].nLastSuccess)
      && r.nOldestPos == w + GetRandInt(rnd(w + 1), |v| - w)
      && (r.v[r.nOldestPos] == r.nOldest <==> GetRandInt(rnd(w + 1), |v| - w) == 0)
  {
    hide GetRandInt, SelectRounds;
    w := CandidateFound(v, mi, rnd, Rounds(v));
    var r := SelectTried(v, mi, rnd);
    assert NoDup(r.v);
  }

  /** A draw of 0 leaves the bucket as it is; the candidate stays if the entry met is not older. */
  lemma RoundInPlace(v: seq<Id>, mi: map<Id, AddrInfo>, rnd: nat -> nat, i: nat, p: Selection)
    requires i < |v| && (forall id :: id in v ==> id in mi) && SelectRounds(v, mi, rnd, i) == p && p.nOldest in mi && p.nOldest != -1
    requires rnd(i + 1) == 0 && p.v[i] in mi && mi[p.nOldest].nLastSuccess <= mi[p.v[i]].nLastSuccess
    ensures SelectRounds(v, mi, rnd, i + 1) == p
  {
    hide SelectRounds, NoDup;
    assert p.v[i := p.v[i]][i := p.v[i]] == p.v;
    RoundIs(v, mi, rnd, i, p, p);
  }

  lemma FirstDraw(v: seq<Id>, rnd: nat -> nat)
    requires |v| > 1 && rnd(1) == 1
    ensures Drawn(v, rnd, 0) == 1
  {
  }

  /** So the entry that is evicted need not be the least recently successful one inspected:
      in a full bucket whose second entry is, the first is evicted if the first draw is 1
      and the others are 0. */
  lemma SelectTriedMissesOldest(v: seq<Id>, mi: map<Id, AddrInfo>, rnd: nat -> nat)
    requires |v| == TRIED_BUCKET_SIZE && NoDup(v) && forall id :: id in v ==> id in mi
    requires forall k :: 0 <= k < |v| && k != 1 ==> mi[v[1]].nLastSuccess < mi[v[k]].nLastSuccess
    requires rnd(1) == 1 && rnd(2) == rnd(3) == rnd(4) == 0
    ensures var r := SelectTried(v, mi, rnd); r.nOldest == v[1] && r.v[r.nOldestPos] == v[0] != v[1]
  {
    hide SelectRound, SelectRounds, NoDup, GetRandInt;
    FirstDraw(v, rnd);
    var w := v[1 := v[0]][0 := v[1]];
    var p := Selection(w, v[1], 1);
    assert forall k :: 0 <= k < |w| ==> w[k] == v[if k == 0 then 1 else if k == 1 then 0 else k];
    RoundIs(v, mi, rnd, 0, Selection(v, -1, -1), p);
    RoundInPlace(v, mi, rnd, 1, p);
    RoundInPlace(v, mi, rnd, 2, p);
    RoundInPlace(v, mi, rnd, 3, p);
  }

  // ----- ShrinkNew -----

  lemma {:induction false} FirstTerribleIs(ids: seq<Id>, mi: map<Id, AddrInfo>, nNow: int, k: nat)
    requires k <= |ids| && forall id :: id in ids ==> id in mi
    ensures var t := FirstTerrible(ids, mi, nNow, k);
      if t == -1 then forall i :: k <= i < |ids| ==> !IsTerrible(mi[ids[i]], nNow)
      else exists i :: k <= i < |ids| && t == ids[i] && IsTerrible(mi[ids[i]], nNow)
                       && forall j :: k <= j < i ==> !IsTerrible(mi[ids[j]], nNow)
    decreases |ids| - k
  {
    hide IsTerrible;
    if k < |ids| && !IsTerrible(mi[ids[k]], nNow) {
      FirstTerribleIs(ids, mi, nNow, k + 1);
    }
  }

  lemma FirstTerribleLeast(ids: seq<Id>, mi: map<Id, AddrInfo>, nNow: int)
    requires Ascending(ids) && forall id :: id in ids ==> id in mi
    ensures var t := FirstTerrible(ids, mi, nNow, 0);
      if t == -1 then forall id :: id in ids ==> !IsTerrible(mi[id], nNow)
      else t in ids && IsTerrible(mi[t], nNow) && forall id :: id in ids && IsTerrible(mi[id], nNow) ==> t <= id
  {
    hide IsTerrible;
    FirstTerribleIs(ids, mi, nNow, 0);
    var t := FirstTerrible(ids, mi, nNow, 0);
    forall id | id in ids && IsTerrible(mi[id], nNow) ensures t != -1 && t <= id {
      var i :| 0 <= i < |ids| && ids[i] == id;
    }
  }

  /** `id` is at a drawn position before `k`, and no other such entry is older. */
  ghost predicate OldestOf(ids: seq<Id>, mi: map<Id, AddrInfo>, drawn: set<nat>, k: nat, id: Id)
    requires k <= |ids| && (forall x :: x in ids ==> x in mi) && id in mi
  {
    && (exists d: nat :: d in drawn && d < k && ids[d] == id)
    && (forall d: nat :: d in drawn && d < k ==> mi[id].nTime <= mi[ids[d]].nTime)
  }

  lemma {:induction false} OldestDrawnIs(ids: seq<Id>, mi: map<Id, AddrInfo>, drawn: set<nat>, k: nat)
    requires k <= |ids| && forall id :: id in ids ==> id in mi
    ensures var t := OldestDrawn(ids, mi, drawn, k);
      if t == -1 then forall d: nat :: d in drawn ==> d >= k else OldestOf(ids, mi, drawn, k, t)
  {
    if k > 0 {
      OldestDrawnIs(ids, mi, drawn, k - 1);
    }
  }

  lemma DrawnInRange(rnd: nat -> nat, n: nat)
    requires n > 0
    ensures GetRandInt(rnd(1), n) in FourDraws(rnd, n) && forall d: nat :: d in FourDraws(rnd, n) ==> d < n
  {
    hide GetRandInt;
  }

  /** The oldest of the entries at four drawn positions. */
  ghost predicate OldestOfFour(ids: seq<Id>, mi: map<Id, AddrInfo>, rnd: nat -> nat, id: Id)
    requires ids != [] && (forall x :: x in ids ==> x in mi) && id in mi
  {
    OldestOf(ids, mi, {rnd(1) % |ids|, rnd(2) % |ids|, rnd(3) % |ids|, rnd(4) % |ids|}, |ids|, id)
  }

  /** ShrinkNew removes the first terrible entry, in the order of ids, if there is one,
      and otherwise an entry that no other of the drawn ones is older than. */
  lemma ShrinkVictimIs(bucket: set<Id>, mi: map<Id, AddrInfo>, nNow: int, rnd: nat -> nat)
    requires bucket != {} && forall id :: id in bucket ==> id in mi
    ensures var victim := ShrinkVictim(bucket, mi, nNow, rnd);
      && victim in bucket
      && (IsTerrible(mi[victim], nNow) <==> exists id :: id in bucket && IsTerrible(mi[id], nNow))
      && (if IsTerrible(mi[victim], nNow)
          then forall id :: id in bucket && IsTerrible(mi[id], nNow) ==> victim <= id
          else OldestOfFour(Sorted(bucket), mi, rnd, victim))
  {
    hide IsTerrible, GetRandInt, FourDraws, OldestOf, Ascending;
    var ids := Sorted(bucket);
    FirstTerribleLeast(ids, mi, nNow);
    DrawnInRange(rnd, |ids|);
    OldestDrawnIs(ids, mi, FourDraws(rnd, |ids|), |ids|);
    FourDrawsAre(rnd, |ids|);
  }

  lemma FourDrawsAre(rnd: nat -> nat, n: nat)
    requires n > 0
    ensures FourDraws(rnd, n) == {rnd(1) % n, rnd(2) % n, rnd(3) % n, rnd(4) % n}
  {
  }
}
