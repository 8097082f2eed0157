/** For which clocks no alert in the map ever cancels another one in it. */
module AlertClocks {
  import opened Numerals
  import opened SortedSets
  import opened Alerts

  // ----- the condition -----

  /** An alert that expires at `exp` may have been accepted by reading `t`: accepting reads the
      clock three times or more, the first time while the alert is in effect. */
  ghost predicate Entered(clock: Clock, exp: int, t: int) {
    exists e: nat :: e + 3 <= t && clock(e) < exp
  }

  /** The clock passes `exp` between two readings, at a moment at which an alert that expires
      then and another one can miss each other, with both in the map by reading `t`: either
      while the alert is processed, or while the other is and the alert is in the map. */
  ghost predicate MissedAt(clock: Clock, exp: int, u: nat, t: int) {
    clock(u) < exp <= clock(u + 1) && ((u >= 3 && u + 6 <= t) || (u + 4 <= t && Entered(clock, exp, u - 2)))
  }

  /** The clock rises from reading `u` to the next and is back below that at reading `j`. */
  ghost predicate SlipsAt(clock: Clock, u: nat, j: nat) {
    MissedAt(clock, clock(u + 1), u, j) && clock(j) < clock(u + 1)
  }

  ghost predicate Slips(clock: Clock) {
    exists u, j :: SlipsAt(clock, u, j)
  }

  lemma SteadyNeverSlips(clock: Clock)
    requires Steady(clock)
    ensures !Slips(clock)
  {
  }

  // ----- without a slip the map stays quiet -----

  ghost predicate Missed(clock: Clock, exp: int, t: int) {
    exists u :: MissedAt(clock, exp, u, t)
  }

  /** Every alert has been accepted, and one that covers another has missed it. */
  ghost predicate Explained(clock: Clock, s: State) {
    && (forall k <- s.alerts :: Entered(clock, s.alerts[k].nExpiration, s.ticks))
    && (forall j <- s.alerts, k <- s.alerts :: j != k && Covers(s.alerts[j], s.alerts[k]) ==>
          Missed(clock, s.alerts[j].nExpiration, s.ticks))
  }

  lemma LoudSlips(clock: Clock, s: State, j: nat, k: nat)
    requires Explained(clock, s) && j in s.alerts && k in s.alerts && j != k
    requires CancelsAt(s.alerts[j], s.alerts[k], clock(s.ticks))
    ensures Slips(clock)
  {
    hide Covers, Entered;
    var exp := s.alerts[j].nExpiration;
    var u: nat :| MissedAt(clock, exp, u, s.ticks);
    if Entered(clock, exp, u - 2) {
      LaterExpiry(clock, exp, clock(u + 1), u - 2);
    }
    assert SlipsAt(clock, u, s.ticks);
  }

  lemma LaterExpiry(clock: Clock, exp: int, exp': int, t: int)
    requires exp <= exp' && Entered(clock, exp, t)
    ensures Entered(clock, exp', t)
  {
  }

  lemma {:induction false} Crossing(clock: Clock, exp: int, lo: nat, hi: nat) returns (u: nat)
    requires lo <= hi && clock(lo) < exp <= clock(hi)
    ensures lo <= u < hi && clock(u) < exp <= clock(u + 1)
    decreases hi - lo
  {
    if exp <= clock(lo + 1) {
      u := lo;
    } else {
      u := Crossing(clock, exp, lo + 1, hi);
    }
  }

  /** In between, the new alert did not cancel `a`, and then `a` was in effect. */
  ghost predicate Passed(clock: Clock, n: Alert, a: Alert, lo: nat, hi: nat) {
    exists i: nat :: lo <= i && i + 2 <= hi && !CancelsAt(n, a, clock(i)) && InEffect(a, clock(i + 1))
  }

  /** In between, `a` did not cancel the new alert. */
  ghost predicate LetThrough(clock: Clock, n: Alert, a: Alert, lo: nat, hi: nat) {
    exists i: nat :: lo <= i < hi && !CancelsAt(a, n, clock(i))
  }

  lemma {:induction false} SweepPasses(clock: Clock, n: Alert, keys: seq<nat>, s: State)
    requires Ascending(keys) && (forall i :: 0 <= i < |keys| ==> keys[i] in s.alerts)
    ensures var s' := Sweep(clock, n, keys, s);
      forall i :: 0 <= i < |keys| && keys[i] in s'.alerts ==> Passed(clock, n, s.alerts[keys[i]], s.ticks, s'.ticks)
  {
    hide CancelsAt, InEffect;
    if keys != [] {
      var k, s' := keys[0], Sweep(clock, n, keys, s);
      var next := SweptOne(clock, n, k, s);
      SweepPasses(clock, n, keys[1..], next);
      forall i | 0 <= i < |keys| && keys[i] in s'.alerts ensures Passed(clock, n, s.alerts[keys[i]], s.ticks, s'.ticks) {
        if i > 0 {
          assert keys[i] == keys[1..][i - 1];
          assert Passed(clock, n, next.alerts[keys[i]], next.ticks, s'.ticks);
        } else {
          assert k in next.alerts;
        }
      }
    }
  }

  lemma {:induction false} NotBlockedLets(clock: Clock, n: Alert, keys: seq<nat>, s: State)
    requires (forall i :: 0 <= i < |keys| ==> keys[i] in s.alerts) && !Blocked(clock, n, keys, s).0
    ensures forall i :: 0 <= i < |keys| ==> LetThrough(clock, n, s.alerts[keys[i]], s.ticks, Blocked(clock, n, keys, s).1)
  {
    hide CancelsAt;
    if keys != [] {
      var end := Blocked(clock, n, keys, s).1;
      NotBlockedLets(clock, n, keys[1..], s.(ticks := s.ticks + 1));
      forall i | 0 <= i < |keys| ensures LetThrough(clock, n, s.alerts[keys[i]], s.ticks, end) {
        if i > 0 {
          assert keys[i] == keys[1..][i - 1];
          assert LetThrough(clock, n, s.alerts[keys[i]], s.ticks + 1, end);
        } else {
          assert !CancelsAt(s.alerts[keys[0]], n, clock(s.ticks));
        }
      }
    }
  }

  /** An alert that was in effect at reading `t` and leaves `a` in the map without cancelling it. */
  lemma NewMisses(clock: Clock, n: Alert, a: Alert, t: nat, swept: nat, end: nat)
    requires Entered(clock, a.nExpiration, t) && InEffect(n, clock(t)) && Covers(n, a)
    requires Passed(clock, n, a, t + 1, swept) && LetThrough(clock, n, a, swept, end)
    ensures Missed(clock, n.nExpiration, end + 2)
  {
    hide Covers;
    var i: nat :| t + 1 <= i && i + 2 <= swept && !CancelsAt(n, a, clock(i)) && InEffect(a, clock(i + 1));
    var u := Crossing(clock, n.nExpiration, t, i);
    assert MissedAt(clock, n.nExpiration, u, end + 2);
  }

  /** An alert in the map that lets the new one in without cancelling it. */
  lemma OldMisses(clock: Clock, n: Alert, a: Alert, t: nat, swept: nat, end: nat)
    requires Entered(clock, a.nExpiration, t) && Covers(a, n)
    requires Passed(clock, n, a, t + 1, swept) && LetThrough(clock, n, a, swept, end)
    ensures Missed(clock, a.nExpiration, end + 2)
  {
    hide Covers;
    var i: nat :| t + 1 <= i && i + 2 <= swept && !CancelsAt(n, a, clock(i)) && InEffect(a, clock(i + 1));
    var j: nat :| swept <= j < end && !CancelsAt(a, n, clock(j));
    var u := Crossing(clock, a.nExpiration, i + 1, j);
    assert Entered(clock, a.nExpiration, u - 2);
    assert MissedAt(clock, a.nExpiration, u, end + 2);
  }

  /** What an alert in the map and a new one that is accepted have seen of each other. */
  ghost predicate Admitted(clock: Clock, n: Alert, a: Alert, t: nat, swept: nat, end: nat) {
    && Entered(clock, a.nExpiration, t)
    && Passed(clock, n, a, t + 1, swept)
    && LetThrough(clock, n, a, swept, end)
  }

  lemma FewerExplained(clock: Clock, s: State, s': State)
    requires Explained(clock, s) && s'.ticks >= s.ticks
    requires s'.alerts.Keys <= s.alerts.Keys && forall k <- s'.alerts :: s'.alerts[k] == s.alerts[k]
    ensures Explained(clock, s')
  {
    hide Covers;
    forall k <- s'.alerts ensures Entered(clock, s'.alerts[k].nExpiration, s'.ticks) {
      LaterEntered(clock, s.alerts[k].nExpiration, s.ticks, s'.ticks);
    }
    forall j <- s'.alerts, k <- s'.alerts | j != k && Covers(s'.alerts[j], s'.alerts[k])
      ensures Missed(clock, s'.alerts[j].nExpiration, s'.ticks)
    {
      LaterMissed(clock, s.alerts[j].nExpiration, s.ticks, s'.ticks);
    }
  }

  lemma LaterEntered(clock: Clock, exp: int, t: int, t': int)
    requires t <= t' && Entered(clock, exp, t)
    ensures Entered(clock, exp, t')
  {
  }

  lemma LaterMissed(clock: Clock, exp: int, t: int, t': int)
    requires t <= t' && Missed(clock, exp, t)
    ensures Missed(clock, exp, t')
  {
    hide Entered;
    var u: nat :| MissedAt(clock, exp, u, t);
    assert MissedAt(clock, exp, u, t');
  }

  lemma AddedExplained(clock: Clock, n: Alert, key: nat, s: State, t: nat, swept: nat, end: nat)
    requires Explained(clock, s.(ticks := end)) && InEffect(n, clock(t)) && t < swept <= end
    requires forall k <- s.alerts :: Admitted(clock, n, s.alerts[k], t, swept, end)
    ensures Explained(clock, Added(n, key, s, end))
  {
    hide Covers, InEffect, Passed, LetThrough, Entered, Missed;
    var s' := Added(n, key, s, end);
    JustEntered(clock, n, t, s'.ticks);
    forall k <- s'.alerts ensures Entered(clock, s'.alerts[k].nExpiration, s'.ticks) {
      if k in s.alerts {
        LaterEntered(clock, s.alerts[k].nExpiration, t, s'.ticks);
      }
    }
    forall j <- s'.alerts, k <- s'.alerts | j != k && Covers(s'.alerts[j], s'.alerts[k])
      ensures Missed(clock, s'.alerts[j].nExpiration, s'.ticks)
    {
      if j !in s.alerts {
        NewMisses(clock, n, s.alerts[k], t, swept, end);
      } else if k !in s.alerts {
        OldMisses(clock, n, s.alerts[j], t, swept, end);
      } else {
        LaterMissed(clock, s.alerts[j].nExpiration, end, s'.ticks);
      }
    }
  }

  lemma JustEntered(clock: Clock, n: Alert, t: nat, end: nat)
    requires InEffect(n, clock(t)) && t + 3 <= end
    ensures Entered(clock, n.nExpiration, end)
  {
  }

  lemma SweptPasses(clock: Clock, n: Alert, s: State)
    ensures var s' := Swept(clock, n, s); forall k <- s'.alerts :: Passed(clock, n, s'.alerts[k], s.ticks, s'.ticks)
  {
    hide Passed, Sweep, Sorted;
    var keys := Sorted(s.alerts.Keys);
    SweepPasses(clock, n, keys, s);
    forall k <- Swept(clock, n, s).alerts ensures k in keys {
      assert k in s.alerts.Keys;
    }
  }

  lemma NotCancelledLets(clock: Clock, n: Alert, s: State)
    requires !Cancelled(clock, n, s).0
    ensures forall k <- s.alerts :: LetThrough(clock, n, s.alerts[k], s.ticks, Cancelled(clock, n, s).1)
  {
    hide LetThrough, Blocked, Sorted;
    var keys := Sorted(s.alerts.Keys);
    NotBlockedLets(clock, n, keys, s);
    forall k <- s.alerts ensures k in keys {
      assert k in s.alerts.Keys;
    }
  }

  lemma ProcessKeepsExplained(clock: Clock, n: Alert, signed: bool, key: nat, s: State)
    requires Explained(clock, s)
    ensures Explained(clock, Process(clock, n, signed, key, s).0)
  {
    hide InEffect, Explained, Swept, Cancelled, Added, Acceptable, Passed, LetThrough, Entered;
    if signed {
      var s0 := s.(ticks := s.ticks + 1);
      var s1 := Swept(clock, n, s0);
      var r := Cancelled(clock, n, s1);
      FewerExplained(clock, s, s0);
      FewerExplained(clock, s, s1.(ticks := r.1));
      if !r.0 && InEffect(n, clock(s.ticks)) {
        SweptPasses(clock, n, s0);
        NotCancelledLets(clock, n, s1);
        EachExplained(clock, s);
        assert forall k <- s1.alerts :: Admitted(clock, n, s1.alerts[k], s.ticks, s1.ticks, r.1);
        AddedExplained(clock, n, key, s1, s.ticks, s1.ticks, r.1);
      }
    }
  }

  lemma EachExplained(clock: Clock, s: State)
    requires Explained(clock, s)
    ensures forall k <- s.alerts :: Entered(clock, s.alerts[k].nExpiration, s.ticks)
  {
  }

  lemma {:induction false} RunIsExplained(clock: Clock, arrivals: seq<Arrival>)
    ensures Explained(clock, Run(clock, arrivals))
  {
    hide Process;
    if arrivals != [] {
      var last, before := arrivals[|arrivals| - 1], arrivals[..|arrivals| - 1];
      RunIsExplained(clock, before);
      ProcessKeepsExplained(clock, last.alert, last.signed, last.key, Run(clock, before));
    }
  }

  // ----- a slip can be made to show -----

  type Hash = seq<byte> -> nat

  /** What can arrive: the key of an alert is the hash of its message, and the message
      determines the alert. */
  ghost predicate Received(hash: Hash, arrivals: seq<Arrival>) {
    && (forall x <- arrivals :: x.key == hash(x.alert.vchMsg))
    && (forall x <- arrivals, y <- arrivals :: x.alert.vchMsg == y.alert.vchMsg ==> x.alert == y.alert)
  }

  /** Two messages have different keys. */
  ghost predicate Separates(hash: Hash) {
    exists m, m' :: hash(m) != hash(m')
  }

  function Plain(nID: int, nCancel: int, nExpiration: int, vchMsg: seq<byte>): Alert {
    Alert(nExpiration, nID, nCancel, {}, 0, 0, {}, 0, "", vchMsg)
  }

  function Arriving(hash: Hash, a: Alert): Arrival {
    Arrival(a, true, hash(a.vchMsg))
  }

  /** The earliest time that the readings up to `t` give. */
  function Earliest(clock: Clock, t: nat): (time: int)
    ensures forall i: nat :: i <= t ==> time <= clock(i)
  {
    if t == 0 || clock(t) < Earliest(clock, t - 1) then clock(t) else Earliest(clock, t - 1)
  }

  function OtherMessage(m: seq<byte>, m': seq<byte>): (other: seq<byte>)
    ensures other != m && other != m'
  {
    if [] != m && [] != m' then [] else if [0] != m && [0] != m' then [0] else [1]
  }

  /** An alert that has always expired: each time it arrives it costs one reading and changes nothing. */
  function Expired(clock: Clock, t: nat, m: seq<byte>, m': seq<byte>): Alert {
    Plain(0, 0, Earliest(clock, t), OtherMessage(m, m'))
  }

  lemma OneMoreArrival(clock: Clock, arrivals: seq<Arrival>, x: Arrival)
    ensures Run(clock, arrivals + [x]) == Process(clock, x.alert, x.signed, x.key, Run(clock, arrivals)).0
  {
    assert (arrivals + [x])[..|arrivals|] == arrivals;
  }

  /** Expired arrivals move the clock on to any later reading. */
  lemma {:induction false} Idle(clock: Clock, arrivals: seq<Arrival>, x: Arrival, t: nat) returns (r: seq<Arrival>)
    requires Run(clock, arrivals).ticks <= t && x.signed && forall i: nat :: i < t ==> !InEffect(x.alert, clock(i))
    ensures Run(clock, r) == Run(clock, arrivals).(ticks := t)
    ensures forall y <- r :: y in arrivals || y == x
    decreases t - Run(clock, arrivals).ticks
  {
    hide Sweep, Blocked, Acceptable, Run;
    var s := Run(clock, arrivals);
    if s.ticks == t {
      r := arrivals;
    } else {
      OneMoreArrival(clock, arrivals, x);
      r := Idle(clock, arrivals + [x], x, t);
    }
  }

  lemma AcceptFirst(clock: Clock, n: Alert, key: nat, t: nat)
    requires clock(t) < n.nExpiration && n.nID != MAX_INT
    ensures Process(clock, n, true, key, State(map[], t)) == (State(map[key := n], t + 3), true)
  {
    var s0 := State(map[], t + 1);
    assert s0.alerts.Keys == {};
  }

  /** The second alert meets the first at readings `t + 1` to `t + 3`. */
  lemma AcceptSecond(clock: Clock, a: Alert, n: Alert, k: nat, k': nat, t: nat)
    requires clock(t) < n.nExpiration && n.nID != MAX_INT && k != k'
    requires !CancelsAt(n, a, clock(t + 1)) && InEffect(a, clock(t + 2)) && !CancelsAt(a, n, clock(t + 3))
    ensures Process(clock, n, true, k', State(map[k := a], t)) == (State(map[k := a, k' := n], t + 6), true)
  {
    hide CancelsAt, Sorted;
    var s0 := State(map[k := a], t + 1);
    assert s0.alerts.Keys == {k};
    SortedOne(k);
    var s1 := SweptOne(clock, n, k, s0);
    assert s1 == s0.(ticks := t + 3);
    assert [k][1..] == [];
    assert Sweep(clock, n, [k], s0) == Sweep(clock, n, [], s1) == s1;
    assert Blocked(clock, n, [k], s1) == Blocked(clock, n, [], s1.(ticks := t + 4)) == (false, t + 4);
    assert map[k := a][k' := n] == map[k := a, k' := n];
  }

  lemma SortedOne(k: nat)
    ensures Sorted({k}) == [k]
  {
    AscendingIsUnique(Sorted({k}), [k]);
  }

  /** Two alerts, `a` first and then `n`, accepted at the given readings. */
  lemma BothAccepted(clock: Clock, hash: Hash, a: Alert, n: Alert, e: nat, t: nat, j: nat) returns (r: seq<Arrival>)
    requires clock(e) < a.nExpiration && clock(t) < n.nExpiration && a.nID != MAX_INT && n.nID != MAX_INT
    requires hash(a.vchMsg) != hash(n.vchMsg) && e + 3 <= t && t + 6 <= j
    requires !CancelsAt(n, a, clock(t + 1)) && InEffect(a, clock(t + 2)) && !CancelsAt(a, n, clock(t + 3))
    ensures Received(hash, r) && Run(clock, r) == State(map[hash(a.vchMsg) := a, hash(n.vchMsg) := n], j)
  {
    hide Run, Process, CancelsAt, InEffect, Earliest, OtherMessage;
    var x := Arriving(hash, Expired(clock, j, a.vchMsg, n.vchMsg));
    NeverInEffect(clock, x.alert, j);
    NoArrivals(clock);
    r := Idle(clock, [], x, e);
    AcceptFirst(clock, a, hash(a.vchMsg), e);
    OneMoreArrival(clock, r, Arriving(hash, a));
    r := Idle(clock, r + [Arriving(hash, a)], x, t);
    AcceptSecond(clock, a, n, hash(a.vchMsg), hash(n.vchMsg), t);
    OneMoreArrival(clock, r, Arriving(hash, n));
    r := Idle(clock, r + [Arriving(hash, n)], x, j);
  }

  lemma NeverInEffect(clock: Clock, a: Alert, t: nat)
    requires a.nExpiration == Earliest(clock, t)
    ensures forall i: nat :: i < t ==> !InEffect(a, clock(i))
  {
  }

  lemma NoArrivals(clock: Clock)
    ensures Run(clock, []) == NOTHING
  {
  }

  /** The new alert expires just while it could cancel the one in the map. */
  lemma NewCanMiss(clock: Clock, hash: Hash, u: nat, j: nat) returns (r: seq<Arrival>)
    requires clock(u) < clock(u + 1) && clock(j) < clock(u + 1) && u >= 3 && u + 6 <= j && Separates(hash)
    ensures Received(hash, r) && !Quiet(clock, Run(clock, r))
  {
    hide Run, Received;
    var m, m' :| hash(m) != hash(m');
    var late := if clock(0) < clock(u + 2) then clock(u + 2) + 1 else clock(0) + 1;
    var a, n := Plain(1, 0, late, m), Plain(2, 1, clock(u + 1), m');
    r := BothAccepted(clock, hash, a, n, 0, u, j);
    assert CancelsAt(Run(clock, r).alerts[hash(m')], Run(clock, r).alerts[hash(m)], clock(j));
  }

  /** The alert in the map expires just while it could cancel the new one. */
  lemma OldCanMiss(clock: Clock, hash: Hash, e: nat, u: nat, j: nat) returns (r: seq<Arrival>)
    requires clock(u) < clock(u + 1) && clock(j) < clock(u + 1) && clock(e) < clock(u + 1) && e + 5 <= u && u + 4 <= j
    requires Separates(hash)
    ensures Received(hash, r) && !Quiet(clock, Run(clock, r))
  {
    hide Run, Received;
    var m, m' :| hash(m) != hash(m');
    var a, n := Plain(1, 2, clock(u + 1), m), Plain(2, 0, clock(u - 2) + 1, m');
    r := BothAccepted(clock, hash, a, n, e, u - 2, j);
    assert CancelsAt(Run(clock, r).alerts[hash(m)], Run(clock, r).alerts[hash(m')], clock(j));
  }

  /** Whatever arrives, no alert in the map cancels another one in it: exactly for the clocks
      that do not slip, or if the hash gives all messages the same key. */
  lemma QuietExactly(clock: Clock, hash: Hash)
    ensures (forall arrivals :: Received(hash, arrivals) ==> Quiet(clock, Run(clock, arrivals)))
       <==> !Slips(clock) || !Separates(hash)
  {
    hide Run, Quiet, Received, Separates;
    if Slips(clock) && Separates(hash) {
      var u: nat, j: nat :| SlipsAt(clock, u, j);
      var r;
      if u >= 3 && u + 6 <= j {
        r := NewCanMiss(clock, hash, u, j);
      } else {
        var e: nat :| e + 3 <= u - 2 && clock(e) < clock(u + 1);
        r := OldCanMiss(clock, hash, e, u, j);
      }
    } else {
      forall arrivals | Received(hash, arrivals) ensures Quiet(clock, Run(clock, arrivals)) {
        if Slips(clock) {
          RunHasOneKey(clock, hash, arrivals);
          OneKeyIsQuiet(clock, hash, Run(clock, arrivals));
        } else {
          RunIsExplained(clock, arrivals);
          ExplainedIsQuiet(clock, Run(clock, arrivals));
        }
      }
    }
  }

  /** If all messages have the same key the map holds one alert at most. */
  lemma {:induction false} RunHasOneKey(clock: Clock, hash: Hash, arrivals: seq<Arrival>)
    requires Received(hash, arrivals) && !Separates(hash)
    ensures forall k <- Run(clock, arrivals).alerts :: k == hash([])
  {
    hide Swept, Cancelled, InEffect, Acceptable;
    if arrivals != [] {
      var last, before := arrivals[|arrivals| - 1], arrivals[..|arrivals| - 1];
      assert forall x <- before :: x in arrivals;
      assert last in arrivals;
      RunHasOneKey(clock, hash, before);
    }
  }

  lemma OneKeyIsQuiet(clock: Clock, hash: Hash, s: State)
    requires forall k <- s.alerts :: k == hash([])
    ensures Quiet(clock, s)
  {
  }

  lemma ExplainedIsQuiet(clock: Clock, s: State)
    requires Explained(clock, s) && !Slips(clock)
    ensures Quiet(clock, s)
  {
    hide Covers, Explained, Slips;
    forall j <- s.alerts, k <- s.alerts | j != k ensures !CancelsAt(s.alerts[j], s.alerts[k], clock(s.ticks)) {
      if CancelsAt(s.alerts[j], s.alerts[k], clock(s.ticks)) {
        LoudSlips(clock, s, j, k);
      }
    }
  }

  /** A clock that jumps ahead for one reading. */
  function Jumping(i: nat): int {
    if i == 4 then 200 else 50
  }

  /** With such a clock some arrivals leave an alert in the map beside one it cancels. */
  lemma JumpingClockBreaksQuiet(hash: Hash)
    requires Separates(hash)
    ensures exists arrivals :: Received(hash, arrivals) && !Quiet(Jumping, Run(Jumping, arrivals))
  {
    var r := NewCanMiss(Jumping, hash, 3, 9);
  }
}
