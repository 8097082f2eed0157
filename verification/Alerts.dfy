/** The map of alerts, and how a new alert cancels or is cancelled. */
module Alerts {
  import opened Numerals
  import opened SortedSets

  const MAX_INT := 0x7fff_ffff

  const COMPROMISED := "URGENT: Alert key compromised, upgrade required"

  datatype Alert = Alert(nExpiration: int, nID: int, nCancel: int, setCancel: set<int>, nMinVer: int, nMaxVer: int,
                         setSubVer: set<string>, nPriority: int, strStatusBar: string, vchMsg: seq<byte>)

  /** The adjusted time that each reading of the clock gives. */
  type Clock = nat -> int

  /** A clock that never goes back. */
  ghost predicate Steady(clock: Clock) {
    forall i: nat, j: nat :: i <= j ==> clock(i) <= clock(j)
  }

  predicate InEffect(a: Alert, time: int) {
    time < a.nExpiration
  }

  predicate Covers(n: Alert, a: Alert) {
    a.nID <= n.nCancel || a.nID in n.setCancel
  }

  predicate CancelsAt(n: Alert, a: Alert, time: int) {
    InEffect(n, time) && Covers(n, a)
  }

  /** The alert reserved for a compromised key must have one fixed form. */
  predicate Acceptable(n: Alert) {
    n.nID == MAX_INT ==>
      && n.nExpiration == MAX_INT && n.nCancel == MAX_INT - 1
      && n.nMinVer == 0 && n.nMaxVer == MAX_INT && n.setSubVer == {}
      && n.nPriority == MAX_INT && n.strStatusBar == COMPROMISED
  }

  datatype State = State(alerts: map<nat, Alert>, ticks: nat)

  const NOTHING := State(map[], 0)

  /** One round of the first loop: an alert that `n` cancels, or that has expired, goes. */
  function SweptOne(clock: Clock, n: Alert, k: nat, s: State): (s': State)
    requires k in s.alerts
  {
    if CancelsAt(n, s.alerts[k], clock(s.ticks)) then State(s.alerts - {k}, s.ticks + 1)
    else if !InEffect(s.alerts[k], clock(s.ticks + 1)) then State(s.alerts - {k}, s.ticks + 2)
    else s.(ticks := s.ticks + 2)
  }

  function Sweep(clock: Clock, n: Alert, keys: seq<nat>, s: State): (s': State)
    ensures s'.alerts.Keys <= s.alerts.Keys && s'.ticks >= s.ticks
    ensures forall k <- s'.alerts :: s'.alerts[k] == s.alerts[k]
  {
    if keys == [] || keys[0] !in s.alerts then s
    else Sweep(clock, n, keys[1..], SweptOne(clock, n, keys[0], s))
  }

  /** The second loop: whether an alert cancels `n`, and how often the clock has been read by then. */
  function Blocked(clock: Clock, n: Alert, keys: seq<nat>, s: State): (r: (bool, nat))
    ensures r.1 >= s.ticks
  {
    if keys == [] || keys[0] !in s.alerts then (false, s.ticks)
    else if CancelsAt(s.alerts[keys[0]], n, clock(s.ticks)) then (true, s.ticks + 1)
    else Blocked(clock, n, keys[1..], s.(ticks := s.ticks + 1))
  }

  /** The first loop over the whole map. */
  function Swept(clock: Clock, n: Alert, s: State): (s': State)
    ensures s'.alerts.Keys <= s.alerts.Keys && s'.ticks >= s.ticks
    ensures forall k <- s'.alerts :: s'.alerts[k] == s.alerts[k]
  {
    Sweep(clock, n, Sorted(s.alerts.Keys), s)
  }

  /** The second loop over the whole map. */
  function Cancelled(clock: Clock, n: Alert, s: State): (r: (bool, nat))
    ensures r.1 >= s.ticks
  {
    Blocked(clock, n, Sorted(s.alerts.Keys), s)
  }

  /** Insertion leaves an alert that is there already. */
  function Added(n: Alert, key: nat, s: State, ticks: nat): State {
    State(if key in s.alerts then s.alerts else s.alerts[key := n], ticks + 2)
  }

  /** ProcessAlert for an alert with hash `key`: the new state, and whether it is accepted. */
  function Process(clock: Clock, n: Alert, signed: bool, key: nat, s: State): (State, bool) {
    if !signed then (s, false) else
    var s0 := s.(ticks := s.ticks + 1);
    if !InEffect(n, clock(s.ticks)) || !Acceptable(n) then (s0, false) else
    var s1 := Swept(clock, n, s0);
    var r := Cancelled(clock, n, s1);
    if r.0 then (s1.(ticks := r.1), false) else (Added(n, key, s1, r.1), true)
  }

  // ----- no alert in the map cancels another -----

  /** From the next reading of the clock on, no alert in the map cancels a different one. */
  predicate Quiet(clock: Clock, s: State) {
    forall j <- s.alerts, k <- s.alerts :: j != k ==> !CancelsAt(s.alerts[j], s.alerts[k], clock(s.ticks))
  }

  lemma StaysCalm(clock: Clock, n: Alert, a: Alert, i: nat, j: nat)
    requires Steady(clock) && i <= j && !CancelsAt(n, a, clock(i))
    ensures !CancelsAt(n, a, clock(j))
  {
  }

  /** Once swept, no alert left is one that `n` cancels now or later. */
  lemma {:induction false} SweepCalms(clock: Clock, n: Alert, keys: seq<nat>, s: State)
    requires Steady(clock) && Ascending(keys) && (forall i :: 0 <= i < |keys| ==> keys[i] in s.alerts)
    ensures var s' := Sweep(clock, n, keys, s);
      forall i :: 0 <= i < |keys| && keys[i] in s'.alerts ==> !CancelsAt(n, s.alerts[keys[i]], clock(s'.ticks))
  {
    hide CancelsAt, Steady;
    if keys != [] {
      var k, s' := keys[0], Sweep(clock, n, keys, s);
      SweepCalms(clock, n, keys[1..], SweptOne(clock, n, k, s));
      forall i | 0 <= i < |keys| && keys[i] in s'.alerts ensures !CancelsAt(n, s.alerts[keys[i]], clock(s'.ticks)) {
        if i == 0 {
          StaysCalm(clock, n, s.alerts[k], s.ticks, s'.ticks);
        } else {
          assert keys[i] == keys[1..][i - 1];
        }
      }
    }
  }

  lemma {:induction false} NotBlockedCalms(clock: Clock, n: Alert, keys: seq<nat>, s: State)
    requires Steady(clock) && (forall i :: 0 <= i < |keys| ==> keys[i] in s.alerts) && !Blocked(clock, n, keys, s).0
    ensures forall i :: 0 <= i < |keys| ==> !CancelsAt(s.alerts[keys[i]], n, clock(Blocked(clock, n, keys, s).1))
  {
    hide CancelsAt, Steady;
    if keys != [] {
      var end := Blocked(clock, n, keys, s).1;
      NotBlockedCalms(clock, n, keys[1..], s.(ticks := s.ticks + 1));
      forall i | 0 <= i < |keys| ensures !CancelsAt(s.alerts[keys[i]], n, clock(end)) {
        if i == 0 {
          StaysCalm(clock, s.alerts[keys[0]], n, s.ticks, end);
        } else {
          assert keys[i] == keys[1..][i - 1];
        }
      }
    }
  }

  lemma FewerStayQuiet(clock: Clock, s: State, s': State)
    requires Steady(clock) && Quiet(clock, s) && s'.ticks >= s.ticks
    requires s'.alerts.Keys <= s.alerts.Keys && forall k <- s'.alerts :: s'.alerts[k] == s.alerts[k]
    ensures Quiet(clock, s')
  {
    hide CancelsAt, Steady;
    forall j <- s'.alerts, k <- s'.alerts | j != k ensures !CancelsAt(s'.alerts[j], s'.alerts[k], clock(s'.ticks)) {
      StaysCalm(clock, s.alerts[j], s.alerts[k], s.ticks, s'.ticks);
    }
  }

  lemma SweptCalms(clock: Clock, n: Alert, s: State)
    requires Steady(clock)
    ensures var s' := Swept(clock, n, s); forall k <- s'.alerts :: !CancelsAt(n, s'.alerts[k], clock(s'.ticks))
  {
    hide CancelsAt, Steady, Sweep, Sorted;
    var keys := Sorted(s.alerts.Keys);
    SweepCalms(clock, n, keys, s);
    forall k <- Swept(clock, n, s).alerts ensures k in keys {
      assert k in s.alerts.Keys;
    }
  }

  lemma NotCancelledCalms(clock: Clock, n: Alert, s: State)
    requires Steady(clock) && !Cancelled(clock, n, s).0
    ensures forall k <- s.alerts :: !CancelsAt(s.alerts[k], n, clock(Cancelled(clock, n, s).1))
  {
    hide CancelsAt, Steady, Blocked, Sorted;
    var keys := Sorted(s.alerts.Keys);
    NotBlockedCalms(clock, n, keys, s);
    forall k <- s.alerts ensures k in keys {
      assert k in s.alerts.Keys;
    }
  }

  /** Whether the alert is accepted or not, with a clock that never goes back the map stays quiet. */
  lemma ProcessKeepsQuiet(clock: Clock, n: Alert, signed: bool, key: nat, s: State)
    requires Steady(clock) && Quiet(clock, s)
    ensures Quiet(clock, Process(clock, n, signed, key, s).0)
  {
    hide CancelsAt, InEffect, Steady, Quiet, Swept, Cancelled, Added, Acceptable;
    if signed {
      var s0 := s.(ticks := s.ticks + 1);
      FewerStayQuiet(clock, s, s0);
      var s1 := Swept(clock, n, s0);
      var r := Cancelled(clock, n, s1);
      FewerStayQuiet(clock, s, s1.(ticks := r.1));
      if !r.0 {
        SweptCalms(clock, n, s0);
        NotCancelledCalms(clock, n, s1);
        AddedStaysQuiet(clock, n, key, s1, s1.ticks, r.1);
      }
    }
  }

  lemma AddedStaysQuiet(clock: Clock, n: Alert, key: nat, s: State, swept: nat, end: nat)
    requires Steady(clock) && Quiet(clock, s.(ticks := end)) && swept <= end
    requires forall k <- s.alerts :: !CancelsAt(n, s.alerts[k], clock(swept))
    requires forall k <- s.alerts :: !CancelsAt(s.alerts[k], n, clock(end))
    ensures Quiet(clock, Added(n, key, s, end))
  {
    hide CancelsAt, Steady;
    var s' := Added(n, key, s, end);
    forall j <- s'.alerts, k <- s'.alerts | j != k ensures !CancelsAt(s'.alerts[j], s'.alerts[k], clock(s'.ticks)) {
      if j !in s.alerts {
        StaysCalm(clock, n, s.alerts[k], swept, s'.ticks);
      } else {
        StaysCalm(clock, s.alerts[j], s'.alerts[k], end, s'.ticks);
      }
    }
  }

  datatype Arrival = Arrival(alert: Alert, signed: bool, key: nat)

  function Run(clock: Clock, arrivals: seq<Arrival>): State {
    if arrivals == [] then NOTHING else
    var last := arrivals[|arrivals| - 1];
    Process(clock, last.alert, last.signed, last.key, Run(clock, arrivals[..|arrivals| - 1])).0
  }

  /** In every state reached, no alert in the map cancels another one in the map. */
  lemma {:induction false} RunIsQuiet(clock: Clock, arrivals: seq<Arrival>)
    requires Steady(clock)
    ensures Quiet(clock, Run(clock, arrivals))
  {
    hide Process, Steady;
    if arrivals != [] {
      var last, before := arrivals[|arrivals| - 1], arrivals[..|arrivals| - 1];
      RunIsQuiet(clock, before);
      ProcessKeepsQuiet(clock, last.alert, last.signed, last.key, Run(clock, before));
    }
  }

  // ----- exactly what happens while the clock stands still -----

  ghost predicate Still(clock: Clock, time: int) {
    forall i: nat :: clock(i) == time
  }

  /** An alert that the new one leaves in the map. */
  predicate Survives(n: Alert, a: Alert, time: int) {
    InEffect(a, time) && !CancelsAt(n, a, time)
  }

  lemma SweptOneExactly(clock: Clock, n: Alert, k: nat, s: State, time: int)
    requires Still(clock, time) && k in s.alerts
    ensures var next := SweptOne(clock, n, k, s);
      forall x <- s.alerts :: x in next.alerts <==> (x != k || Survives(n, s.alerts[x], time))
  {
    hide CancelsAt, InEffect;
  }

  lemma {:induction false} SweepExactly(clock: Clock, n: Alert, keys: seq<nat>, s: State, time: int)
    requires Still(clock, time) && Ascending(keys) && (forall i :: 0 <= i < |keys| ==> keys[i] in s.alerts)
    ensures forall k <- s.alerts :: k in Sweep(clock, n, keys, s).alerts <==> (k in keys ==> Survives(n, s.alerts[k], time))
  {
    hide Still, Survives, SweptOne;
    if keys != [] {
      SweptOneExactly(clock, n, keys[0], s, time);
      SweptOneIs(clock, n, keys[0], s);
      SweepExactly(clock, n, keys[1..], SweptOne(clock, n, keys[0], s), time);
      assert keys == [keys[0]] + keys[1..];
    }
  }

  lemma SweptOneIs(clock: Clock, n: Alert, k: nat, s: State)
    requires k in s.alerts
    ensures forall x <- SweptOne(clock, n, k, s).alerts :: x in s.alerts && SweptOne(clock, n, k, s).alerts[x] == s.alerts[x]
  {
  }

  lemma {:induction false} BlockedExactly(clock: Clock, n: Alert, keys: seq<nat>, s: State, time: int)
    requires Still(clock, time) && (forall i :: 0 <= i < |keys| ==> keys[i] in s.alerts)
    ensures Blocked(clock, n, keys, s).0 <==> exists i :: 0 <= i < |keys| && CancelsAt(s.alerts[keys[i]], n, time)
  {
    hide CancelsAt;
    if keys != [] {
      BlockedExactly(clock, n, keys[1..], s.(ticks := s.ticks + 1), time);
      var b := Blocked(clock, n, keys[1..], s.(ticks := s.ticks + 1)).0;
      if b {
        var i :| 0 <= i < |keys| - 1 && CancelsAt(s.alerts[keys[1..][i]], n, time);
        assert keys[i + 1] == keys[1..][i];
      }
      forall i | 1 <= i < |keys| && CancelsAt(s.alerts[keys[i]], n, time) ensures b {
        assert keys[i] == keys[1..][i - 1];
      }
    }
  }

  lemma SweptExactly(clock: Clock, n: Alert, s: State, time: int)
    requires Still(clock, time)
    ensures forall k <- s.alerts :: k in Swept(clock, n, s).alerts <==> Survives(n, s.alerts[k], time)
  {
    hide Still, Survives, Sweep, Sorted;
    SweepExactly(clock, n, Sorted(s.alerts.Keys), s, time);
    assert forall k <- s.alerts :: k in s.alerts.Keys;
  }

  lemma CancelledExactly(clock: Clock, n: Alert, s: State, time: int)
    requires Still(clock, time)
    ensures Cancelled(clock, n, s).0 <==> exists k <- s.alerts :: CancelsAt(s.alerts[k], n, time)
  {
    hide Still, CancelsAt, Blocked, Sorted;
    var keys := Sorted(s.alerts.Keys);
    BlockedExactly(clock, n, keys, s, time);
    forall k <- s.alerts ensures k in keys {
      assert k in s.alerts.Keys;
    }
    forall i | 0 <= i < |keys| ensures keys[i] in s.alerts {
      assert keys[i] in keys;
    }
  }

  /** A signed alert is processed until it expires; with the largest id only in one fixed form. */
  predicate Ready(n: Alert, signed: bool, time: int) {
    && signed && time < n.nExpiration
    && (n.nID == 0x7fff_ffff ==>
          && n.nExpiration == 0x7fff_ffff && n.nCancel == 0x7fff_fffe
          && n.nMinVer == 0 && n.nMaxVer == 0x7fff_ffff && n.setSubVer == {}
          && n.nPriority == 0x7fff_ffff && n.strStatusBar == "URGENT: Alert key compromised, upgrade required")
  }

  /** What processing `n` leaves of the map: when it is ready, the alerts that have not expired, and
      whose ids it neither reaches with `nCancel` nor names in `setCancel`. */
  ghost predicate Leaves(n: Alert, ready: bool, s: State, time: int, k: nat) {
    k in s.alerts && (ready ==> time < s.alerts[k].nExpiration && s.alerts[k].nID > n.nCancel && s.alerts[k].nID !in n.setCancel)
  }

  lemma ReadyMeans(n: Alert, signed: bool, time: int)
    ensures Ready(n, signed, time) <==> signed && InEffect(n, time) && Acceptable(n)
  {
  }

  lemma LeavesSurvivors(n: Alert, s: State, time: int, k: nat)
    requires time < n.nExpiration
    ensures Leaves(n, true, s, time, k) <==> k in s.alerts && Survives(n, s.alerts[k], time)
  {
  }

  /** A ready alert removes exactly what it cancels and what has expired, and it is accepted
      exactly when no alert that remains reaches its id or names it. */
  lemma ProcessExactly(clock: Clock, n: Alert, signed: bool, key: nat, s: State, time: int)
    requires Still(clock, time)
    ensures var (s', accepted) := Process(clock, n, signed, key, s);
      var ready := Ready(n, signed, time);
      && (accepted <==> ready && forall k <- s.alerts :: Leaves(n, true, s, time, k) ==>
            s.alerts[k].nCancel < n.nID && n.nID !in s.alerts[k].setCancel)
      && (accepted ==> key in s'.alerts)
      && (forall k <- s'.alerts :: s'.alerts[k] == if Leaves(n, ready, s, time, k) then s.alerts[k] else n)
      && (forall k :: k != key || !accepted ==> (k in s'.alerts <==> Leaves(n, ready, s, time, k)))
  {
    hide Swept, Cancelled, Acceptable, Survives, Ready;
    ReadyMeans(n, signed, time);
    if signed {
      var s0 := s.(ticks := s.ticks + 1);
      SweptExactly(clock, n, s0, time);
      CancelledExactly(clock, n, Swept(clock, n, s0), time);
      if time < n.nExpiration {
        forall k ensures Leaves(n, true, s, time, k) <==> k in s.alerts && Survives(n, s.alerts[k], time) {
          LeavesSurvivors(n, s, time, k);
        }
      }
    }
  }

  /** Once the alert for a compromised key is accepted, only alerts like it are left. */
  lemma KeyAlertClears(clock: Clock, n: Alert, signed: bool, key: nat, s: State)
    requires Steady(clock) && n.nID == MAX_INT && forall k <- s.alerts :: s.alerts[k].nID <= MAX_INT
    requires Process(clock, n, signed, key, s).1 && clock(Process(clock, n, signed, key, s).0.ticks) < MAX_INT
    ensures forall k <- Process(clock, n, signed, key, s).0.alerts ::
      Process(clock, n, signed, key, s).0.alerts[k].nID == MAX_INT
  {
    hide Swept, Cancelled, CancelsAt, InEffect, Acceptable, Steady;
    var s0 := s.(ticks := s.ticks + 1);
    var s1 := Swept(clock, n, s0);
    SweptCalms(clock, n, s0);
    var s' := Process(clock, n, signed, key, s).0;
    forall k <- s1.alerts ensures s1.alerts[k].nID == MAX_INT {
      StaysCalm(clock, n, s1.alerts[k], s1.ticks, s'.ticks);
      OnlyLikeIt(n, s1.alerts[k], clock(s'.ticks));
    }
  }

  lemma OnlyLikeIt(n: Alert, a: Alert, time: int)
    requires n.nID == MAX_INT && Acceptable(n) && time < MAX_INT && a.nID <= MAX_INT && !CancelsAt(n, a, time)
    ensures a.nID == MAX_INT
  {
  }

  lemma SweepStep(clock: Clock, n: Alert, keys: seq<nat>, i: nat, s: State)
    requires i < |keys| && keys[i] in s.alerts
    ensures Sweep(clock, n, keys[i..], s) == Sweep(clock, n, keys[i + 1..], SweptOne(clock, n, keys[i], s))
  {
    hide SweptOne;
    assert keys[i..][0] == keys[i] && keys[i..][1..] == keys[i + 1..];
  }

  lemma OthersStay(clock: Clock, n: Alert, k: nat, s: State)
    requires k in s.alerts
    ensures forall x <- s.alerts :: x != k ==> x in SweptOne(clock, n, k, s).alerts
  {
  }

  lemma SweepEnd(clock: Clock, n: Alert, keys: seq<nat>, s: State)
    requires keys == []
    ensures Sweep(clock, n, keys, s) == s
  {
  }

  lemma BlockedStep(clock: Clock, n: Alert, keys: seq<nat>, i: nat, s: State)
    requires i < |keys| && keys[i] in s.alerts
    ensures Blocked(clock, n, keys[i..], s) ==
      if CancelsAt(s.alerts[keys[i]], n, clock(s.ticks)) then (true, s.ticks + 1)
      else Blocked(clock, n, keys[i + 1..], s.(ticks := s.ticks + 1))
  {
    hide CancelsAt;
    assert keys[i..][0] == keys[i] && keys[i..][1..] == keys[i + 1..];
  }

  lemma BlockedEnd(clock: Clock, n: Alert, keys: seq<nat>, s: State)
    requires keys == []
    ensures Blocked(clock, n, keys, s) == (false, s.ticks)
  {
  }

  // ----- the loops over the map -----

  class AlertMap {
    const clock: Clock
    const hash: seq<byte> -> nat
    var mapAlerts: map<nat, Alert>
    var ticks: nat

    constructor (clock: Clock, hash: seq<byte> -> nat)
      ensures this.clock == clock && this.hash == hash && Contents() == NOTHING
    {
      this.clock, this.hash := clock, hash;
      mapAlerts, ticks := map[], 0;
    }

    function Contents(): State
      reads this
    {
      State(mapAlerts, ticks)
    }

    /** Every call reads the clock once. */
    method IsInEffect(a: Alert) returns (r: bool)
      modifies this`ticks
      ensures ticks == old(ticks) + 1
      ensures r <==> clock(old(ticks)) < a.nExpiration
    {
      r := clock(ticks) < a.nExpiration;
      ticks := ticks + 1;
    }

    method Cancels(n: Alert, a: Alert) returns (r: bool)
      modifies this`ticks
      ensures ticks == old(ticks) + 1
      ensures r <==> clock(old(ticks)) < n.nExpiration && (a.nID <= n.nCancel || a.nID in n.setCancel)
    {
      var inEffect := IsInEffect(n);
      if !inEffect {
        return false;
      }
      return a.nID <= n.nCancel || a.nID in n.setCancel;
    }

    /** One round of the first loop. */
    method SweepOne(n: Alert, mi: nat)
      requires mi in mapAlerts
      modifies this
      ensures Contents() == SweptOne(clock, n, mi, old(Contents()))
    {
      var cancels := Cancels(n, mapAlerts[mi]);
      if cancels {
        mapAlerts := mapAlerts - {mi};
      } else {
        var inEffect := IsInEffect(mapAlerts[mi]);
        if !inEffect {
          mapAlerts := mapAlerts - {mi};
        }
      }
    }

    method CancelPrevious(n: Alert)
      modifies this
      ensures Contents() == Swept(clock, n, old(Contents()))
    {
      hide SweptOne, Sweep, Sorted;
      var keys := Sorted(mapAlerts.Keys);
      var i := 0;
      assert keys[0..] == keys;
      while i < |keys|
        invariant 0 <= i <= |keys|
        invariant forall j :: i <= j < |keys| ==> keys[j] in mapAlerts
        invariant Sweep(clock, n, keys[i..], Contents()) == Sweep(clock, n, keys, old(Contents()))
      {
        SweepStep(clock, n, keys, i, Contents());
        OthersStay(clock, n, keys[i], Contents());
        SweepOne(n, keys[i]);
        i := i + 1;
      }
      SweepEnd(clock, n, keys[i..], Contents());
    }

    method IsCancelled(n: Alert) returns (r: bool)
      modifies this`ticks
      ensures (r, ticks) == Cancelled(clock, n, old(Contents()))
    {
      hide Blocked, Sorted;
      var keys := Sorted(mapAlerts.Keys);
      var i := 0;
      assert keys[0..] == keys;
      while i < |keys|
        invariant 0 <= i <= |keys|
        invariant Blocked(clock, n, keys[i..], Contents()) == Blocked(clock, n, keys, old(Contents()))
      {
        assert keys[i] in keys;
        BlockedStep(clock, n, keys, i, Contents());
        var cancelled := Cancels(mapAlerts[keys[i]], n);
        if cancelled {
          return true;
        }
        i := i + 1;
      }
      BlockedEnd(clock, n, keys[i..], Contents());
      return false;
    }

    method ProcessAlert(n: Alert, signed: bool) returns (accepted: bool)
      modifies this
      ensures (Contents(), accepted) == Process(clock, n, signed, hash(n.vchMsg), old(Contents()))
    {
      hide CancelsAt, Swept, Cancelled;
      if !signed {
        return false;
      }
      var inEffect := IsInEffect(n);
      if !inEffect {
        return false;
      }
      if n.nID == MAX_INT {
        if !(n.nExpiration == MAX_INT && n.nCancel == MAX_INT - 1 && n.nMinVer == 0 && n.nMaxVer == MAX_INT
             && n.setSubVer == {} && n.nPriority == MAX_INT && n.strStatusBar == COMPROMISED) {
          return false;
        }
      }
      CancelPrevious(n);
      var blocked := IsCancelled(n);
      if blocked {
        return false;
      }
      var key := hash(n.vchMsg);
      if key !in mapAlerts {
        mapAlerts := mapAlerts[key := n];
      }
      // AppliesToMe, once for the notification and once for the log, reads the clock.
      var _ := IsInEffect(n);
      var _ := IsInEffect(n);
      return true;
    }
  }
}
