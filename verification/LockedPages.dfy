/** Locks on memory pages that stack, counted over operating-system locks that do not. */
module LockedPages {
  import opened Options
  import opened Numerals
  import opened BigNum

  /** A page size: a power of two, so that it divides the address space. */
  predicate PageSize(ps: nat) {
    0 < ps && WORD64 % ps == 0
  }

  /** Clearing the low bits of an address. */
  function PageOf(ps: nat, a: nat): (q: nat)
    requires 0 < ps
    ensures q <= a && q % ps == 0
  {
    DivSmallerOrZero(a, ps);
    a - a % ps
  }

  lemma DivSmallerOrZero(a: nat, ps: nat)
    requires 0 < ps
    ensures a % ps <= a && (a - a % ps) % ps == 0
  {
    assert a - a % ps == a / ps * ps + 0;
    DivOfMul(a / ps, ps, 0);
  }

  datatype Range = Range(base: nat, size: nat)

  function StartPage(ps: nat, r: Range): nat
    requires 0 < ps
  {
    PageOf(ps, r.base)
  }

  /** The page of the last byte; the sum wraps around like a size_t. */
  function EndPage(ps: nat, r: Range): (q: nat)
    requires 0 < ps && r.size > 0
    ensures q < WORD64
  {
    PageOf(ps, (r.base + r.size - 1) % WORD64)
  }

  /** The range does not reach the last page of the address space. */
  predicate Safe(ps: nat, r: Range)
    requires 0 < ps
  {
    r.base < WORD64 && (r.size > 0 ==> EndPage(ps, r) + ps < WORD64)
  }

  predicate Touches(ps: nat, r: Range, q: nat)
    requires 0 < ps
  {
    r.size > 0 && q % ps == 0 && StartPage(ps, r) <= q <= EndPage(ps, r)
  }

  lemma QuotientsOrdered(p: nat, d: nat, q: nat, e: nat, ps: nat)
    requires e < ps && p * ps + d <= q * ps + e
    ensures p <= q
  {
    if q < p {
      QuotientLess(q, p, ps, e);
    }
  }

  lemma PagesOrdered(ps: nat, a: nat, b: nat)
    requires 0 < ps && a <= b
    ensures PageOf(ps, a) <= PageOf(ps, b)
  {
    hide PageOf;
    var p, d := PageParts(ps, a);
    var q, e := PageParts(ps, b);
    QuotientsOrdered(p, d, q, e, ps);
    MulMono(p, q, ps);
  }

  lemma PageParts(ps: nat, a: nat) returns (p: nat, d: nat)
    requires 0 < ps
    ensures PageOf(ps, a) == p * ps && a == p * ps + d && d < ps
  {
    p, d := a / ps, a % ps;
  }

  /** The pages touched are the pages of the addresses in the range. */
  lemma TouchesMeans(ps: nat, r: Range, q: nat)
    requires 0 < ps && r.base + r.size <= WORD64
    ensures Touches(ps, r, q) <==> exists a: nat :: r.base <= a < r.base + r.size && PageOf(ps, a) == q
  {
    hide PageOf;
    if Touches(ps, r, q) {
      PageOfPage(ps, q);
      if q < r.base {
        PagesOrdered(ps, q, r.base);
        assert PageOf(ps, r.base) == q;
      } else {
        PageBelow(ps, r.base + r.size - 1);
        assert PageOf(ps, q) == q;
      }
    } else {
      forall a: nat | r.base <= a < r.base + r.size ensures PageOf(ps, a) != q {
        PagesOrdered(ps, r.base, a);
        PagesOrdered(ps, a, r.base + r.size - 1);
      }
    }
  }

  lemma PageOfPage(ps: nat, q: nat)
    requires 0 < ps && q % ps == 0
    ensures PageOf(ps, q) == q
  {
  }

  lemma PageBelow(ps: nat, a: nat)
    requires 0 < ps
    ensures PageOf(ps, a) <= a
  {
  }

  // ----- the loops end -----

  /** The page the loop has come to after `k` rounds, in an address space that wraps around. */
  function PageAt(ps: nat, start: nat, k: nat): nat {
    (start + k * ps) % WORD64
  }

  lemma PageAtParts(ps: nat, n: nat, a: nat, k: nat)
    requires 0 < n && n * ps == WORD64
    ensures PageAt(ps, a * ps, k) == (a + k) % n * ps && ((a + k) % n + 1) * ps <= WORD64
  {
    var q, r := (a + k) / n, (a + k) % n;
    assert a + k == q * n + r;
    MulMono(r + 1, n, ps);
    PartsOf(ps, n, a, k, q, r);
  }

  lemma PartsOf(ps: nat, n: nat, a: nat, k: nat, q: nat, r: nat)
    requires 0 < n && n * ps == WORD64 && a + k == q * n + r && r < n && 0 < ps
    ensures (a * ps + k * ps) % WORD64 == r * ps
  {
    assert a * ps + k * ps == (a + k) * ps == (q * n + r) * ps == q * (n * ps) + r * ps;
    QuotientLess(r, n, ps, 0);
    DivOfMul(q, WORD64, r * ps);
  }

  lemma PageAtIsPage(ps: nat, start: nat, k: nat)
    requires PageSize(ps) && start % ps == 0
    ensures PageAt(ps, start, k) % ps == 0
    ensures PageAt(ps, start, k) <= WORD64 - ps
  {
    hide PageAt;
    var n, a := WORD64 / ps, start / ps;
    assert WORD64 == n * ps && start == a * ps;
    PageAtParts(ps, n, a, k);
    var r := (a + k) % n;
    DivOfMul(r, ps, 0);
    assert (r + 1) * ps == r * ps + ps;
  }

  lemma BelowLast(ps: nat, x: nat)
    requires PageSize(ps) && x % ps == 0 && x < WORD64
    ensures x + ps <= WORD64
  {
    var n, a := WORD64 / ps, x / ps;
    assert WORD64 == n * ps + 0 && x == a * ps + 0 && (a + 1) * ps == a * ps + ps;
    if a >= n {
      MulMono(n, a, ps);
    } else {
      MulMono(a + 1, n, ps);
    }
  }

  lemma LastPage(ps: nat, start: nat) returns (k: nat)
    requires PageSize(ps) && start % ps == 0 && start + ps <= WORD64
    ensures PageAt(ps, start, k) == WORD64 - ps
  {
    var n, a := WORD64 / ps, start / ps;
    assert WORD64 == n * ps && start == a * ps && (a + 1) * ps == a * ps + ps;
    QuotientsOrdered(a + 1, 0, n, 0, ps);
    k := n - 1 - a;
    assert k * ps == (n - 1 - a) * ps == n * ps - (a + 1) * ps;
  }

  /** The loop over the pages ends exactly when its last page is not the last of the address space. */
  lemma LoopEnds(ps: nat, start: nat, end: nat)
    requires PageSize(ps) && start % ps == 0 && end % ps == 0 && start < WORD64 && end < WORD64
    ensures (exists k :: PageAt(ps, start, k) > end) <==> end + ps < WORD64
  {
    hide PageAt, PageSize;
    BelowLast(ps, start);
    BelowLast(ps, end);
    if end + ps < WORD64 {
      var k := LastPage(ps, start);
      assert PageAt(ps, start, k) > end;
    } else {
      forall k ensures PageAt(ps, start, k) <= end {
        PageAtIsPage(ps, start, k);
      }
    }
  }

  // ----- counts and calls -----

  datatype Call = Lock(page: nat) | Unlock(page: nat)

  /** The pages the operating system holds after these calls: its locks do not stack. */
  function Held(calls: seq<Call>): set<nat> {
    if calls == [] then {} else
    var before, c := Held(calls[..|calls| - 1]), calls[|calls| - 1];
    if c.Lock? then before + {c.page} else before - {c.page}
  }

  /** No page is locked while it is held, or unlocked while it is not. */
  predicate Alternates(calls: seq<Call>) {
    calls == [] || (
      var before, c := calls[..|calls| - 1], calls[|calls| - 1];
      Alternates(before) && (c.Lock? <==> c.page !in Held(before)))
  }

  lemma OneMoreCall(calls: seq<Call>, c: Call)
    ensures Held(calls + [c]) == if c.Lock? then Held(calls) + {c.page} else Held(calls) - {c.page}
    ensures Alternates(calls + [c]) <==> Alternates(calls) && (c.Lock? <==> c.page !in Held(calls))
  {
    assert (calls + [c])[..|calls|] == calls;
  }

  datatype State = State(counts: map<nat, int>, calls: seq<Call>) {
    predicate Valid() {
      && (forall q <- counts :: counts[q] > 0)
      && Held(calls) == counts.Keys
      && Alternates(calls)
    }

    function Count(q: nat): int {
      if q in counts then counts[q] else 0
    }
  }

  const NOTHING := State(map[], [])

  function LockPage(s: State, q: nat): State {
    if q !in s.counts then State(s.counts[q := 1], s.calls + [Lock(q)])
    else State(s.counts[q := s.counts[q] + 1], s.calls)
  }

  /** None when the page is not locked: the assertion fails. */
  function UnlockPage(s: State, q: nat): Option<State> {
    if q !in s.counts then None else
    var n := s.counts[q] - 1;
    Some(if n == 0 then State(s.counts - {q}, s.calls + [Unlock(q)]) else State(s.counts[q := n], s.calls))
  }

  function LockPages(s: State, ps: nat, page: nat, end: nat): State
    requires 0 < ps
    decreases if page <= end then end - page + 1 else 0
  {
    if page > end then s else LockPages(LockPage(s, page), ps, page + ps, end)
  }

  function UnlockPages(s: State, ps: nat, page: nat, end: nat): Option<State>
    requires 0 < ps
    decreases if page <= end then end - page + 1 else 0
  {
    if page > end then Some(s) else
    match UnlockPage(s, page)
    case None => None
    case Some(s') => UnlockPages(s', ps, page + ps, end)
  }

  function AfterLock(s: State, ps: nat, r: Range): State
    requires 0 < ps
  {
    if r.size == 0 then s else LockPages(s, ps, StartPage(ps, r), EndPage(ps, r))
  }

  function AfterUnlock(s: State, ps: nat, r: Range): Option<State>
    requires 0 < ps
  {
    if r.size == 0 then Some(s) else UnlockPages(s, ps, StartPage(ps, r), EndPage(ps, r))
  }

  // ----- what locking and unlocking do to the counts -----

  predicate Between(ps: nat, page: nat, end: nat, q: nat)
    requires 0 < ps
  {
    q % ps == 0 && page <= q <= end
  }

  function One(b: bool): int {
    if b then 1 else 0
  }

  lemma NextPage(ps: nat, page: nat, end: nat, q: nat)
    requires 0 < ps && page % ps == 0 && page <= end
    ensures (page + ps) % ps == 0
    ensures Between(ps, page, end, q) <==> q == page || Between(ps, page + ps, end, q)
    ensures !Between(ps, page + ps, end, page)
  {
    var a, b := page / ps, q / ps;
    assert page == a * ps && (a + 1) * ps == a * ps + ps;
    DivOfMul(a + 1, ps, 0);
    if q % ps == 0 && page < q {
      assert q == b * ps;
      QuotientsOrdered(a, 0, b, 0, ps);
      MulMono(a + 1, b, ps);
    }
  }

  lemma LockPageCounts(s: State, q: nat)
    requires s.Valid()
    ensures var s' := LockPage(s, q); s'.Valid() && forall p :: s'.Count(p) == s.Count(p) + One(p == q)
  {
    OneMoreCall(s.calls, Lock(q));
  }

  lemma UnlockPageCounts(s: State, q: nat)
    requires s.Valid()
    ensures UnlockPage(s, q).Some? <==> s.Count(q) > 0
    ensures s.Count(q) > 0 ==>
      var s' := UnlockPage(s, q).value; s'.Valid() && forall p :: s'.Count(p) == s.Count(p) - One(p == q)
  {
    OneMoreCall(s.calls, Unlock(q));
  }

  lemma {:induction false} LockPagesCounts(s: State, ps: nat, page: nat, end: nat)
    requires s.Valid() && 0 < ps && page % ps == 0
    ensures var s' := LockPages(s, ps, page, end);
      s'.Valid() && forall q :: s'.Count(q) == s.Count(q) + One(Between(ps, page, end, q))
    decreases if page <= end then end - page + 1 else 0
  {
    hide LockPage, State.Count, State.Valid;
    if page <= end {
      LockPageCounts(s, page);
      NextPage(ps, page, end, page);
      LockPagesCounts(LockPage(s, page), ps, page + ps, end);
      forall q ensures One(Between(ps, page, end, q)) == One(q == page) + One(Between(ps, page + ps, end, q)) {
        NextPage(ps, page, end, q);
      }
    }
  }

  lemma {:induction false} UnlockPagesCounts(s: State, ps: nat, page: nat, end: nat)
    requires s.Valid() && 0 < ps && page % ps == 0
    ensures UnlockPages(s, ps, page, end).Some? <==> forall q :: Between(ps, page, end, q) ==> s.Count(q) > 0
    ensures UnlockPages(s, ps, page, end).Some? ==>
      var s' := UnlockPages(s, ps, page, end).value;
      s'.Valid() && forall q :: s'.Count(q) == s.Count(q) - One(Between(ps, page, end, q))
    decreases if page <= end then end - page + 1 else 0
  {
    hide UnlockPage, State.Count, State.Valid;
    if page <= end {
      UnlockPageCounts(s, page);
      NextPage(ps, page, end, page);
      forall q ensures Between(ps, page, end, q) <==> q == page || Between(ps, page + ps, end, q) {
        NextPage(ps, page, end, q);
      }
      if s.Count(page) > 0 {
        UnlockPagesCounts(UnlockPage(s, page).value, ps, page + ps, end);
      } else {
        assert Between(ps, page, end, page);
      }
    }
  }

  // ----- runs: what is counted are the ranges outstanding -----

  /** How many of these ranges touch the page. */
  function Touching(ps: nat, live: seq<Range>, q: nat): int
    requires 0 < ps
  {
    if live == [] then 0
    else Touching(ps, live[..|live| - 1], q) + One(Touches(ps, live[|live| - 1], q))
  }

  lemma TouchingOneMore(ps: nat, live: seq<Range>, r: Range, q: nat)
    requires 0 < ps
    ensures Touching(ps, live + [r], q) == Touching(ps, live, q) + One(Touches(ps, r, q))
  {
    assert (live + [r])[..|live|] == live;
  }

  /** The ranges without the latest that equals `r`. */
  function Without(live: seq<Range>, r: Range): (rest: seq<Range>)
    requires r in live
    ensures multiset(rest) == multiset(live) - multiset{r}
  {
    var last, before := live[|live| - 1], live[..|live| - 1];
    assert live == before + [last];
    if last == r then before else Without(before, r) + [last]
  }

  lemma {:induction false} TouchingOneLess(ps: nat, live: seq<Range>, r: Range, q: nat)
    requires 0 < ps && r in live
    ensures Touching(ps, Without(live, r), q) == Touching(ps, live, q) - One(Touches(ps, r, q))
  {
    var last, before := live[|live| - 1], live[..|live| - 1];
    if last != r {
      TouchingOneLess(ps, before, r, q);
      TouchingOneMore(ps, Without(before, r), last, q);
    }
  }

  datatype Op = LockOp(r: Range) | UnlockOp(r: Range)

  /** The ranges still locked after these calls; None when one unlocks what is not locked. */
  function Live(ops: seq<Op>): Option<seq<Range>> {
    if ops == [] then Some([]) else
    var op := ops[|ops| - 1];
    match Live(ops[..|ops| - 1])
    case None => None
    case Some(live) =>
      if op.LockOp? then Some(live + [op.r])
      else if op.r in live then Some(Without(live, op.r))
      else None
  }

  /** The state after these calls; None when an assertion fails.  Where a range is not Safe the
      pages up to its end are handled once; the code does not return from such a call, so those
      are not runs of it. */
  function Run(ps: nat, ops: seq<Op>): Option<State>
    requires 0 < ps
  {
    if ops == [] then Some(NOTHING) else
    var op := ops[|ops| - 1];
    match Run(ps, ops[..|ops| - 1])
    case None => None
    case Some(s) => if op.LockOp? then Some(AfterLock(s, ps, op.r)) else AfterUnlock(s, ps, op.r)
  }

  /** Every count is the number of outstanding ranges that touch the page. */
  ghost predicate Counted(ps: nat, s: State, live: seq<Range>)
    requires 0 < ps
  {
    s.Valid() && forall q :: s.Count(q) == Touching(ps, live, q)
  }

  lemma LockKeepsCounted(ps: nat, s: State, live: seq<Range>, r: Range)
    requires 0 < ps && Counted(ps, s, live)
    ensures Counted(ps, AfterLock(s, ps, r), live + [r])
  {
    hide State.Count, State.Valid, Touching;
    if r.size > 0 {
      LockPagesCounts(s, ps, StartPage(ps, r), EndPage(ps, r));
    }
    var s' := AfterLock(s, ps, r);
    forall q ensures s'.Count(q) == Touching(ps, live + [r], q) {
      TouchingOneMore(ps, live, r, q);
    }
  }

  lemma {:induction false} TouchedIsCounted(ps: nat, live: seq<Range>, r: Range, q: nat)
    requires 0 < ps && r in live && Touches(ps, r, q)
    ensures Touching(ps, live, q) > 0
  {
    TouchingOneLess(ps, live, r, q);
    TouchingIsNat(ps, Without(live, r), q);
  }

  lemma TouchingIsNat(ps: nat, live: seq<Range>, q: nat)
    requires 0 < ps
    ensures Touching(ps, live, q) >= 0
  {
  }

  lemma UnlockKeepsCounted(ps: nat, s: State, live: seq<Range>, r: Range)
    requires 0 < ps && Counted(ps, s, live) && r in live
    ensures AfterUnlock(s, ps, r).Some? && Counted(ps, AfterUnlock(s, ps, r).value, Without(live, r))
  {
    hide State.Count, State.Valid, Touching, Without;
    if r.size > 0 {
      forall q | Between(ps, StartPage(ps, r), EndPage(ps, r), q) ensures s.Count(q) > 0 {
        TouchedIsCounted(ps, live, r, q);
      }
      UnlockPagesCounts(s, ps, StartPage(ps, r), EndPage(ps, r));
    }
    var s' := AfterUnlock(s, ps, r).value;
    forall q ensures s'.Count(q) == Touching(ps, Without(live, r), q) {
      TouchingOneLess(ps, live, r, q);
    }
  }

  /** Over any run in which every unlock matches an outstanding lock no assertion fails, and
      each page is counted once for every outstanding range that touches it. */
  lemma {:induction false} RunCounts(ps: nat, ops: seq<Op>)
    requires 0 < ps && Live(ops).Some?
    ensures Run(ps, ops).Some? && Counted(ps, Run(ps, ops).value, Live(ops).value)
  {
    hide AfterLock, AfterUnlock, Touching, State.Count, Without, Counted;
    if ops == [] {
      NothingCounted(ps);
    } else {
      var before, op := ops[..|ops| - 1], ops[|ops| - 1];
      RunCounts(ps, before);
      var s, live := Run(ps, before).value, Live(before).value;
      if op.LockOp? {
        LockKeepsCounted(ps, s, live, op.r);
      } else {
        UnlockKeepsCounted(ps, s, live, op.r);
      }
    }
  }

  lemma NothingCounted(ps: nat)
    requires 0 < ps
    ensures Counted(ps, NOTHING, [])
  {
  }

  /** The operating system holds a page exactly when an outstanding range touches it, and is
      never asked to lock a page it holds or to unlock one it does not. */
  lemma HeldExactly(ps: nat, ops: seq<Op>, q: nat)
    requires 0 < ps && Live(ops).Some?
    ensures Run(ps, ops).Some? && Alternates(Run(ps, ops).value.calls)
    ensures q in Held(Run(ps, ops).value.calls) <==> exists r <- Live(ops).value :: Touches(ps, r, q)
  {
    hide Run, Live, Touches;
    RunCounts(ps, ops);
    TouchedByOne(ps, Live(ops).value, q);
  }

  lemma {:induction false} TouchedByOne(ps: nat, live: seq<Range>, q: nat)
    requires 0 < ps
    ensures Touching(ps, live, q) > 0 <==> exists r <- live :: Touches(ps, r, q)
  {
    hide Touches;
    TouchingIsNat(ps, live, q);
    if live != [] {
      var before, last := live[..|live| - 1], live[|live| - 1];
      assert live == before + [last];
      TouchedByOne(ps, before, q);
      TouchingIsNat(ps, before, q);
    }
  }

  /** The ranges locked, and those unlocked. */
  function Ranges(ops: seq<Op>, locks: bool): multiset<Range> {
    if ops == [] then multiset{} else
    var op := ops[|ops| - 1];
    Ranges(ops[..|ops| - 1], locks) + if op.LockOp? == locks then multiset{op.r} else multiset{}
  }

  lemma {:induction false} LiveIsDifference(ops: seq<Op>)
    requires Live(ops).Some?
    ensures Ranges(ops, false) <= Ranges(ops, true)
    ensures multiset(Live(ops).value) == Ranges(ops, true) - Ranges(ops, false)
  {
    hide Without, Live, Ranges;
    if ops == [] {
      NoRanges();
    } else {
      var before, op := ops[..|ops| - 1], ops[|ops| - 1];
      assert ops == before + [op];
      LastOp(before, op);
      LiveIsDifference(before);
      if op.UnlockOp? {
        OneLessInBoth(Ranges(before, true), Ranges(before, false), multiset(Live(before).value), op.r);
      } else {
        OneMoreInBoth(Ranges(before, true), Ranges(before, false), multiset(Live(before).value), op.r);
      }
    }
  }

  lemma NoRanges()
    ensures Live([]) == Some([]) && Ranges([], true) == Ranges([], false) == multiset{}
  {
  }

  lemma LastOp(before: seq<Op>, op: Op)
    ensures Live(before + [op]).Some? ==> Live(before).Some? && (op.UnlockOp? ==> op.r in Live(before).value)
    ensures Live(before + [op]).Some? ==> (multiset(Live(before + [op]).value) ==
      if op.LockOp? then multiset(Live(before).value) + multiset{op.r} else multiset(Live(before).value) - multiset{op.r})
    ensures Ranges(before + [op], true) == Ranges(before, true) + if op.LockOp? then multiset{op.r} else multiset{}
    ensures Ranges(before + [op], false) == Ranges(before, false) + if op.LockOp? then multiset{} else multiset{op.r}
  {
    hide Without;
    assert (before + [op])[..|before|] == before;
  }

  lemma OneMoreInBoth(a: multiset<Range>, b: multiset<Range>, c: multiset<Range>, r: Range)
    requires b <= a && c == a - b
    ensures b <= a + multiset{r} && c + multiset{r} == (a + multiset{r}) - b
  {
  }

  lemma OneLessInBoth(a: multiset<Range>, b: multiset<Range>, c: multiset<Range>, r: Range)
    requires b <= a && c == a - b && r in c
    ensures b + multiset{r} <= a && c - multiset{r} == a - (b + multiset{r})
  {
  }

  /** Once everything locked has been unlocked, in whatever order, no page is counted or held. */
  lemma ReleasedIsEmpty(ps: nat, ops: seq<Op>)
    requires 0 < ps && Live(ops).Some? && Ranges(ops, true) == Ranges(ops, false)
    ensures Run(ps, ops).Some? && Run(ps, ops).value.counts == map[] && Held(Run(ps, ops).value.calls) == {}
  {
    hide Run, Live, Ranges;
    RunCounts(ps, ops);
    LiveIsDifference(ops);
    var live, s := Live(ops).value, Run(ps, ops).value;
    assert |multiset(live)| == 0;
    forall q ensures q !in s.counts {
      assert s.Count(q) == 0;
    }
  }

  // ----- the class -----

  class LockedPageManagerBase {
    const pageSize: nat
    var histogram: map<nat, int>
    /** What the locker has been asked to do. */
    var locker: seq<Call>

    constructor (pageSize: nat)
      requires PageSize(pageSize)
      ensures this.pageSize == pageSize && Contents() == NOTHING
    {
      this.pageSize := pageSize;
      histogram, locker := map[], [];
    }

    function Contents(): State
      reads this
    {
      State(histogram, locker)
    }

    /** A range that reaches the last page of the address space would keep the loop going for ever. */
    method LockRange(p: nat, size: nat)
      requires PageSize(pageSize) && Safe(pageSize, Range(p, size))
      modifies this
      ensures Contents() == AfterLock(old(Contents()), pageSize, Range(p, size))
    {
      hide PageOf, Held, Alternates;
      if size == 0 {
        return;
      }
      var startPage := PageOf(pageSize, p);
      var endPage := PageOf(pageSize, (p + size - 1) % WORD64);
      var page := startPage;
      while page <= endPage
        invariant LockPages(Contents(), pageSize, page, endPage) == LockPages(old(Contents()), pageSize, startPage, endPage)
        decreases if page <= endPage then endPage - page + 1 else 0
      {
        if page !in histogram {
          locker := locker + [Lock(page)];
          histogram := histogram[page := 1];
        } else {
          histogram := histogram[page := histogram[page] + 1];
        }
        NoWrap(page, endPage, pageSize);
        page := (page + pageSize) % WORD64;
      }
    }

    /** Unlocking asks that every page of the range is locked. */
    method UnlockRange(p: nat, size: nat)
      requires PageSize(pageSize) && Safe(pageSize, Range(p, size))
      requires AfterUnlock(Contents(), pageSize, Range(p, size)).Some?
      modifies this
      ensures Some(Contents()) == AfterUnlock(old(Contents()), pageSize, Range(p, size))
    {
      hide PageOf, Held, Alternates, UnlockPages;
      if size == 0 {
        return;
      }
      var startPage := PageOf(pageSize, p);
      var endPage := PageOf(pageSize, (p + size - 1) % WORD64);
      var page := startPage;
      while page <= endPage
        invariant UnlockPages(Contents(), pageSize, page, endPage) == UnlockPages(old(Contents()), pageSize, startPage, endPage)
        decreases if page <= endPage then endPage - page + 1 else 0
      {
        ghost var s := Contents();
        UnlockStep(s, pageSize, page, endPage);
        histogram := histogram[page := histogram[page] - 1];
        if histogram[page] == 0 {
          locker := locker + [Unlock(page)];
          histogram := histogram - {page};
          assert histogram == s.counts - {page};
        }
        assert UnlockPage(s, page) == Some(Contents());
        NoWrap(page, endPage, pageSize);
        page := (page + pageSize) % WORD64;
      }
      NoneLeft(Contents(), pageSize, page, endPage);
    }

    /** In a state that counts the outstanding ranges, the number of pages they touch. */
    method GetLockedPageCount() returns (n: nat)
      requires Contents().Valid()
      ensures n == |Held(locker)|
    {
      n := |histogram|;
    }
  }

  lemma UnlockStep(s: State, ps: nat, page: nat, end: nat)
    requires 0 < ps && page <= end && UnlockPages(s, ps, page, end).Some?
    ensures page in s.counts && UnlockPage(s, page).Some?
    ensures UnlockPages(s, ps, page, end) == UnlockPages(UnlockPage(s, page).value, ps, page + ps, end)
  {
  }

  lemma NoneLeft(s: State, ps: nat, page: nat, end: nat)
    requires 0 < ps && page > end
    ensures UnlockPages(s, ps, page, end) == Some(s)
  {
  }

  lemma NoWrap(page: nat, endPage: nat, ps: nat)
    requires page <= endPage && endPage + ps < WORD64
    ensures (page + ps) % WORD64 == page + ps
  {
  }
}
