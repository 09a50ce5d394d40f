/**
 The schedule of one record: when `query::thisRecord` lets it act, as a function on values,
 and what that means over whole runs of polls.
 */
module Schedule {
  import opened Basics

  /** What scheduling a record depends on. `srq` says that it waits for a service request. */
  datatype Sched = Sched(first: TimeT, last: TimeT, nextRuntime: TimeT, period: TimeT, number: int, srq: bool)

  /** One call of `thisRecord`: the clock sample of the pass and whether `srqReq` is set. */
  datatype Poll = Poll(now: TimeT, req: bool)

  predicate Arms(s: Sched, now: TimeT) {
    s.nextRuntime == 0 && s.first < now
  }

  /** The time for which an unarmed record arms itself, otherwise the slot it waits for. */
  function Slot(s: Sched, now: TimeT): TimeT {
    if !Arms(s, now) then s.nextRuntime else if s.first == 0 then now else s.first
  }

  /** The clock alone makes the record act. */
  predicate Timed(s: Sched, now: TimeT) {
    0 < s.nextRuntime < now && !s.srq && (s.last == 0 || now <= s.last)
  }

  predicate Fires(s: Sched, p: Poll) {
    (Timed(s, p.now) || p.req) && s.number != 0
  }

  function Step(s: Sched, p: Poll): Sched {
    var slot := Slot(s, p.now);
    if !Fires(s, p) then
      s.(nextRuntime := slot)
    else
      s.(nextRuntime := if s.period == 0 then slot else AddTime(if slot == 0 then p.now else slot, s.period),
         number := if s.number > 0 then s.number - 1 else s.number)
  }

  /** `query::finished`, which answers whether the record wants the main loop to go on. */
  predicate Continues(s: Sched, now: TimeT) {
    if s.last != 0 then s.last > now else s.number == -1 || s.number > 0
  }

  function Before(polls: seq<Poll>): seq<Poll>
    requires polls != []
  {
    polls[..|polls| - 1]
  }

  function Latest(polls: seq<Poll>): Poll
    requires polls != []
  {
    polls[|polls| - 1]
  }

  /** The record after a run of polls. */
  function After(s: Sched, polls: seq<Poll>): Sched {
    if polls == [] then s else Step(After(s, Before(polls)), Latest(polls))
  }

  /** How often the record acted during a run of polls. */
  function Firings(s: Sched, polls: seq<Poll>): nat {
    if polls == [] then 0 else
    Firings(s, Before(polls)) + if Fires(After(s, Before(polls)), Latest(polls)) then 1 else 0
  }

  // ---------------------------------------------------------------- the slot counter

  /** The number of slots anchor, anchor + period, anchor + 2 * period, ... that lie before `now`. */
  function Slots(anchor: int, period: int, now: int): nat
    requires period > 0
  {
    if now <= anchor then 0 else (now - anchor - 1) / period + 1
  }

  lemma SlotsCounts(anchor: int, period: int, now: int, k: nat)
    requires period > 0
    ensures k < Slots(anchor, period, now) <==> anchor + k * period < now
  {
    if now <= anchor {
      Scaled(0, k, period);
    } else {
      var d := now - anchor - 1;
      var q := d / period;
      DivisionLaw(d, period);
      GridArithmetic(q, period);
      if k <= q {
        Scaled(k, q, period);
      } else {
        Scaled(q + 1, k, period);
      }
    }
  }

  lemma {:induction false} Scaled(x: int, y: int, p: nat)
    requires x <= y
    ensures x * p <= y * p
  {
    assert (y - x) * p >= 0;
  }

  lemma {:induction false} DivisionLaw(d: nat, p: nat)
    requires p > 0
    ensures d == d / p * p + d % p && 0 <= d % p < p && d / p >= 0
  {
  }

  lemma SlotsMonotone(anchor: int, period: int, t0: int, t1: int)
    requires period > 0 && t0 <= t1
    ensures Slots(anchor, period, t0) <= Slots(anchor, period, t1)
  {
    var n := Slots(anchor, period, t0);
    if n > 0 {
      SlotsCounts(anchor, period, t0, n - 1);
      SlotsCounts(anchor, period, t1, n - 1);
    }
  }

  /** A timed record that waits for its first slot, `s.nextRuntime`. */
  predicate Armed(s: Sched) {
    s.nextRuntime > 0 && s.period > 0 && !s.srq
  }

  /** No poll of the run carries a request, and the clock stays a period below the wrap of `timeT`. */
  predicate Quiet(period: TimeT, polls: seq<Poll>) {
    forall i :: 0 <= i < |polls| ==> !polls[i].req && polls[i].now + period <= TIME_MODULUS
  }

  predicate Ordered(polls: seq<Poll>) {
    forall i, j :: 0 <= i < j < |polls| ==> polls[i].now <= polls[j].now
  }

  /** The `-n` limit; a negative number is no limit. */
  function Limit(number: int, n: int): int {
    if number < 0 then n else Min(number, n)
  }

  lemma StepArmed(s: Sched, p: Poll)
    requires Armed(s) && !p.req && p.now + s.period <= TIME_MODULUS
    ensures Fires(s, p) ==> s.nextRuntime + s.period < TIME_MODULUS
    ensures Step(s, p) == if !Fires(s, p) then s else
                          s.(nextRuntime := s.nextRuntime + s.period, number := if s.number > 0 then s.number - 1 else s.number)
  {
  }

  /** Every slot lies on the grid that the anchor fixes: lateness never shifts it. */
  lemma {:induction false} DriftFree(s: Sched, polls: seq<Poll>)
    requires Armed(s) && Quiet(s.period, polls)
    ensures After(s, polls).nextRuntime == s.nextRuntime + Firings(s, polls) * s.period
    ensures After(s, polls).number == if s.number < 0 then s.number else s.number - Firings(s, polls)
    ensures s.number >= 0 ==> Firings(s, polls) <= s.number
    ensures After(s, polls) == s.(nextRuntime := After(s, polls).nextRuntime, number := After(s, polls).number)
  {
    if polls != [] {
      var b := Before(polls);
      DriftFree(s, b);
      GridArithmetic(Firings(s, b), s.period);
      StepArmed(After(s, b), Latest(polls));
    }
  }

  lemma GridArithmetic(f: nat, period: nat)
    ensures f * period >= 0
    ensures (f + 1) * period == f * period + period
  {
  }

  /** One more poll fires exactly when a slot has passed unused, the limit is not reached and `last` has not passed. */
  lemma {:induction false} FiringStep(s: Sched, polls: seq<Poll>)
    requires polls != [] && Armed(s) && Quiet(s.period, polls)
    ensures
      var f := Firings(s, Before(polls));
      var now := Latest(polls).now;
      Firings(s, polls) == if f < Slots(s.nextRuntime, s.period, now) && f != s.number && (s.last == 0 || now <= s.last)
                           then f + 1 else f
  {
    hide Slots, After, Step;
    DriftFree(s, Before(polls));
    SlotsCounts(s.nextRuntime, s.period, Latest(polls).now, Firings(s, Before(polls)));
  }

  /** No slot is used before its time: the k-th firing of a run needs a poll after slot k. */
  lemma {:induction false} NeverEarly(s: Sched, polls: seq<Poll>)
    requires polls != [] && Armed(s) && Quiet(s.period, polls) && Ordered(polls)
    ensures Firings(s, polls) <= Slots(s.nextRuntime, s.period, Latest(polls).now)
  {
    FiringStep(s, polls);
    if |polls| > 1 {
      NeverEarly(s, Before(polls));
      SlotsMonotone(s.nextRuntime, s.period, Latest(Before(polls)).now, Latest(polls).now);
    } else {
      assert Firings(s, Before(polls)) == 0;
    }
  }

  /** `last` does not stop any of these polls. */
  predicate InTime(s: Sched, polls: seq<Poll>) {
    forall i :: 0 <= i < |polls| ==> s.last == 0 || polls[i].now <= s.last
  }

  /** The firing count refines a saturating slot counter. */
  lemma {:induction false} RefinesSlotCounter(s: Sched, polls: seq<Poll>)
    requires polls != [] && Armed(s) && Quiet(s.period, polls) && Ordered(polls) && InTime(s, polls)
    ensures Firings(s, polls) ==
            Limit(s.number, Min(Firings(s, Before(polls)) + 1, Slots(s.nextRuntime, s.period, Latest(polls).now)))
  {
    FiringStep(s, polls);
    DriftFree(s, Before(polls));
    if |polls| > 1 {
      NeverEarly(s, Before(polls));
      SlotsMonotone(s.nextRuntime, s.period, Latest(Before(polls)).now, Latest(polls).now);
    } else {
      assert Firings(s, Before(polls)) == 0;
    }
  }

  /** What poll `j` allows at the end of the run: the slots that have passed by then and one for each later poll. */
  function Allowance(s: Sched, polls: seq<Poll>, j: nat): nat
    requires j < |polls| && s.period > 0
  {
    Slots(s.nextRuntime, s.period, polls[j].now) + (|polls| - 1 - j)
  }

  /** `n` is the least of the run's length, the `-n` limit and the allowance of every poll. */
  ghost predicate LeastAllowance(s: Sched, polls: seq<Poll>, n: nat)
    requires s.period > 0
  {
    && n <= |polls|
    && (s.number >= 0 ==> n <= s.number)
    && (forall j :: 0 <= j < |polls| ==> n <= Allowance(s, polls, j))
    && (n == |polls| || n == s.number || exists j :: 0 <= j < |polls| && n == Allowance(s, polls, j))
  }

  /** One more poll keeps the least allowance. */
  lemma {:induction false} LeastAllowanceStep(s: Sched, polls: seq<Poll>, before: nat, f: nat)
    requires polls != [] && s.period > 0 && LeastAllowance(s, Before(polls), before)
    requires f == Limit(s.number, Min(before + 1, Slots(s.nextRuntime, s.period, Latest(polls).now)))
    ensures LeastAllowance(s, polls, f)
  {
    hide Slots;
    var b, n := Before(polls), |polls|;
    assert Allowance(s, polls, n - 1) == Slots(s.nextRuntime, s.period, Latest(polls).now);
    forall j | 0 <= j < n ensures f <= Allowance(s, polls, j) {
      if j < n - 1 {
        assert Allowance(s, polls, j) == Allowance(s, b, j) + 1;
      }
    }
    if f != n && f != s.number && f != Allowance(s, polls, n - 1) {
      var j :| 0 <= j < |b| && before == Allowance(s, b, j);
      assert f == Allowance(s, polls, j);
    }
  }

  lemma {:induction false} ClosedForm(s: Sched, polls: seq<Poll>)
    requires Armed(s) && Quiet(s.period, polls) && Ordered(polls) && InTime(s, polls)
    ensures LeastAllowance(s, polls, Firings(s, polls))
  {
    hide Slots, LeastAllowance;
    if polls != [] {
      hide Firings;
      ClosedForm(s, Before(polls));
      RefinesSlotCounter(s, polls);
      LeastAllowanceStep(s, polls, Firings(s, Before(polls)), Firings(s, polls));
    } else {
      NothingAllowed(s);
    }
  }

  lemma {:induction false} NothingAllowed(s: Sched)
    requires s.period > 0
    ensures LeastAllowance(s, [], 0)
  {
  }

  /** The run catches up with the grid, up to the limit, exactly when no poll's allowance falls short of it. */
  lemma {:induction false} CaughtUp(s: Sched, polls: seq<Poll>)
    requires polls != [] && Armed(s) && Quiet(s.period, polls) && Ordered(polls) && InTime(s, polls)
    ensures
      var due := Limit(s.number, Slots(s.nextRuntime, s.period, Latest(polls).now));
      Firings(s, polls) == due <==>
        due <= |polls| && forall j :: 0 <= j < |polls| ==> due <= Allowance(s, polls, j)
  {
    ClosedForm(s, polls);
    assert Allowance(s, polls, |polls| - 1) == Slots(s.nextRuntime, s.period, Latest(polls).now);
  }

  /** Polls at most a period apart never fall further behind the grid. */
  lemma {:induction false} BacklogNeverGrows(s: Sched, polls: seq<Poll>)
    requires |polls| > 1 && Armed(s) && Quiet(s.period, polls) && Ordered(polls) && InTime(s, polls)
    requires Latest(polls).now - Latest(Before(polls)).now <= s.period
    ensures
      var due := Limit(s.number, Slots(s.nextRuntime, s.period, Latest(polls).now));
      var dueBefore := Limit(s.number, Slots(s.nextRuntime, s.period, Latest(Before(polls)).now));
      0 <= due - Firings(s, polls) <= dueBefore - Firings(s, Before(polls))
  {
    var b := Before(polls);
    RefinesSlotCounter(s, polls);
    NeverEarly(s, b);
    DriftFree(s, b);
    NextSlotIsOne(s.nextRuntime, s.period, Latest(b).now, Latest(polls).now);
  }

  lemma NextSlotIsOne(anchor: int, period: int, t0: int, t1: int)
    requires period > 0 && t0 <= t1 <= t0 + period
    ensures Slots(anchor, period, t0) <= Slots(anchor, period, t1) <= Slots(anchor, period, t0) + 1
  {
    SlotsMonotone(anchor, period, t0, t1);
    var n := Slots(anchor, period, t0);
    SlotsCounts(anchor, period, t0, n);
    SlotsCounts(anchor, period, t1, n + 1);
    assert (n + 1) * period == n * period + period;
  }

  /** From poll `k` on, neighbouring polls are at most `gap` apart. */
  predicate Spaced(polls: seq<Poll>, k: nat, gap: nat) {
    forall i :: k <= i < |polls| - 1 ==> polls[i + 1].now - polls[i].now <= gap
  }

  /** How often the record should have fired by the end of the run. */
  function Due(s: Sched, polls: seq<Poll>): int
    requires polls != [] && s.period > 0
  {
    Limit(s.number, Slots(s.nextRuntime, s.period, Latest(polls).now))
  }

  lemma {:induction false} NeverAhead(s: Sched, polls: seq<Poll>)
    requires polls != [] && Armed(s) && Quiet(s.period, polls) && Ordered(polls)
    ensures Firings(s, polls) <= Due(s, polls)
  {
    NeverEarly(s, polls);
    DriftFree(s, polls);
  }

  /** While polls are at most a period apart, every one of them fires until the run has caught up, and it stays so. */
  lemma {:induction false} FiresUntilCaughtUp(s: Sched, polls: seq<Poll>, k: nat)
    requires k < |polls| && Armed(s) && Quiet(s.period, polls) && Ordered(polls) && InTime(s, polls)
    requires Spaced(polls, k, s.period)
    ensures || Firings(s, polls) == Due(s, polls)
            || Firings(s, polls) == Firings(s, polls[..k + 1]) + (|polls| - 1 - k)
  {
    hide Firings, Slots;
    if k == |polls| - 1 {
      assert polls[..k + 1] == polls;
    } else {
      var b := Before(polls);
      FiresUntilCaughtUp(s, b, k);
      assert b[..k + 1] == polls[..k + 1];
      assert polls[|polls| - 2 + 1].now - polls[|polls| - 2].now <= s.period;
      RefinesSlotCounter(s, polls);
      NeverAhead(s, b);
      NextSlotIsOne(s.nextRuntime, s.period, Latest(b).now, Latest(polls).now);
    }
  }

  /** Full catch-up: as many such polls as firings are missing at the end are enough. */
  lemma {:induction false} CatchesUp(s: Sched, polls: seq<Poll>, k: nat)
    requires k < |polls| && Armed(s) && Quiet(s.period, polls) && Ordered(polls) && InTime(s, polls)
    requires Spaced(polls, k, s.period)
    requires |polls| - 1 - k >= Due(s, polls) - Firings(s, polls[..k + 1])
    ensures Firings(s, polls) == Due(s, polls)
  {
    FiresUntilCaughtUp(s, polls, k);
    NeverAhead(s, polls);
  }

  /** The polls, `gap` apart, that work off a backlog while new slots pass. */
  function PollsToCatchUp(backlog: nat, period: nat, gap: nat): nat
    requires gap < period
  {
    ((backlog + 1) * period - 1) / (period - gap) + 1
  }

  lemma {:induction false} SpacedTime(polls: seq<Poll>, k: nat, gap: nat)
    requires k < |polls| && Spaced(polls, k, gap)
    ensures Latest(polls).now - polls[k].now <= (|polls| - 1 - k) * gap
  {
    if k < |polls| - 1 {
      var b := Before(polls);
      SpacedTime(b, k, gap);
      assert polls[|polls| - 2 + 1].now - polls[|polls| - 2].now <= gap;
      assert (|polls| - 1 - k) * gap == (|polls| - 2 - k) * gap + gap;
    }
  }

  /** The slots that pass during a stretch of time, rounded up. */
  lemma {:induction false} NewSlots(anchor: int, period: int, t0: int, t1: int)
    requires period > 0 && t0 <= t1
    ensures (Slots(anchor, period, t1) - Slots(anchor, period, t0)) * period <= t1 - t0 + period - 1
  {
    var n0, n1 := Slots(anchor, period, t0), Slots(anchor, period, t1);
    SlotsMonotone(anchor, period, t0, t1);
    if n1 > n0 {
      SlotsCounts(anchor, period, t0, n0);
      SlotsCounts(anchor, period, t1, n1 - 1);
      assert (n1 - 1) * period - n0 * period == (n1 - n0) * period - period;
    }
  }

  lemma {:induction false} EnoughPolls(m: nat, backlog: nat, added: nat, period: nat, gap: nat)
    requires gap < period && m >= PollsToCatchUp(backlog, period, gap) && added * period <= m * gap + period - 1
    ensures m >= backlog + added
  {
    var d, x := period - gap, (backlog + 1) * period - 1;
    QuotientCovers(m, x, d);
    assert m * period == m * gap + m * d;
    assert (backlog + 1) * period == backlog * period + period;
    assert (backlog + added) * period == backlog * period + added * period;
    Cancel(backlog + added, m, period);
  }

  lemma {:induction false} QuotientCovers(m: nat, x: nat, d: nat)
    requires d > 0 && m >= x / d + 1
    ensures m * d >= x
  {
    assert m * d >= (x / d + 1) * d == x / d * d + d;
  }

  lemma {:induction false} Cancel(x: nat, y: nat, p: nat)
    requires p > 0 && x * p <= y * p
    ensures x <= y
  {
    assert (x - y) * p <= 0;
  }

  /**
   Polls that are always less than a period apart catch up with the grid, whatever was missed before poll `k`, and the
   number of polls that this takes follows from the backlog and the gap alone.
   */
  lemma {:induction false} CatchesUpWithin(s: Sched, polls: seq<Poll>, k: nat, gap: nat)
    requires k < |polls| && Armed(s) && Quiet(s.period, polls) && Ordered(polls) && InTime(s, polls)
    requires gap < s.period && Spaced(polls, k, gap)
    requires var backlog := Due(s, polls[..k + 1]) - Firings(s, polls[..k + 1]);
             |polls| - 1 - k >= PollsToCatchUp(Max(0, backlog), s.period, gap)
    ensures Firings(s, polls) == Due(s, polls)
  {
    hide PollsToCatchUp, Firings, Slots;
    var first, m := polls[..k + 1], |polls| - 1 - k;
    NeverAhead(s, first);
    SpacedTime(polls, k, gap);
    assert Latest(first) == polls[k] && polls[k].now <= Latest(polls).now;
    SlotsMonotone(s.nextRuntime, s.period, polls[k].now, Latest(polls).now);
    NewSlots(s.nextRuntime, s.period, polls[k].now, Latest(polls).now);
    var added := Slots(s.nextRuntime, s.period, Latest(polls).now) - Slots(s.nextRuntime, s.period, polls[k].now);
    EnoughPolls(m, Due(s, first) - Firings(s, first), added, s.period, gap);
    CatchesUp(s, polls, k);
  }

  // ---------------------------------------------------------------- records that do not follow a grid

  /** How many polls of the run carry a request. */
  function RequestCount(polls: seq<Poll>): nat {
    if polls == [] then 0 else RequestCount(Before(polls)) + if Latest(polls).req then 1 else 0
  }

  /** A record that waits for service requests answers every one of them, up to its limit, and acts at no other time. */
  lemma {:induction false} AnswersRequests(s: Sched, polls: seq<Poll>)
    requires s.srq
    ensures Firings(s, polls) == Limit(s.number, RequestCount(polls))
    ensures After(s, polls).srq
    ensures After(s, polls).number == if s.number < 0 then s.number else s.number - Firings(s, polls)
  {
    if polls != [] {
      AnswersRequests(s, Before(polls));
    }
  }

  /** How many polls of the run lie after the slot of the record and not after its `last`. */
  function OpenPolls(s: Sched, polls: seq<Poll>): nat {
    if polls == [] then 0
    else
      var now := Latest(polls).now;
      OpenPolls(s, Before(polls)) + if s.nextRuntime < now && (s.last == 0 || now <= s.last) then 1 else 0
  }

  /** A record without a period keeps its slot: it fires at every poll after it, up to `last` and to its limit. */
  lemma {:induction false} FiresAtEveryPoll(s: Sched, polls: seq<Poll>)
    requires s.nextRuntime > 0 && s.period == 0 && !s.srq
    requires forall i :: 0 <= i < |polls| ==> !polls[i].req
    ensures Firings(s, polls) == Limit(s.number, OpenPolls(s, polls))
    ensures After(s, polls) == s.(number := After(s, polls).number)
    ensures After(s, polls).number == if s.number < 0 then s.number else s.number - Firings(s, polls)
  {
    if polls != [] {
      FiresAtEveryPoll(s, Before(polls));
    }
  }

  // ---------------------------------------------------------------- whole runs of a fresh record

  lemma {:induction false} RunsCompose(s: Sched, a: seq<Poll>, b: seq<Poll>)
    ensures After(s, a + b) == After(After(s, a), b)
    ensures Firings(s, a + b) == Firings(s, a) + Firings(After(s, a), b)
  {
    if b == [] {
      assert a + b == a;
    } else {
      RunsCompose(s, a, Before(b));
      assert Before(a + b) == a + Before(b);
    }
  }

  /** Until the clock passes `first` nothing happens. */
  lemma {:induction false} WaitsForFirst(s: Sched, polls: seq<Poll>)
    requires s.nextRuntime == 0
    requires forall i :: 0 <= i < |polls| ==> !polls[i].req && polls[i].now <= s.first
    ensures After(s, polls) == s && Firings(s, polls) == 0
  {
    if polls != [] {
      WaitsForFirst(s, Before(polls));
    }
  }

  /** After `last` nothing happens any more. */
  lemma {:induction false} NothingAfterLast(s: Sched, polls: seq<Poll>)
    requires s.last != 0
    requires forall i :: 0 <= i < |polls| ==> !polls[i].req && polls[i].now > s.last
    ensures Firings(s, polls) == 0 && After(s, polls).last == s.last
  {
    if polls != [] {
      NothingAfterLast(s, Before(polls));
    }
  }

  /** After `last` a record acts if and only if a service request asks for it: that path does not look at `last`. */
  lemma FiresAfterLastIff(s: Sched, p: Poll)
    requires s.last != 0 && p.now > s.last
    ensures Fires(s, p) <==> p.req && s.number != 0
    ensures exists late: Sched, q: Poll :: late.last != 0 && q.now > late.last && Fires(late, q)
  {
    var late, q := Sched(1, 5, 1, 0, -1, true), Poll(9, true);
    assert late.last != 0 && q.now > late.last && Fires(late, q);
  }

  /** The record as the poll that arms it leaves it. */
  function ArmedAt(s: Sched, now: TimeT): Sched {
    s.(nextRuntime := if s.first == 0 then now else s.first)
  }

  lemma {:induction false} ArmsAt(s: Sched, early: seq<Poll>, p: Poll)
    requires s.nextRuntime == 0 && !p.req && s.first < p.now
    requires forall i :: 0 <= i < |early| ==> !early[i].req && early[i].now <= s.first
    ensures After(s, early + [p]) == ArmedAt(s, p.now) && Firings(s, early + [p]) == 0
  {
    WaitsForFirst(s, early);
    assert Before(early + [p]) == early;
  }

  /** The grid of a fresh record starts at its first time or, without one, at the clock sample that arms it. */
  lemma {:induction false} StaysOnGrid(s: Sched, polls: seq<Poll>, arm: nat)
    requires s.nextRuntime == 0 && s.period > 0 && !s.srq && Quiet(s.period, polls) && arm < |polls|
    requires forall i :: 0 <= i < arm ==> polls[i].now <= s.first
    requires s.first < polls[arm].now
    ensures After(s, polls).nextRuntime ==
            (if s.first > 0 then s.first else polls[arm].now) + Firings(s, polls) * s.period
  {
    hide Firings, Arms;
    var early, live := polls[..arm], polls[arm + 1..];
    ArmsAt(s, early, polls[arm]);
    RunsCompose(s, early + [polls[arm]], live);
    DriftFree(ArmedAt(s, polls[arm].now), live);
    assert polls == early + [polls[arm]] + live;
  }

  /** A firing moves the slot on by a period: from the slot, or from the clock sample if there is none yet. */
  lemma {:induction false} MovesOn(s: Sched, p: Poll)
    requires Fires(s, p) && s.period > 0
    ensures Step(s, p).nextRuntime ==
            ((if s.nextRuntime > 0 then s.nextRuntime else if 0 < s.first < p.now then s.first else p.now) + s.period)
            % 0x1_0000_0000_0000_0000
  {
  }

  /** `WholeRun` with the run already cut at its two borders. */
  lemma {:induction false} CutRun(s: Sched, early: seq<Poll>, p: Poll, live: seq<Poll>, late: seq<Poll>)
    requires s.nextRuntime == 0 && s.period > 0 && !s.srq && !p.req && s.first < p.now
    requires forall i :: 0 <= i < |early| ==> !early[i].req && early[i].now <= s.first
    requires Quiet(s.period, live) && Ordered(live) && InTime(s, live)
    requires forall i :: 0 <= i < |late| ==> !late[i].req && s.last != 0 && late[i].now > s.last
    ensures Firings(s, early + [p] + live + late) == Firings(ArmedAt(s, p.now), live)
    ensures LeastAllowance(ArmedAt(s, p.now), live, Firings(ArmedAt(s, p.now), live))
  {
    var armed := ArmedAt(s, p.now);
    ArmsAt(s, early, p);
    RunsCompose(s, early + [p], live);
    RunsCompose(s, early + [p] + live, late);
    DriftFree(armed, live);
    if late != [] {
      assert s.last != 0 by { assert late[0] in late; }
      NothingAfterLast(After(armed, live), late);
    }
    ClosedForm(armed, live);
  }

  /**
   The messages of a whole run. Polls before `arm` come too early, poll `arm` only arms the record, and those from
   `end` on come after `last`: the polls between alone decide, by the closed form.
   */
  lemma {:induction false} WholeRun(s: Sched, polls: seq<Poll>, arm: nat, end: nat)
    requires s.nextRuntime == 0 && s.period > 0 && !s.srq
    requires Quiet(s.period, polls) && Ordered(polls)
    requires arm < end <= |polls|
    requires forall i :: 0 <= i < arm ==> polls[i].now <= s.first
    requires s.first < polls[arm].now
    requires forall i :: 0 <= i < end ==> s.last == 0 || polls[i].now <= s.last
    requires forall i :: end <= i < |polls| ==> s.last != 0 && polls[i].now > s.last
    ensures Firings(s, polls) == Firings(ArmedAt(s, polls[arm].now), polls[arm + 1..end])
    ensures LeastAllowance(ArmedAt(s, polls[arm].now), polls[arm + 1..end], Firings(s, polls))
  {
    hide Firings, LeastAllowance, Arms, ArmedAt;
    var early, live, late := polls[..arm], polls[arm + 1..end], polls[end..];
    CutRun(s, early, polls[arm], live, late);
    assert polls == early + [polls[arm]] + live + late;
  }

  /** A whole run whose polls come less than a period apart, from some point on, sends all that is due by `last`. */
  lemma {:induction false} WholeRunCatchesUp(s: Sched, polls: seq<Poll>, arm: nat, end: nat, k: nat, gap: nat)
    requires s.nextRuntime == 0 && s.period > gap && !s.srq
    requires Quiet(s.period, polls) && Ordered(polls)
    requires arm < k < end <= |polls|
    requires forall i :: 0 <= i < arm ==> polls[i].now <= s.first
    requires s.first < polls[arm].now
    requires forall i :: 0 <= i < end ==> s.last == 0 || polls[i].now <= s.last
    requires forall i :: end <= i < |polls| ==> s.last != 0 && polls[i].now > s.last
    requires Spaced(polls[..end], k, gap)
    ensures var armed := ArmedAt(s, polls[arm].now);
            var backlog := Due(armed, polls[arm + 1..k + 1]) - Firings(armed, polls[arm + 1..k + 1]);
            end - 1 - k >= PollsToCatchUp(Max(0, backlog), s.period, gap) ==>
              Firings(s, polls) == Due(armed, polls[arm + 1..end])
  {
    hide Firings, Due, PollsToCatchUp, LeastAllowance;
    var live := polls[arm + 1..end];
    WholeRun(s, polls, arm, end);
    assert live[..k - arm] == polls[arm + 1..k + 1];
    assert Spaced(live, k - arm - 1, gap) by {
      forall i | k - arm - 1 <= i < |live| - 1 ensures live[i + 1].now - live[i].now <= gap {
        var j := i + arm + 1;
        assert live[i] == polls[..end][j] && live[i + 1] == polls[..end][j + 1];
      }
    }
    var armed := ArmedAt(s, polls[arm].now);
    var backlog := Due(armed, polls[arm + 1..k + 1]) - Firings(armed, polls[arm + 1..k + 1]);
    if end - 1 - k >= PollsToCatchUp(Max(0, backlog), s.period, gap) {
      CatchesUpWithin(armed, live, k - arm - 1, gap);
    }
  }

  /** `WholeRun` for a record without a period, which the constructor leaves: it acts at every poll after the arming one. */
  lemma {:induction false} WholeRunWithoutPeriod(s: Sched, polls: seq<Poll>, arm: nat)
    requires s.nextRuntime == 0 && s.period == 0 && !s.srq && arm < |polls|
    requires forall i :: 0 <= i < |polls| ==> !polls[i].req
    requires forall i :: 0 <= i < arm ==> polls[i].now <= s.first
    requires s.first < polls[arm].now
    ensures Firings(s, polls) == Limit(s.number, OpenPolls(ArmedAt(s, polls[arm].now), polls[arm + 1..]))
  {
    var early, live := polls[..arm], polls[arm + 1..];
    ArmsAt(s, early, polls[arm]);
    RunsCompose(s, early + [polls[arm]], live);
    FiresAtEveryPoll(ArmedAt(s, polls[arm].now), live);
    assert polls == early + [polls[arm]] + live;
  }

  // ---------------------------------------------------------------- termination

  /** The configurations that cannot keep the main loop going for ever. */
  predicate Stops(s: Sched) {
    s.last != 0 || (s.number != -1 && (s.number <= 0 || !s.srq))
  }

  /** The time that `n` periods take. */
  function Span(n: nat, period: nat): nat {
    if n == 0 then 0 else Span(n - 1, period) + period
  }

  lemma {:induction false} SpanIs(n: nat, period: nat)
    ensures Span(n, period) == n * period
  {
    if n > 0 {
      SpanIs(n - 1, period);
    }
  }

  /** How many more polls a record can ask for, when the latest one was at `now`. */
  function Budget(s: Sched, now: int): nat
    requires Stops(s)
  {
    if s.last != 0 then Max(0, s.last - now)
    else if s.number <= 0 then 0
    else if s.nextRuntime == 0 then 1 + Max(0, s.first - now) + Span(s.number - 1, s.period) + s.number
    else Max(0, s.nextRuntime + Span(s.number - 1, s.period) - now) + s.number
  }

  /** A poll that cannot wrap the clock and carries a request only for a record that waits for one. */
  predicate Regular(s: Sched, p: Poll) {
    (p.req ==> s.srq) && p.now + s.period <= TIME_MODULUS
  }

  lemma BudgetFallsArmed(s: Sched, now: int, p: Poll)
    requires s.last == 0 && s.number > 0 && !s.srq && s.nextRuntime > 0 && Regular(s, p) && now < p.now
    ensures Stops(Step(s, p)) && Budget(Step(s, p), p.now) < Budget(s, now)
  {
    if Fires(s, p) {
      var next := s.nextRuntime + s.period;
      assert next < TIME_MODULUS;
      assert Step(s, p) == s.(nextRuntime := next, number := s.number - 1);
    } else {
      assert Step(s, p) == s;
    }
  }

  lemma BudgetFallsUnarmed(s: Sched, now: int, p: Poll)
    requires s.last == 0 && s.number > 0 && !s.srq && s.nextRuntime == 0 && Regular(s, p) && now < p.now
    ensures Stops(Step(s, p)) && Budget(Step(s, p), p.now) < Budget(s, now)
  {
    assert Step(s, p) == s.(nextRuntime := Slot(s, p.now));
  }

  lemma BudgetFalls(s: Sched, now: int, p: Poll)
    requires Stops(s) && Regular(s, p) && now < p.now
    ensures Stops(Step(s, p))
    ensures Budget(Step(s, p), p.now) <= Max(0, Budget(s, now) - 1)
  {
    if s.last == 0 && s.number > 0 {
      if s.nextRuntime > 0 {
        BudgetFallsArmed(s, now, p);
      } else {
        BudgetFallsUnarmed(s, now, p);
      }
    }
  }

  lemma BudgetSpent(s: Sched, now: TimeT)
    requires Stops(s)
    ensures Budget(s, now) == 0 <==> !Continues(s, now)
  {
  }

  predicate Ticking(polls: seq<Poll>) {
    forall i, j :: 0 <= i < j < |polls| ==> polls[i].now < polls[j].now
  }

  /** Under a clock that strictly increases the budget falls with every poll. */
  lemma {:induction false} BudgetRuns(s: Sched, polls: seq<Poll>)
    requires polls != [] && Stops(s) && Ticking(polls)
    requires forall i :: 0 <= i < |polls| ==> Regular(s, polls[i])
    ensures var r := After(s, polls);
            && r.period == s.period && r.srq == s.srq && Stops(r)
            && Budget(r, Latest(polls).now) <= Max(0, Budget(s, polls[0].now - 1) - |polls|)
  {
    var b := Before(polls);
    if b == [] {
      BudgetFalls(s, polls[0].now - 1, polls[0]);
      assert After(s, polls) == Step(s, polls[0]);
    } else {
      BudgetRuns(s, b);
      BudgetFalls(After(s, b), Latest(b).now, Latest(polls));
    }
  }

  /** The other configurations keep the loop going; one with `-n N` does so through every run without a request. */
  lemma {:induction false} NeverStops(s: Sched, polls: seq<Poll>, now: TimeT)
    requires !Stops(s)
    requires forall i :: 0 <= i < |polls| && polls[i].req ==> s.number == -1
    ensures var r := After(s, polls);
            && r.number == s.number && r.last == s.last && r.srq == s.srq && Continues(r, now)
  {
    if polls != [] {
      NeverStops(s, Before(polls), now);
    }
  }
}
