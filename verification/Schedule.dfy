/** internal/sweep/schedule.go: when a site is next worth reading. Instants and
    durations are nanoseconds. */
module Schedule {

  datatype Option<T> = None | Some(value: T)

  datatype Outcome = Changed | Unchanged | Failed

  const HOUR: int := 3_600_000_000_000
  const DAY: int := 24 * HOUR
  const FIRST_INTERVAL: int := 7 * DAY
  const MIN_INTERVAL: int := 2 * DAY
  const MAX_INTERVAL: int := 60 * DAY
  const FAILURE_BACKOFF: int := 12 * HOUR
  const MAX_BACKOFF_SHIFT: nat := 5
  const MAX_FAILURES: nat := 6
  const RECHECK_AFTER_CLOSE: int := DAY

  /** What is remembered of a site; the interval is zero for one never read. */
  datatype State = State(interval: int, failures: nat)

  const ZERO := State(0, 0)

  datatype Reason = Parked(failures: nat) | Retrying(failures: nat) | FirstRead | EasingOff | CheckingSooner | Closes(on: int)

  datatype Plan = Plan(interval: int, dueAt: int, failures: nat, park: bool, reason: Reason)

  function Clamp(interval: int): int {
    if interval < MIN_INTERVAL then MIN_INTERVAL
    else if interval > MAX_INTERVAL then MAX_INTERVAL
    else interval
  }

  function Shifted(d: int, k: nat): int {
    if k == 0 then d else 2 * Shifted(d, k - 1)
  }

  function Backoff(failures: nat): int
    requires failures > 0
  {
    Shifted(FAILURE_BACKOFF, if failures - 1 < MAX_BACKOFF_SHIFT then failures - 1 else MAX_BACKOFF_SHIFT)
  }

  function Next(state: State, outcome: Outcome, soonestClose: Option<int>, now: int): Plan {
    var interval := if state.interval <= 0 then FIRST_INTERVAL else state.interval;
    if outcome == Failed then
      var failures := state.failures + 1;
      if failures >= MAX_FAILURES then
        Plan(interval, now + MAX_INTERVAL, failures, true, Parked(failures))
      else
        Plan(interval, now + Backoff(failures), failures, false, Retrying(failures))
    else
      var adapted :=
        if state.interval <= 0 then interval
        else if outcome == Unchanged then Clamp(interval * 3 / 2)
        else Clamp(interval / 2);
      var reason :=
        if state.interval <= 0 then FirstRead
        else if outcome == Unchanged then EasingOff
        else CheckingSooner;
      if soonestClose.Some?
         && soonestClose.value + RECHECK_AFTER_CLOSE > now
         && soonestClose.value + RECHECK_AFTER_CLOSE < now + adapted
      then Plan(adapted, soonestClose.value + RECHECK_AFTER_CLOSE, 0, false, Closes(soonestClose.value))
      else Plan(adapted, now + adapted, 0, false, reason)
  }

  function Remembered(plan: Plan): State {
    State(plan.interval, plan.failures)
  }

  // ------------------------------------------------------------- one decision

  predicate InRange(interval: int) {
    MIN_INTERVAL <= interval <= MAX_INTERVAL
  }

  function Least(a: int, b: int): int {
    if a < b then a else b
  }

  function Greatest(a: int, b: int): int {
    if a > b then a else b
  }

  /** A site never read, or one whose interval the scheduler set. */
  predicate Reasonable(s: State) {
    s.interval <= 0 || InRange(s.interval)
  }

  lemma PlanIsSound(s: State, outcome: Outcome, close: Option<int>, now: int)
    requires Reasonable(s)
    ensures var p := Next(s, outcome, close, now);
            && InRange(p.interval)
            && now < p.dueAt <= now + MAX_INTERVAL
            && p.failures == (if outcome == Failed then s.failures + 1 else 0)
            && (p.park <==> p.failures >= MAX_FAILURES)
  {
    BackoffBounds(s.failures + 1);
  }

  lemma {:induction false} ShiftedGrows(d: int, j: nat, k: nat)
    requires d > 0 && j <= k
    ensures d <= Shifted(d, j) <= Shifted(d, k)
    decreases k
  {
    if k > 0 {
      if j < k {
        ShiftedGrows(d, j, k - 1);
      } else {
        ShiftedGrows(d, j - 1, k - 1);
      }
    }
  }

  lemma BackoffBounds(failures: nat)
    requires failures > 0
    ensures FAILURE_BACKOFF <= Backoff(failures) <= 16 * DAY
  {
    ShiftedGrows(FAILURE_BACKOFF, if failures - 1 < MAX_BACKOFF_SHIFT then failures - 1 else MAX_BACKOFF_SHIFT, MAX_BACKOFF_SHIFT);
    assert Shifted(FAILURE_BACKOFF, 2) == 2 * DAY by { assert Shifted(FAILURE_BACKOFF, 1) == DAY; }
    assert Shifted(FAILURE_BACKOFF, 4) == 8 * DAY by { assert Shifted(FAILURE_BACKOFF, 3) == 4 * DAY; }
    assert Shifted(FAILURE_BACKOFF, 5) == 16 * DAY;
  }

  /** The cap on the doubling is never felt: parking comes first, so a retry is
      at most eight days out, and the five gaps double one another. */
  lemma RetriesDoubleUpToEightDays(s: State, close: Option<int>, now: int)
    requires s.failures + 1 < MAX_FAILURES
    ensures var p := Next(s, Failed, close, now);
            && p.dueAt - now == Shifted(FAILURE_BACKOFF, s.failures)
            && p.dueAt - now <= 8 * DAY
  {
    ShiftedGrows(FAILURE_BACKOFF, s.failures, 4);
    assert Shifted(FAILURE_BACKOFF, 2) == 2 * DAY by { assert Shifted(FAILURE_BACKOFF, 1) == DAY; }
    assert Shifted(FAILURE_BACKOFF, 4) == 8 * DAY by { assert Shifted(FAILURE_BACKOFF, 3) == 4 * DAY; }
  }

  /** After a read, the site falls due at whichever comes first: the end of its
      interval, or the day after the closing date, if that is still ahead. */
  lemma ClosingDateOnlyBringsForward(s: State, outcome: Outcome, close: Option<int>, now: int)
    requires outcome != Failed && Reasonable(s)
    ensures var p := Next(s, outcome, close, now);
            var usual := Next(s, outcome, None, now).dueAt;
            && p.dueAt <= usual
            && (p.dueAt < usual <==> close.Some? && now < close.value + RECHECK_AFTER_CLOSE < usual)
            && (p.dueAt < usual ==> p.dueAt == close.value + RECHECK_AFTER_CLOSE)
            && p.interval == Next(s, outcome, None, now).interval
  {
  }

  /** When a site falls due, told by what is remembered of it: a read
      comes back after exactly its interval, or the day after the closing date when
      that falls between; a failure comes back after twelve hours, doubled for each
      failure before it, or after sixty days once the site is parked. */
  predicate DueOnTime(interval: int, failures: nat, dueAt: int, outcome: Outcome, close: Option<int>, now: int)
    requires outcome == Failed ==> failures > 0
  {
    if outcome == Failed then
      dueAt == now + (if failures >= 6 then 60 * DAY else Shifted(12 * HOUR, failures - 1))
    else if close.Some? && now < close.value + DAY < now + interval then
      dueAt == close.value + DAY
    else
      dueAt == now + interval
  }

  lemma EveryPlanIsOnTime(s: State, outcome: Outcome, close: Option<int>, now: int)
    ensures var p := Next(s, outcome, close, now);
            && (outcome == Failed ==> p.failures > 0)
            && DueOnTime(p.interval, p.failures, p.dueAt, outcome, close, now)
            && (outcome != Failed ==> !p.park && p.failures == 0)
  {
    assert 12 * HOUR == FAILURE_BACKOFF;
  }

  /** The interval after a read, in figures: half as long again when nothing changed,
      up to sixty days; half as long when something did, down to two. */
  lemma IntervalInFigures(s: State, outcome: Outcome, close: Option<int>, now: int)
    requires InRange(s.interval)
    ensures var p := Next(s, outcome, close, now);
            && (outcome == Failed ==> p.interval == s.interval)
            && (outcome == Unchanged ==> p.interval == Least(s.interval * 3 / 2, 60 * DAY))
            && (outcome == Changed ==> p.interval == Greatest(s.interval / 2, 2 * DAY))
  {
  }

  /** The gaps after the first five failures, in figures. */
  lemma RetryGapsInFigures()
    ensures Shifted(12 * HOUR, 0) == 12 * HOUR && Shifted(12 * HOUR, 1) == DAY && Shifted(12 * HOUR, 2) == 2 * DAY
    ensures Shifted(12 * HOUR, 3) == 4 * DAY && Shifted(12 * HOUR, 4) == 8 * DAY
  {
  }

  /** Only the soonest closing date is asked about. One that falls within the coming
      interval brings the next read forward exactly when the soonest is not already
      behind: a past one hides every later one. */
  lemma LaterClosingHonouredIff(s: State, outcome: Outcome, soonest: int, close: int, now: int)
    requires outcome != Failed && soonest <= close
    requires now < close + RECHECK_AFTER_CLOSE < Next(s, outcome, None, now).dueAt
    ensures Next(s, outcome, Some(soonest), now).dueAt <= close + RECHECK_AFTER_CLOSE <==> now < soonest + RECHECK_AFTER_CLOSE
  {
  }

  /** A read moves the interval, unless it is already at the bound it moves
      towards, exactly when the site came with a positive interval. */
  lemma AdaptsExactlyWhenIntervalIsSet(s: State, outcome: Outcome, close: Option<int>, now: int)
    requires outcome != Failed && Reasonable(s)
    ensures var p := Next(s, outcome, close, now);
            if s.interval <= 0 then p.interval == FIRST_INTERVAL
            else if outcome == Unchanged then p.interval > s.interval || p.interval == s.interval == MAX_INTERVAL
            else p.interval < s.interval || p.interval == s.interval == MIN_INTERVAL
  {
  }

  // ---------------------------------------------------------------- whole runs

  /** One attempt: what it produced, what was known to close, and when it was. */
  datatype Attempt = Attempt(outcome: Outcome, close: Option<int>, now: int)

  function StateAfter(s: State, run: seq<Attempt>): State
    decreases |run|
  {
    if run == [] then s
    else
      var a := run[|run| - 1];
      Remembered(Next(StateAfter(s, run[..|run| - 1]), a.outcome, a.close, a.now))
  }

  function PlanAfter(s: State, run: seq<Attempt>): Plan
    requires run != []
  {
    var a := run[|run| - 1];
    Next(StateAfter(s, run[..|run| - 1]), a.outcome, a.close, a.now)
  }

  /** How many attempts at the end of the run failed. */
  function TrailingFailures(run: seq<Attempt>): nat
    decreases |run|
  {
    if run == [] || run[|run| - 1].outcome != Failed then 0
    else 1 + TrailingFailures(run[..|run| - 1])
  }

  /** A site with no failures against it: never seen before, or just given its
      record. */
  predicate Fresh(s: State) {
    Reasonable(s) && s.failures == 0
  }

  lemma {:induction false} StateIsReasonable(s: State, run: seq<Attempt>)
    requires Fresh(s)
    ensures Reasonable(StateAfter(s, run))
    ensures run != [] ==> InRange(StateAfter(s, run).interval)
    ensures StateAfter(s, run).failures == TrailingFailures(run)
    decreases |run|
  {
    if run != [] {
      var a := run[|run| - 1];
      StateIsReasonable(s, run[..|run| - 1]);
      PlanIsSound(StateAfter(s, run[..|run| - 1]), a.outcome, a.close, a.now);
    }
  }

  /** Whatever a site does, from its first attempt on: the interval keeps its
      bounds, the due date lies ahead and within the ceiling, the failure count is
      the current run of failures, and the site is parked from the sixth on. */
  lemma {:induction false} EveryRunIsSound(s: State, run: seq<Attempt>)
    requires Fresh(s) && run != []
    ensures var p := PlanAfter(s, run);
            var now := run[|run| - 1].now;
            && InRange(p.interval)
            && now < p.dueAt <= now + MAX_INTERVAL
            && p.failures == TrailingFailures(run)
            && (p.park <==> TrailingFailures(run) >= MAX_FAILURES)
            && (run[|run| - 1].outcome == Failed ==> p.failures > 0)
            && DueOnTime(p.interval, p.failures, p.dueAt, run[|run| - 1].outcome, run[|run| - 1].close, now)
  {
    StateIsReasonable(s, run);
    StateIsReasonable(s, run[..|run| - 1]);
    var a := run[|run| - 1];
    PlanIsSound(StateAfter(s, run[..|run| - 1]), a.outcome, a.close, a.now);
    EveryPlanIsOnTime(StateAfter(s, run[..|run| - 1]), a.outcome, a.close, a.now);
  }

  predicate All(run: seq<Attempt>, outcome: Outcome) {
    forall k :: 0 <= k < |run| ==> run[k].outcome == outcome
  }

  /** Failing does not teach the scheduler anything about a site's rate. */
  lemma {:induction false} FailuresKeepTheInterval(s: State, run: seq<Attempt>)
    requires s.interval > 0 && All(run, Failed)
    ensures StateAfter(s, run).interval == s.interval
    decreases |run|
  {
    if run != [] {
      FailuresKeepTheInterval(s, run[..|run| - 1]);
    }
  }

  /** The interval after n quiet reads, or n reads that found changes. */
  function Eased(interval: int, n: nat): int {
    if n == 0 then interval else Clamp(Eased(interval, n - 1) * 3 / 2)
  }

  function Hurried(interval: int, n: nat): int {
    if n == 0 then interval else Clamp(Hurried(interval, n - 1) / 2)
  }

  lemma {:induction false} RunsOfOneKind(s: State, run: seq<Attempt>)
    requires InRange(s.interval)
    ensures All(run, Unchanged) ==> StateAfter(s, run).interval == Eased(s.interval, |run|)
    ensures All(run, Changed) ==> StateAfter(s, run).interval == Hurried(s.interval, |run|)
    ensures InRange(StateAfter(s, run).interval)
    decreases |run|
  {
    if run != [] {
      var less, a := run[..|run| - 1], run[|run| - 1];
      RunsOfOneKind(s, less);
      PlanIsSound(StateAfter(s, less), a.outcome, a.close, a.now);
    }
  }

  lemma {:induction false} EasedGrows(interval: int, n: nat)
    requires InRange(interval)
    ensures InRange(Eased(interval, n))
    ensures n > 0 ==> (Eased(interval, n) == MAX_INTERVAL || 2 * Eased(interval, n) >= 3 * Eased(interval, n - 1) - 1)
  {
  }

  lemma {:induction false} HurriedShrinks(interval: int, n: nat)
    requires InRange(interval)
    ensures InRange(Hurried(interval, n))
    ensures n > 0 ==> (Hurried(interval, n) == MIN_INTERVAL || 2 * Hurried(interval, n) <= Hurried(interval, n - 1))
  {
  }

  /** From any interval in range, nine quiet reads reach the ceiling and five
      changed ones the floor; and both are then kept. */
  lemma {:induction false} BoundsAreReached(interval: int, n: nat)
    requires InRange(interval)
    ensures n >= 9 ==> Eased(interval, n) == MAX_INTERVAL
    ensures n >= 5 ==> Hurried(interval, n) == MIN_INTERVAL
  {
    if n > 9 {
      BoundsAreReached(interval, n - 1);
    } else if n == 9 {
      EasedAtNine(interval);
      BoundsAreReached(interval, 8);
    } else if n > 5 {
      BoundsAreReached(interval, n - 1);
    } else if n == 5 {
      HurriedShrinks(interval, 1);
      HurriedShrinks(interval, 2);
      HurriedShrinks(interval, 3);
      HurriedShrinks(interval, 4);
      HurriedShrinks(interval, 5);
    }
  }

  lemma {:induction false} EasedAtNine(interval: int)
    requires InRange(interval)
    ensures Eased(interval, 9) == MAX_INTERVAL
  {
    EasedGrows(interval, 1);
    EasedGrows(interval, 2);
    EasedGrows(interval, 3);
    EasedGrows(interval, 4);
    EasedGrows(interval, 5);
    EasedGrows(interval, 6);
    EasedGrows(interval, 7);
    EasedGrows(interval, 8);
    EasedGrows(interval, 9);
  }

  lemma {:induction false} QuietSitesSettle(s: State, run: seq<Attempt>)
    requires InRange(s.interval)
    ensures All(run, Unchanged) && |run| >= 9 ==> StateAfter(s, run).interval == MAX_INTERVAL
    ensures All(run, Changed) && |run| >= 5 ==> StateAfter(s, run).interval == MIN_INTERVAL
  {
    RunsOfOneKind(s, run);
    BoundsAreReached(s.interval, |run|);
  }

  /** The first successful read leaves a site at its starting interval exactly
      when no attempt failed before it: a failure already sets the interval, and
      the read after it adapts. */
  lemma {:induction false} FirstSuccessLearnsNothingIff(failed: seq<Attempt>, read: Attempt)
    requires All(failed, Failed) && read.outcome != Failed
    ensures StateAfter(ZERO, failed + [read]).interval == FIRST_INTERVAL <==> failed == []
  {
    var run := failed + [read];
    assert run[..|run| - 1] == failed;
    if failed != [] {
      assert failed == [failed[0]] + failed[1..];
      FailuresAfterFirst(failed[0], failed[1..]);
    }
  }

  lemma {:induction false} FailuresAfterFirst(first: Attempt, rest: seq<Attempt>)
    requires first.outcome == Failed && All(rest, Failed)
    ensures StateAfter(ZERO, [first] + rest).interval == FIRST_INTERVAL
    decreases |rest|
  {
    var run := [first] + rest;
    if rest == [] {
      assert run[..0] == [];
    } else {
      var n := |rest| - 1;
      FailuresAfterFirst(first, rest[..n]);
      assert run[..|run| - 1] == [first] + rest[..n];
    }
  }
}
