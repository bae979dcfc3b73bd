/** internal/ratelimit/gate.go and the per-host clock of pkg/exhibitions/fetch.go:
    requests are spaced by reserving slots. Times and durations are nanoseconds;
    the zero time is 0 and every clock reading is later. */
module Gate {

  datatype Bounds = Bounds(min: nat, max: nat)

  /** The earliest next slot, and the spacing in force. */
  datatype State = State(next: nat, interval: nat)

  /** The instant the caller may issue its request. */
  function Slot(s: State, now: nat): nat {
    if s.next > now then s.next else now
  }

  function Reserve(s: State, now: nat): State {
    State(Slot(s, now) + s.interval, s.interval)
  }

  function Widen(b: Bounds, s: State): State {
    State(s.next, if 2 * s.interval > b.max then b.max else 2 * s.interval)
  }

  function Narrow(b: Bounds, s: State): State {
    var less := s.interval - s.interval / 8;
    State(s.next, if s.interval <= b.min then s.interval else if less < b.min then b.min else less)
  }

  class Gate {
    const bounds: Bounds
    var next: nat
    var interval: nat

    function Now(): State
      reads this
    {
      State(next, interval)
    }

    constructor (min: nat, max: nat)
      ensures bounds == Bounds(min, if max < min then min else max)
      ensures Now() == State(0, min)
    {
      bounds := Bounds(min, if max < min then min else max);
      next, interval := 0, min;
    }

    /** Reserves a slot and tells how long to wait for it. */
    method Wait(now: nat) returns (delay: nat)
      modifies this
      ensures now + delay == Slot(old(Now()), now)
      ensures Now() == Reserve(old(Now()), now)
      ensures delay == (if old(next) > now then old(next) - now else 0)
      ensures next == now + delay + old(interval) && interval == old(interval)
    {
      var d := next - now;
      if d < 0 {
        d := 0;
      }
      next := now + d + interval;
      delay := d;
    }

    method SlowDown()
      modifies this
      ensures Now() == Widen(bounds, old(Now()))
      ensures interval == (if 2 * old(interval) <= bounds.max then 2 * old(interval) else bounds.max) && next == old(next)
    {
      interval := interval * 2;
      if interval > bounds.max {
        interval := bounds.max;
      }
    }

    method SpeedUp()
      modifies this
      ensures Now() == Narrow(bounds, old(Now()))
      ensures next == old(next) && (old(interval) <= bounds.min ==> interval == old(interval))
      ensures old(interval) > bounds.min ==>
                var less := old(interval) - old(interval) / 8;
                interval == if less < bounds.min then bounds.min else less
    {
      if interval > bounds.min {
        interval := interval - interval / 8;
        if interval < bounds.min {
          interval := bounds.min;
        }
      }
    }
  }

  // ---------------------------------------------------------- any interleaving

  datatype Event = Ask(now: nat) | Refused | Succeeded

  function Next(b: Bounds, s: State, e: Event): State {
    match e
    case Ask(now) => Reserve(s, now)
    case Refused => Widen(b, s)
    case Succeeded => Narrow(b, s)
  }

  function After(b: Bounds, s: State, run: seq<Event>): State
    decreases |run|
  {
    if run == [] then s else After(b, Next(b, s, run[0]), run[1..])
  }

  /** The slots reserved over a run, in order. */
  function Slots(b: Bounds, s: State, run: seq<Event>): seq<nat>
    decreases |run|
  {
    if run == [] then []
    else (if run[0].Ask? then [Slot(s, run[0].now)] else []) + Slots(b, Next(b, s, run[0]), run[1..])
  }

  predicate InBounds(b: Bounds, s: State) {
    b.min <= s.interval <= b.max
  }

  lemma {:induction false} IntervalStaysInBounds(b: Bounds, s: State, run: seq<Event>)
    requires InBounds(b, s)
    ensures InBounds(b, After(b, s, run))
    decreases |run|
  {
    if run != [] {
      IntervalStaysInBounds(b, Next(b, s, run[0]), run[1..]);
    }
  }

  /** Slots never come before the one owed, and are at least min apart. */
  lemma {:induction false} SlotsAreSpaced(b: Bounds, s: State, run: seq<Event>)
    requires InBounds(b, s)
    ensures var slots := Slots(b, s, run);
            && (slots != [] ==> slots[0] >= s.next)
            && (forall k :: 0 <= k < |slots| - 1 ==> slots[k + 1] >= slots[k] + b.min)
    decreases |run|
  {
    if run != [] {
      var s' := Next(b, s, run[0]);
      SlotsAreSpaced(b, s', run[1..]);
      var slots, rest := Slots(b, s, run), Slots(b, s', run[1..]);
      if run[0].Ask? {
        assert slots[1..] == rest;
      } else {
        assert slots == rest;
      }
    }
  }

  /** The clock readings of the askers, in order. */
  function AskTimes(run: seq<Event>): seq<nat>
    decreases |run|
  {
    if run == [] then [] else (if run[0].Ask? then [run[0].now] else []) + AskTimes(run[1..])
  }

  /** No one waits longer than needed: a slot is at once, or what was owed at the
      start, or at most the widest interval after the slot before it. */
  lemma {:induction false} SlotsAreNotWasted(b: Bounds, s: State, run: seq<Event>)
    requires InBounds(b, s)
    ensures var slots, times := Slots(b, s, run), AskTimes(run);
            && |slots| == |times|
            && (forall k :: 0 <= k < |slots| ==> slots[k] >= times[k])
            && (slots != [] ==> slots[0] == times[0] || slots[0] == s.next)
            && (forall k :: 0 < k < |slots| ==> slots[k] == times[k] || slots[k] <= slots[k - 1] + b.max)
    decreases |run|
  {
    if run != [] {
      var s' := Next(b, s, run[0]);
      SlotsAreNotWasted(b, s', run[1..]);
      var slots, rest := Slots(b, s, run), Slots(b, s', run[1..]);
      if run[0].Ask? {
        assert slots[1..] == rest && AskTimes(run)[1..] == AskTimes(run[1..]);
        assert forall k :: 0 < k < |slots| ==> slots[k] == rest[k - 1] && AskTimes(run)[k] == AskTimes(run[1..])[k - 1];
      } else {
        assert slots == rest && AskTimes(run) == AskTimes(run[1..]);
      }
    }
  }

  /** Any stretch of slots that fits in a window of length T has at most
      T / min + 1 of them, whatever the clocks said and however the interval moved. */
  lemma {:induction false} WindowHoldsFew(b: Bounds, s: State, run: seq<Event>, i: nat, j: nat, T: nat)
    requires InBounds(b, s) && b.min > 0
    requires i <= j < |Slots(b, s, run)|
    requires Slots(b, s, run)[j] - Slots(b, s, run)[i] <= T
    ensures j - i + 1 <= T / b.min + 1
  {
    SpacedBy(b, s, run, i, j);
    DivisionBound(j - i, b.min, T);
  }

  lemma {:induction false} SpacedBy(b: Bounds, s: State, run: seq<Event>, i: nat, j: nat)
    requires InBounds(b, s)
    requires i <= j < |Slots(b, s, run)|
    ensures Slots(b, s, run)[j] >= Slots(b, s, run)[i] + (j - i) * b.min
    decreases j
  {
    if i < j {
      SpacedBy(b, s, run, i, j - 1);
      SlotsAreSpaced(b, s, run);
      assert Slots(b, s, run)[j - 1 + 1] >= Slots(b, s, run)[j - 1] + b.min;
      assert (j - i) * b.min == (j - 1 - i) * b.min + b.min;
    }
  }

  lemma DivisionBound(n: nat, m: nat, T: nat)
    requires m > 0 && n * m <= T
    ensures n <= T / m
  {
    var q := T / m;
    assert T < (q + 1) * m;
    MultiplesGrow(q + 1, n, m);
  }

  lemma {:induction false} MultiplesGrow(k: nat, n: nat, m: nat)
    ensures k <= n ==> k * m <= n * m
    decreases n
  {
  }

  // ------------------------------------------------------- slow on, slower off

  function Narrowed(b: Bounds, s: State, n: nat): State {
    if n == 0 then s else Narrow(b, Narrowed(b, s, n - 1))
  }

  lemma OneSuccess(b: Bounds, s: State)
    requires InBounds(b, s)
    ensures var x, y := s.interval, Narrow(b, s).interval;
            b.min <= y <= x && 8 * y >= 7 * x && (y == b.min || 8 * y <= 7 * x + 7)
  {
  }

  lemma {:induction false} Successes(b: Bounds, s: State, n: nat)
    requires InBounds(b, s) && n > 0
    ensures InBounds(b, Narrowed(b, s, n - 1)) && InBounds(b, Narrowed(b, s, n))
    ensures var x, y := Narrowed(b, s, n - 1).interval, Narrowed(b, s, n).interval;
            y <= x && 8 * y >= 7 * x && (y == b.min || 8 * y <= 7 * x + 7)
  {
    if n > 1 {
      Successes(b, s, n - 1);
    }
    OneSuccess(b, Narrowed(b, s, n - 1));
  }

  lemma {:induction false} SuccessesOnlyNarrow(b: Bounds, s: State, m: nat, n: nat)
    requires InBounds(b, s) && m <= n
    ensures Narrowed(b, s, n).interval <= Narrowed(b, s, m).interval
    decreases n
  {
    if m < n {
      Successes(b, s, n);
      SuccessesOnlyNarrow(b, s, m, n - 1);
    }
  }

  /** A widening that was not cut short by the ceiling outlasts five successes;
      the sixth undoes it, once intervals are long enough for integer division
      not to matter. */
  lemma {:induction false} RecoveryIsSlower(b: Bounds, s: State, n: nat)
    requires InBounds(b, s) && 0 < b.min && 2 * s.interval <= b.max
    ensures n <= 5 ==> Narrowed(b, Widen(b, s), n).interval > s.interval
    ensures n >= 6 && s.interval >= 64 ==> Narrowed(b, Widen(b, s), n).interval <= s.interval
  {
    var w := Widen(b, s);
    Successes(b, w, 1);
    Successes(b, w, 2);
    Successes(b, w, 3);
    Successes(b, w, 4);
    Successes(b, w, 5);
    Successes(b, w, 6);
    if n <= 5 {
      SuccessesOnlyNarrow(b, w, n, 5);
    } else {
      SuccessesOnlyNarrow(b, w, 6, n);
    }
  }

  // --------------------------------------------------------- one clock per host

  const PER_HOST_INTERVAL: nat := 1_000_000_000

  class Fetcher {
    var nextAt: map<string, nat>

    constructor ()
      ensures nextAt == map[]
    {
      nextAt := map[];
    }

    method WaitFor(host: string, now: nat) returns (delay: nat)
      modifies this
      ensures now + delay == Slot(Clock(old(nextAt), host), now)
      ensures nextAt == Contacted(old(nextAt), host, now)
      ensures delay == (if host in old(nextAt) && old(nextAt)[host] > now then old(nextAt)[host] - now else 0)
      ensures nextAt == old(nextAt)[host := now + delay + PER_HOST_INTERVAL]
    {
      var next := if host in nextAt then nextAt[host] else 0;
      var d := next - now;
      if d < 0 {
        d := 0;
      }
      nextAt := nextAt[host := now + d + PER_HOST_INTERVAL];
      delay := d;
    }
  }

  /** The host's clock, read as a gate whose interval never moves. */
  function Clock(nextAt: map<string, nat>, host: string): State {
    State(if host in nextAt then nextAt[host] else 0, PER_HOST_INTERVAL)
  }

  function Contacted(nextAt: map<string, nat>, host: string, now: nat): map<string, nat> {
    nextAt[host := Reserve(Clock(nextAt, host), now).next]
  }

  datatype Visit = Visit(host: string, now: nat)

  /** The slots one host is contacted at, over a run of visits to many hosts. */
  function HostSlots(nextAt: map<string, nat>, visits: seq<Visit>, host: string): seq<nat>
    decreases |visits|
  {
    if visits == [] then []
    else
      var v := visits[0];
      (if v.host == host then [Slot(Clock(nextAt, host), v.now)] else [])
      + HostSlots(Contacted(nextAt, v.host, v.now), visits[1..], host)
  }

  function AsksOf(visits: seq<Visit>, host: string): seq<Event>
    decreases |visits|
  {
    if visits == [] then []
    else (if visits[0].host == host then [Ask(visits[0].now)] else []) + AsksOf(visits[1..], host)
  }

  /** Other hosts do not disturb a host's clock: it behaves as a gate of its own. */
  lemma {:induction false} EachHostHasItsOwnGate(nextAt: map<string, nat>, visits: seq<Visit>, host: string)
    ensures HostSlots(nextAt, visits, host)
         == Slots(Bounds(PER_HOST_INTERVAL, PER_HOST_INTERVAL), Clock(nextAt, host), AsksOf(visits, host))
    decreases |visits|
  {
    if visits != [] {
      var v := visits[0];
      EachHostHasItsOwnGate(Contacted(nextAt, v.host, v.now), visits[1..], host);
      if v.host == host {
        assert AsksOf(visits, host)[1..] == AsksOf(visits[1..], host);
      } else {
        assert AsksOf(visits, host) == AsksOf(visits[1..], host);
      }
    }
  }

  /** No host is contacted twice within the per-host interval. */
  lemma {:induction false} HostContactsAreSpaced(visits: seq<Visit>, host: string, i: nat, j: nat)
    requires i < j < |HostSlots(map[], visits, host)|
    ensures HostSlots(map[], visits, host)[j] - HostSlots(map[], visits, host)[i] >= (j - i) * PER_HOST_INTERVAL
  {
    EachHostHasItsOwnGate(map[], visits, host);
    SpacedBy(Bounds(PER_HOST_INTERVAL, PER_HOST_INTERVAL), Clock(map[], host), AsksOf(visits, host), i, j);
  }
}
