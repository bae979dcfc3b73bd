/** internal/api/ratelimit.go: a token bucket per client, a cap on work in flight,
    and a table that forgets idle clients. Seconds and tokens are reals. */
module RateLimit {

  const MAX_IN_FLIGHT: nat := 4

  datatype Limits = Limits(rate: real, burst: real, ttl: real)

  datatype Bucket = Bucket(tokens: real, last: real, inFlight: nat)

  type Table = map<string, Bucket>

  function Gain(l: Limits, from: real, to: real): real {
    (to - from) * l.rate
  }

  function AtMost(cap: real, x: real): real {
    if x > cap then cap else x
  }

  function Refilled(l: Limits, b: Bucket, now: real): real {
    AtMost(l.burst, b.tokens + Gain(l, b.last, now))
  }

  predicate Idle(l: Limits, b: Bucket, now: real) {
    b.inFlight == 0 && now - b.last > l.ttl
  }

  function Swept(l: Limits, t: Table, now: real): Table {
    map c | c in t && !Idle(l, t[c], now) :: t[c]
  }

  /** May the client make one more request? forget says whether a miss sweeps. */
  function Admit(l: Limits, forget: bool, t: Table, c: string, now: real): (bool, Table) {
    if c !in t then
      (true, (if forget then Swept(l, t, now) else t)[c := Bucket(l.burst - 1.0, now, 0)])
    else
      var tokens := Refilled(l, t[c], now);
      if tokens < 1.0 then (false, t[c := t[c].(tokens := tokens, last := now)])
      else (true, t[c := t[c].(tokens := tokens - 1.0, last := now)])
  }

  function TakeSlot(l: Limits, t: Table, c: string, now: real): (bool, Table) {
    var held := if c in t then t[c] else Bucket(l.burst, now, 0);
    if held.inFlight >= MAX_IN_FLIGHT then (false, t[c := held])
    else (true, t[c := held.(inFlight := held.inFlight + 1)])
  }

  function FreeSlot(t: Table, c: string): Table {
    if c in t && t[c].inFlight > 0 then t[c := t[c].(inFlight := t[c].inFlight - 1)] else t
  }

  class RateLimiter {
    const limits: Limits
    var buckets: Table

    constructor (limits: Limits)
      ensures this.limits == limits && buckets == map[]
    {
      this.limits := limits;
      buckets := map[];
    }

    method Acquire(client: string, now: real) returns (ok: bool)
      modifies this
      ensures (ok, buckets) == TakeSlot(limits, old(buckets), client, now)
      ensures ok <==> (client in old(buckets) ==> old(buckets)[client].inFlight < 4)
      ensures client in buckets && InFlight(buckets, client) == InFlight(old(buckets), client) + if ok then 1 else 0
    {
      if client !in buckets {
        buckets := buckets[client := Bucket(limits.burst, now, 0)];
      }
      var held := buckets[client];
      if held.inFlight >= MAX_IN_FLIGHT {
        assert buckets[client := held] == buckets;
        return false;
      }
      buckets := buckets[client := held.(inFlight := held.inFlight + 1)];
      assert buckets == TakeSlot(limits, old(buckets), client, now).1;
      return true;
    }

    method Release(client: string)
      modifies this
      ensures buckets == FreeSlot(old(buckets), client)
      ensures InFlight(buckets, client) == if InFlight(old(buckets), client) > 0 then InFlight(old(buckets), client) - 1 else 0
    {
      if client in buckets && buckets[client].inFlight > 0 {
        buckets := buckets[client := buckets[client].(inFlight := buckets[client].inFlight - 1)];
      }
    }

    method Allow(client: string, now: real) returns (ok: bool)
      modifies this
      ensures (ok, buckets) == Admit(limits, true, old(buckets), client, now)
    {
      if client !in buckets {
        Sweep(now);
        buckets := buckets[client := Bucket(limits.burst - 1.0, now, 0)];
        return true;
      }
      var held := buckets[client];
      held := held.(tokens := Refilled(limits, held, now), last := now);
      buckets := buckets[client := held];
      if held.tokens < 1.0 {
        return false;
      }
      buckets := buckets[client := held.(tokens := held.tokens - 1.0)];
      assert buckets == Admit(limits, true, old(buckets), client, now).1;
      return true;
    }

    /** Drops buckets no one has used recently. */
    method Sweep(now: real)
      modifies this
      ensures buckets == Swept(limits, old(buckets), now)
      ensures forall c :: c in buckets <==>
                c in old(buckets) && (old(buckets)[c].inFlight > 0 || now - old(buckets)[c].last <= limits.ttl)
      ensures forall c :: c in buckets ==> buckets[c] == old(buckets)[c]
    {
      var clients := buckets.Keys;
      while clients != {}
        invariant clients <= buckets.Keys <= old(buckets).Keys
        invariant forall c :: c in buckets ==> buckets[c] == old(buckets)[c]
        invariant forall c :: c in old(buckets) && c !in clients ==>
                    (c in buckets <==> !Idle(limits, old(buckets)[c], now))
        decreases clients
      {
        var client :| client in clients;
        if Idle(limits, buckets[client], now) {
          buckets := buckets - {client};
        }
        clients := clients - {client};
      }
    }
  }

  // --------------------------------------------- what a client's account holds

  /** Tokens the client could spend at this instant; one never seen, or forgotten,
      has a full allowance. */
  function Level(l: Limits, t: Table, c: string, now: real): real {
    if c in t then Refilled(l, t[c], now) else l.burst
  }

  function InFlight(t: Table, c: string): nat {
    if c in t then t[c].inFlight else 0
  }

  ghost predicate Sane(l: Limits, t: Table, now: real) {
    forall c :: c in t ==> 0.0 <= t[c].tokens <= l.burst && t[c].last <= now
  }

  /** Settings under which a client idle long enough to be forgotten has a full
      allowance anyway. */
  predicate Refills(l: Limits) {
    l.burst >= 1.0 && l.rate >= 0.0 && l.rate * l.ttl >= l.burst
  }

  lemma GainLaws(l: Limits, a: real, b: real, c: real)
    requires l.rate >= 0.0 && a <= b <= c
    ensures Gain(l, a, c) == Gain(l, a, b) + Gain(l, b, c)
    ensures Gain(l, a, b) >= 0.0 && Gain(l, b, c) >= 0.0
  {
    NonNegative(b - a, l.rate);
    NonNegative(c - b, l.rate);
  }

  lemma NonNegative(a: real, b: real)
    requires a >= 0.0 && b >= 0.0
    ensures a * b >= 0.0
  {
  }

  lemma LevelLater(l: Limits, t: Table, c: string, now: real, later: real)
    requires l.rate >= 0.0 && Sane(l, t, now) && now <= later
    ensures Sane(l, t, later)
    ensures Level(l, t, c, later) == AtMost(l.burst, Level(l, t, c, now) + Gain(l, now, later))
  {
    if c in t {
      GainLaws(l, t[c].last, now, later);
    } else {
      GainLaws(l, now, now, later);
    }
  }

  lemma LevelBounds(l: Limits, t: Table, c: string, now: real)
    requires l.rate >= 0.0 && l.burst >= 0.0 && Sane(l, t, now)
    ensures 0.0 <= Level(l, t, c, now) <= l.burst
  {
    if c in t {
      GainLaws(l, t[c].last, now, now);
    }
  }

  /** Sweeping drops accounts but changes no client's level or work in flight. */
  lemma SweepIsInvisible(l: Limits, t: Table, d: string, now: real)
    requires Refills(l) && Sane(l, t, now)
    ensures Level(l, Swept(l, t, now), d, now) == Level(l, t, d, now)
    ensures InFlight(Swept(l, t, now), d) == InFlight(t, d)
    ensures Sane(l, Swept(l, t, now), now)
  {
    if d in t && Idle(l, t[d], now) {
      NonNegative(now - t[d].last - l.ttl, l.rate);
      assert Gain(l, t[d].last, now) == l.rate * l.ttl + (now - t[d].last - l.ttl) * l.rate;
    }
  }

  lemma NoGain(l: Limits, now: real)
    ensures Gain(l, now, now) == 0.0
  {
  }

  lemma AllowKnown(l: Limits, forget: bool, t: Table, c: string, d: string, now: real)
    requires l.burst >= 1.0 && l.rate >= 0.0 && Sane(l, t, now) && c in t
    ensures var (ok, t') := Admit(l, forget, t, c, now);
            && (ok <==> Level(l, t, c, now) >= 1.0)
            && Level(l, t', d, now) == Level(l, t, d, now) - (if ok && d == c then 1.0 else 0.0)
            && InFlight(t', d) == InFlight(t, d)
            && Sane(l, t', now)
  {
    LevelBounds(l, t, c, now);
    NoGain(l, now);
  }

  lemma AllowNew(l: Limits, forget: bool, t: Table, c: string, d: string, now: real)
    requires l.burst >= 1.0 && l.rate >= 0.0 && Sane(l, t, now) && c !in t
    requires forget ==> Refills(l)
    ensures var (ok, t') := Admit(l, forget, t, c, now);
            && ok && Level(l, t, c, now) == l.burst
            && Level(l, t', d, now) == Level(l, t, d, now) - (if d == c then 1.0 else 0.0)
            && InFlight(t', d) == InFlight(t, d)
            && Sane(l, t', now)
  {
    NoGain(l, now);
    if forget {
      SweepIsInvisible(l, t, d, now);
    }
  }

  lemma AllowEffect(l: Limits, forget: bool, t: Table, c: string, d: string, now: real)
    requires l.burst >= 1.0 && l.rate >= 0.0 && Sane(l, t, now)
    requires forget ==> Refills(l)
    ensures var (ok, t') := Admit(l, forget, t, c, now);
            && (ok <==> Level(l, t, c, now) >= 1.0)
            && Level(l, t', d, now) == Level(l, t, d, now) - (if ok && d == c then 1.0 else 0.0)
            && InFlight(t', d) == InFlight(t, d)
            && Sane(l, t', now)
  {
    if c in t {
      AllowKnown(l, forget, t, c, d, now);
    } else {
      AllowNew(l, forget, t, c, d, now);
    }
  }

  lemma AcquireEffect(l: Limits, t: Table, c: string, d: string, now: real)
    requires l.burst >= 1.0 && Sane(l, t, now)
    ensures var (ok, t') := TakeSlot(l, t, c, now);
            && (ok <==> InFlight(t, c) < MAX_IN_FLIGHT)
            && Level(l, t', d, now) == Level(l, t, d, now)
            && InFlight(t', d) == InFlight(t, d) + (if ok && d == c then 1 else 0)
            && Sane(l, t', now)
  {
  }

  // ------------------------------------------------------------------- runs

  datatype Event = Allows(client: string, now: real) | Acquires(client: string,
                          now: real) | Releases(client: string, now: real)

  function Step(l: Limits, forget: bool, t: Table, e: Event): (bool, Table) {
    match e
    case Allows(c, now) => Admit(l, forget, t, c, now)
    case Acquires(c, now) => TakeSlot(l, t, c, now)
    case Releases(c, _) => (true, FreeSlot(t, c))
  }

  function After(l: Limits, forget: bool, t: Table, run: seq<Event>): Table
    decreases |run|
  {
    if run == [] then t else After(l, forget, Step(l, forget, t, run[0]).1, run[1..])
  }

  function Answers(l: Limits, forget: bool, t: Table, run: seq<Event>): (answers: seq<bool>)
    ensures |answers| == |run|
    decreases |run|
  {
    if run == [] then []
    else var (ok, t') := Step(l, forget, t, run[0]); [ok] + Answers(l, forget, t', run[1..])
  }

  /** The clock never runs backwards, starting at now. */
  predicate InOrder(now: real, run: seq<Event>)
    decreases |run|
  {
    run == [] || (now <= run[0].now && InOrder(run[0].now, run[1..]))
  }

  ghost predicate SameAccounts(l: Limits, f: Table, r: Table, now: real) {
    && Sane(l, f, now) && Sane(l, r, now)
    && forall c :: Level(l, f, c, now) == Level(l, r, c, now) && InFlight(f, c) == InFlight(r, c)
  }

  lemma StepEffect(l: Limits, forget: bool, t: Table, e: Event, d: string, now: real)
    requires l.burst >= 1.0 && l.rate >= 0.0 && Sane(l, t, now) && now <= e.now
    requires forget ==> Refills(l)
    ensures var (ok, t') := Step(l, forget, t, e);
            && (e.Allows? ==> (ok <==> Level(l, t, e.client, e.now) >= 1.0))
            && (e.Acquires? ==> (ok <==> InFlight(t, e.client) < MAX_IN_FLIGHT))
            && (e.Releases? ==> ok)
            && Level(l, t', d, e.now) == Level(l, t, d, e.now) - (if e.Allows? && ok && d == e.client then 1.0 else 0.0)
            && InFlight(t', d) == (if d != e.client || !ok then InFlight(t, d)
                                   else if e.Acquires? then InFlight(t, d) + 1
                                   else if e.Releases? && InFlight(t, d) > 0 then InFlight(t, d) - 1
                                   else InFlight(t, d))
            && Sane(l, t', e.now)
  {
    LevelLater(l, t, d, now, e.now);
    match e
    case Allows(c, at) => AllowEffect(l, forget, t, c, d, at);
    case Acquires(c, at) => AcquireEffect(l, t, c, d, at);
    case Releases(c, at) =>
  }

  lemma SameAccountStep(l: Limits, f: Table, r: Table, e: Event, d: string, now: real)
    requires Refills(l) && SameAccounts(l, f, r, now) && now <= e.now
    ensures var (ok, f') := Step(l, true, f, e);
            var (ok', r') := Step(l, false, r, e);
            && ok == ok'
            && Level(l, f', d, e.now) == Level(l, r', d, e.now) && InFlight(f', d) == InFlight(r', d)
            && Sane(l, f', e.now) && Sane(l, r', e.now)
  {
    LevelLater(l, f, e.client, now, e.now);
    LevelLater(l, r, e.client, now, e.now);
    LevelLater(l, f, d, now, e.now);
    LevelLater(l, r, d, now, e.now);
    assert Level(l, f, e.client, now) == Level(l, r, e.client, now) && Level(l, f, d, now) == Level(l, r, d, now);
    StepEffect(l, true, f, e, d, now);
    StepEffect(l, false, r, e, d, now);
  }

  lemma SameAccountsStep(l: Limits, f: Table, r: Table, e: Event, now: real)
    requires Refills(l) && SameAccounts(l, f, r, now) && now <= e.now
    ensures Step(l, true, f, e).0 == Step(l, false, r, e).0
    ensures SameAccounts(l, Step(l, true, f, e).1, Step(l, false, r, e).1, e.now)
  {
    SameAccountStep(l, f, r, e, "", now);
    var f', r' := Step(l, true, f, e).1, Step(l, false, r, e).1;
    forall d ensures Level(l, f', d, e.now) == Level(l, r', d, e.now) && InFlight(f', d) == InFlight(r', d) {
      SameAccountStep(l, f, r, e, d, now);
    }
  }

  /** Forgetting clients changes no answer, over any run on any clock that does
      not run backwards. */
  lemma {:induction false} ForgettingIsUnobservable(l: Limits, f: Table, r: Table, run: seq<Event>, now: real)
    requires Refills(l) && SameAccounts(l, f, r, now) && InOrder(now, run)
    ensures Answers(l, true, f, run) == Answers(l, false, r, run)
    decreases |run|
  {
    if run != [] {
      SameAccountsStep(l, f, r, run[0], now);
      ForgettingIsUnobservable(l, Step(l, true, f, run[0]).1, Step(l, false, r, run[0]).1, run[1..], run[0].now);
    }
  }

  // -------------------------------------------------------- admission and cap

  function Admitted(run: seq<Event>, answers: seq<bool>, c: string): nat
    requires |answers| == |run|
  {
    if run == [] then 0
    else (if run[0] == Allows(c, run[0].now) && answers[0] then 1 else 0) + Admitted(run[1..], answers[1..], c)
  }

  predicate Until(end: real, run: seq<Event>) {
    run == [] || run[|run| - 1].now <= end
  }

  /** What one event costs a client's level is what it is admitted. */
  lemma LevelPays(l: Limits, t: Table, e: Event, c: string, now: real)
    requires Refills(l) && Sane(l, t, now) && now <= e.now
    ensures var (ok, t') := Step(l, true, t, e);
            && Sane(l, t', e.now)
            && (if e == Allows(c, e.now) && ok then 1.0 else 0.0) + Level(l, t', c, e.now)
               <= Level(l, t, c, now) + Gain(l, now, e.now)
  {
    LevelLater(l, t, c, now, e.now);
    StepEffect(l, true, t, e, c, now);
  }

  lemma {:induction false} AdmittedWithinLevel(l: Limits, t: Table, run: seq<Event>, c: string, now: real, end: real)
    requires Refills(l) && Sane(l, t, now) && InOrder(now, run) && Until(end, run) && now <= end
    ensures Admitted(run, Answers(l, true, t, run), c) as real <= Level(l, t, c, now) + Gain(l, now, end)
    decreases |run|
  {
    if run == [] {
      LevelBounds(l, t, c, now);
      GainLaws(l, now, now, end);
    } else {
      var e := run[0];
      var (ok, t') := Step(l, true, t, e);
      LevelPays(l, t, e, c, now);
      OrderBoundsFirst(run, now, end);
      AdmittedWithinLevel(l, t', run[1..], c, e.now, end);
      assert Answers(l, true, t, run)[1..] == Answers(l, true, t', run[1..]);
      GainLaws(l, now, e.now, end);
    }
  }

  lemma {:induction false} OrderBoundsFirst(run: seq<Event>, now: real, end: real)
    requires run != [] && InOrder(now, run) && Until(end, run)
    ensures run[0].now <= end && Until(end, run[1..])
    decreases |run|
  {
    if |run| > 1 {
      OrderBoundsFirst(run[1..], run[0].now, end);
    }
  }

  lemma {:induction false} RunStaysSane(l: Limits, forget: bool, t: Table, run: seq<Event>,
                                        now: real) returns (end: real)
    requires l.burst >= 1.0 && l.rate >= 0.0 && Sane(l, t, now) && InOrder(now, run)
    requires forget ==> Refills(l)
    ensures now <= end && (run != [] ==> end == run[|run| - 1].now) && (run == [] ==> end == now)
    ensures Sane(l, After(l, forget, t, run), end)
    decreases |run|
  {
    end := now;
    if run != [] {
      StepEffect(l, forget, t, run[0], "", now);
      end := RunStaysSane(l, forget, Step(l, forget, t, run[0]).1, run[1..], run[0].now);
    }
  }

  /** In any window of any run, sweeps and re-created buckets included, a client
      gets through at most a burst and what the rate brings in. */
  lemma {:induction false} WindowAdmitsBurstPlusRate(l: Limits, before: seq<Event>, window: seq<Event>, c: string,
                                                     start: real, a: real, b: real)
    requires Refills(l) && InOrder(start, before) && InOrder(a, window) && Until(b, window)
    requires start <= a <= b && Until(a, before)
    ensures var t := After(l, true, map[], before);
            Admitted(window, Answers(l, true, t, window), c) as real <= l.burst + Gain(l, a, b)
  {
    var end := RunStaysSane(l, true, map[], before, start);
    var t := After(l, true, map[], before);
    LevelLater(l, t, c, end, a);
    LevelBounds(l, t, c, a);
    AdmittedWithinLevel(l, t, window, c, a, b);
  }

  /** The same bound in figures. */
  lemma {:induction false} WindowInFigures(l: Limits, before: seq<Event>, window: seq<Event>, c: string,
                                           start: real, a: real, b: real)
    requires Refills(l) && InOrder(start, before) && InOrder(a, window) && Until(b, window)
    requires start <= a <= b && Until(a, before)
    ensures var answers := Answers(l, true, After(l, true, map[], before), window);
            Admitted(window, answers, c) as real <= l.burst + (b - a) * l.rate
  {
    WindowAdmitsBurstPlusRate(l, before, window, c, start, a, b);
  }

  /** Successful acquires less releases. */
  function Outstanding(run: seq<Event>, answers: seq<bool>, c: string): int
    requires |answers| == |run|
    decreases |run|
  {
    if run == [] then 0
    else
      var n := |run| - 1;
      Outstanding(run[..n], answers[..n], c)
      + if run[n].client != c then 0
        else if run[n].Acquires? && answers[n] then 1
        else if run[n].Releases? then -1
        else 0
  }

  /** The client never releases a slot it does not hold. */
  ghost predicate ReleasesWhatItHolds(run: seq<Event>, answers: seq<bool>, c: string)
    requires |answers| == |run|
  {
    forall n :: 0 <= n <= |run| ==> Outstanding(run[..n], answers[..n], c) >= 0
  }

  lemma {:induction false} LastStep(l: Limits, forget: bool, t: Table, run: seq<Event>)
    requires run != []
    ensures var n := |run| - 1;
            var s := Step(l, forget, After(l, forget, t, run[..n]), run[n]);
            && After(l, forget, t, run) == s.1
            && Answers(l, forget, t, run) == Answers(l, forget, t, run[..n]) + [s.0]
    decreases |run|
  {
    var n := |run| - 1;
    if n == 0 {
      assert run[..0] == [] && run[1..] == [];
    } else {
      LastStep(l, forget, Step(l, forget, t, run[0]).1, run[1..]);
      assert run[1..][..n - 1] == run[..n][1..];
    }
  }

  lemma CapStep(l: Limits, forget: bool, t: Table, e: Event, c: string)
    requires InFlight(t, c) <= MAX_IN_FLIGHT
    ensures var (ok, t') := Step(l, forget, t, e);
            && InFlight(t', c) <= MAX_IN_FLIGHT
            && InFlight(t', c) == if e.client != c then InFlight(t, c)
                                  else if e.Acquires? && ok then InFlight(t, c) + 1
                                  else if e.Releases? && InFlight(t, c) > 0 then InFlight(t, c) - 1
                                  else InFlight(t, c)
  {
  }

  /** Through any run, with any settings, the count kept for a client is what it
      has acquired and not released, and never above the cap. */
  lemma {:induction false} InFlightIsOutstanding(l: Limits, run: seq<Event>, c: string)
    requires ReleasesWhatItHolds(run, Answers(l, true, map[], run), c)
    ensures InFlight(After(l, true, map[], run), c) == Outstanding(run, Answers(l, true, map[], run), c)
    ensures InFlight(After(l, true, map[], run), c) <= MAX_IN_FLIGHT
    decreases |run|
  {
    if run != [] {
      var n := |run| - 1;
      var answers := Answers(l, true, map[], run);
      LastStep(l, true, map[], run);
      assert answers[..n] == Answers(l, true, map[], run[..n]);
      forall m | 0 <= m <= n ensures Outstanding(run[..n][..m], answers[..n][..m], c) >= 0 {
        assert run[..n][..m] == run[..m] && answers[..n][..m] == answers[..m];
      }
      InFlightIsOutstanding(l, run[..n], c);
      CapStep(l, true, After(l, true, map[], run[..n]), run[n], c);
      assert run[..|run|] == run && answers[..|run|] == answers;
    }
  }

  // ------------------------------------------- when forgetting would be noticed

  /** Requests of one client at the given times, as its level alone decides them. */
  function Plays(l: Limits, level: real, at: real, times: seq<real>): seq<bool>
    decreases |times|
  {
    if times == [] then []
    else
      var now := AtMost(l.burst, level + Gain(l, at, times[0]));
      [now >= 1.0] + Plays(l, if now >= 1.0 then now - 1.0 else now, times[0], times[1..])
  }

  predicate Rising(at: real, times: seq<real>)
    decreases |times|
  {
    times == [] || (at <= times[0] && Rising(times[0], times[1..]))
  }

  function Requests(c: string, times: seq<real>): seq<Event> {
    seq(|times|, k requires 0 <= k < |times| => Allows(c, times[k]))
  }

  /** The table knows the client's level from its bucket, or not at all. */
  ghost predicate Known(l: Limits, t: Table, c: string, at: real) {
    c in t ==> 0.0 <= t[c].tokens <= l.burst && t[c].last <= at
  }

  lemma OwnRequest(l: Limits, forget: bool, t: Table, c: string, at: real, now: real)
    requires l.burst >= 1.0 && l.rate >= 0.0 && Known(l, t, c, at) && at <= now
    ensures var level := AtMost(l.burst, Level(l, t, c, at) + Gain(l, at, now));
            var (ok, t') := Admit(l, forget, t, c, now);
            && (ok <==> level >= 1.0)
            && c in t' && t'[c].last == now && t'[c].inFlight == InFlight(t, c)
            && t'[c].tokens == (if ok then level - 1.0 else level)
            && Level(l, t', c, now) == t'[c].tokens
            && Known(l, t', c, now)
  {
    GainLaws(l, now, now, now);
    GainLaws(l, at, now, now);
    if c in t {
      GainLaws(l, t[c].last, at, now);
    }
  }

  lemma {:induction false} PlaysDecides(l: Limits, forget: bool, t: Table, c: string, at: real, times: seq<real>)
    requires l.burst >= 1.0 && l.rate >= 0.0 && Known(l, t, c, at) && Rising(at, times)
    ensures Answers(l, forget, t, Requests(c, times)) == Plays(l, Level(l, t, c, at), at, times)
    ensures InOrder(at, Requests(c, times))
    decreases |times|
  {
    if times != [] {
      OwnRequest(l, forget, t, c, at, times[0]);
      assert Requests(c, times)[1..] == Requests(c, times[1..]);
      PlaysDecides(l, forget, Admit(l, forget, t, c, times[0]).1, c, times[0], times[1..]);
    }
  }

  function IsRequestOf(e: Event, c: string): bool {
    e.Allows? && e.client == c
  }

  /** When the client asks, over a run of many clients. */
  function TimesOf(run: seq<Event>, c: string): seq<real>
    decreases |run|
  {
    if run == [] then [] else (if IsRequestOf(run[0], c) then [run[0].now] else []) + TimesOf(run[1..], c)
  }

  /** What it is answered. */
  function AnswersTo(run: seq<Event>, answers: seq<bool>, c: string): seq<bool>
    requires |answers| == |run|
    decreases |run|
  {
    if run == [] then []
    else (if IsRequestOf(run[0], c) then [answers[0]] else []) + AnswersTo(run[1..], answers[1..], c)
  }

  /** A level told at one instant, and what it is by another. */
  ghost predicate LevelBy(l: Limits, t: Table, c: string, now: real, level: real, at: real) {
    at <= now && 0.0 <= level <= l.burst && Level(l, t, c, now) == AtMost(l.burst, level + Gain(l, at, now))
  }

  lemma LevelByStep(l: Limits, t: Table, e: Event, c: string, now: real, level: real, at: real)
    requires Refills(l) && Sane(l, t, now) && now <= e.now && LevelBy(l, t, c, now, level, at)
    ensures var (ok, t') := Step(l, true, t, e);
            var held := AtMost(l.burst, level + Gain(l, at, e.now));
            && Sane(l, t', e.now)
            && (if IsRequestOf(e, c) then
                  (ok <==> held >= 1.0) && LevelBy(l, t', c, e.now, if ok then held - 1.0 else held, e.now)
                else LevelBy(l, t', c, e.now, level, at))
  {
    LevelLater(l, t, c, now, e.now);
    GainLaws(l, at, now, e.now);
    StepEffect(l, true, t, e, c, now);
    LevelBounds(l, t, c, now);
    NoGain(l, e.now);
  }

  lemma {:induction false} AnswersFollowTheLevel(l: Limits, t: Table, run: seq<Event>, c: string, now: real,
                                                 level: real, at: real)
    requires Refills(l) && Sane(l, t, now) && InOrder(now, run) && LevelBy(l, t, c, now, level, at)
    ensures AnswersTo(run, Answers(l, true, t, run), c) == Plays(l, level, at, TimesOf(run, c))
    decreases |run|
  {
    if run != [] {
      var e := run[0];
      var (ok, t') := Step(l, true, t, e);
      var held := AtMost(l.burst, level + Gain(l, at, e.now));
      LevelByStep(l, t, e, c, now, level, at);
      FirstAnswer(l, t, run, c);
      if IsRequestOf(e, c) {
        var left := if ok then held - 1.0 else held;
        AnswersFollowTheLevel(l, t', run[1..], c, e.now, left, e.now);
        PlaysFirst(l, level, at, e.now, TimesOf(run[1..], c));
        assert ok <==> held >= 1.0;
        assert Plays(l, level, at, TimesOf(run, c)) == [ok] + Plays(l, left, e.now, TimesOf(run[1..], c));
      } else {
        AnswersFollowTheLevel(l, t', run[1..], c, e.now, level, at);
      }
    }
  }

  lemma {:induction false} FirstAnswer(l: Limits, t: Table, run: seq<Event>, c: string)
    requires run != []
    ensures var (ok, t') := Step(l, true, t, run[0]);
            var rest := AnswersTo(run[1..], Answers(l, true, t', run[1..]), c);
            AnswersTo(run, Answers(l, true, t, run), c) == if IsRequestOf(run[0], c) then [ok] + rest else rest
    ensures var rest := TimesOf(run[1..], c);
            TimesOf(run, c) == if IsRequestOf(run[0], c) then [run[0].now] + rest else rest
  {
    var (ok, t') := Step(l, true, t, run[0]);
    assert Answers(l, true, t, run)[1..] == Answers(l, true, t', run[1..]);
  }

  lemma {:induction false} PlaysFirst(l: Limits, level: real, at: real, now: real, rest: seq<real>)
    ensures var held := AtMost(l.burst, level + Gain(l, at, now));
            Plays(l, level, at, [now] + rest) == [held >= 1.0] + Plays(l, if held >= 1.0 then held - 1.0 else held, now, rest)
  {
    assert ([now] + rest)[1..] == rest;
  }

  /** Among any other clients, with sweeps and forgotten buckets, a client is answered
      exactly as a meter of its own would: full at first, refilled at the rate up to
      the burst, one token for each request let through, a whole token needed. */
  lemma {:induction false} AnsweredAsIfAlone(l: Limits, run: seq<Event>, c: string, start: real)
    requires Refills(l) && InOrder(start, run)
    ensures AnswersTo(run, Answers(l, true, map[], run), c) == Plays(l, l.burst, start, TimesOf(run, c))
  {
    NoGain(l, start);
    AnswersFollowTheLevel(l, map[], run, c, start, l.burst, start);
  }

  /** The client asks no sooner than the rate takes to bring a token. */
  ghost predicate Rested(l: Limits, at: real, times: seq<real>)
    decreases |times|
  {
    times == [] || (Gain(l, at, times[0]) >= 1.0 && Rested(l, times[0], times[1..]))
  }

  lemma {:induction false} RestedIsAdmitted(l: Limits, level: real, at: real, times: seq<real>)
    requires l.burst >= 1.0 && 0.0 <= level <= l.burst && Rested(l, at, times)
    ensures |Plays(l, level, at, times)| == |times|
    ensures forall k :: 0 <= k < |times| ==> Plays(l, level, at, times)[k]
    decreases |times|
  {
    if times != [] {
      var held := AtMost(l.burst, level + Gain(l, at, times[0]));
      RestedIsAdmitted(l, held - 1.0, times[0], times[1..]);
    }
  }

  /** So a client whose requests are at least the time of one token apart is never
      refused, whatever the others do. */
  lemma {:induction false} RestedIsNeverRefused(l: Limits, run: seq<Event>, c: string, start: real)
    requires Refills(l) && InOrder(start, run)
    requires var times := TimesOf(run, c); times == [] || (start <= times[0] && RestedInFigures(l, times))
    ensures forall k :: 0 <= k < |AnswersTo(run, Answers(l, true, map[], run), c)| ==>
              AnswersTo(run, Answers(l, true, map[], run), c)[k]
  {
    var times := TimesOf(run, c);
    AnsweredAsIfAlone(l, run, c, start);
    if times != [] {
      RestedMeans(l, times);
      GainLaws(l, start, start, times[0]);
      var held := AtMost(l.burst, l.burst + Gain(l, start, times[0]));
      RestedIsAdmitted(l, held - 1.0, times[0], times[1..]);
    }
  }

  ghost predicate RestedInFigures(l: Limits, times: seq<real>) {
    forall k :: 0 < k < |times| ==> (times[k] - times[k - 1]) * l.rate >= 1.0
  }

  lemma {:induction false} RestedMeans(l: Limits, times: seq<real>)
    requires times != [] && RestedInFigures(l, times)
    ensures Rested(l, times[0], times[1..])
    decreases |times|
  {
    if |times| > 1 {
      assert (times[1] - times[0]) * l.rate >= 1.0;
      var rest := times[1..];
      forall k | 0 < k < |rest| ensures (rest[k] - rest[k - 1]) * l.rate >= 1.0 {
        assert rest[k] == times[k + 1] && rest[k - 1] == times[k + 1 - 1];
      }
      RestedMeans(l, rest);
    }
  }

  lemma Quotient(a: real, b: real)
    requires a >= 0.0 && b > 0.0
    ensures a / b >= 0.0 && (a / b) * b == a
    ensures a > 0.0 ==> a / b > 0.0
  {
  }

  lemma Wait(l: Limits, level: real, at: real) returns (now: real)
    requires l.burst >= 1.0 && l.rate > 0.0 && 0.0 <= level < 1.0
    ensures at <= now && Gain(l, at, now) == 1.0 - level
  {
    Quotient(1.0 - level, l.rate);
    now := at + (1.0 - level) / l.rate;
  }

  /** Two different levels can always be told apart by asking. */
  lemma {:induction false} LevelsShow(l: Limits, hi: real, lo: real, at: real) returns (times: seq<real>)
    requires l.burst >= 1.0 && l.rate > 0.0 && 0.0 <= lo < hi <= l.burst
    ensures Rising(at, times) && Plays(l, hi, at, times) != Plays(l, lo, at, times)
    decreases lo.Floor
  {
    GainLaws(l, at, at, at);
    if lo >= 1.0 {
      var rest := LevelsShow(l, hi - 1.0, lo - 1.0, at);
      times := [at] + rest;
      assert times[1..] == rest;
      assert Plays(l, hi, at, times) == [true] + Plays(l, hi - 1.0, at, rest);
      assert Plays(l, lo, at, times) == [true] + Plays(l, lo - 1.0, at, rest);
      assert Plays(l, hi, at, times)[1..] != Plays(l, lo, at, times)[1..];
    } else if hi >= 1.0 {
      times := [at];
      assert Plays(l, hi, at, times)[0] && !Plays(l, lo, at, times)[0];
    } else {
      var now := Wait(l, hi, at);
      times := [now];
      assert Plays(l, hi, at, times)[0] && !Plays(l, lo, at, times)[0];
    }
  }

  ghost predicate OnlyOne(l: Limits, t: Table, c: string, at: real, tokens: real) {
    t == map[c := Bucket(tokens, at, 0)]
  }

  /** A client alone in the table can spend its allowance to the last drop. */
  lemma {:induction false} Drain(l: Limits, t: Table, c: string, at: real, tokens: real)
    returns (times: seq<real>, end: real)
    requires l.burst >= 1.0 && l.rate > 0.0 && 0.0 <= tokens <= l.burst
    requires OnlyOne(l, t, c, at, tokens)
    ensures Rising(at, times) && (times != [] ==> times[|times| - 1] == end) && at <= end
    ensures times != []
    ensures forall forget :: OnlyOne(l, After(l, forget, t, Requests(c, times)), c, end, 0.0)
    decreases tokens.Floor
  {
    GainLaws(l, at, at, at);
    if tokens >= 1.0 {
      var t' := map[c := Bucket(tokens - 1.0, at, 0)];
      var rest;
      rest, end := Drain(l, t', c, at, tokens - 1.0);
      times := [at] + rest;
      assert Requests(c, times)[1..] == Requests(c, rest);
      assert forall forget :: Step(l, forget, t, Requests(c, times)[0]).1 == t';
    } else {
      end := Wait(l, tokens, at);
      times := [end];
      assert Requests(c, times)[1..] == [];
      assert forall forget :: Step(l, forget, t, Requests(c, times)[0]).1 == map[c := Bucket(0.0, end, 0)];
    }
  }

  lemma {:induction false} RunsConcatenate(l: Limits, forget: bool, t: Table, a: seq<Event>, b: seq<Event>)
    ensures After(l, forget, t, a + b) == After(l, forget, After(l, forget, t, a), b)
    ensures Answers(l, forget, t, a + b) == Answers(l, forget, t, a) + Answers(l, forget, After(l, forget, t, a), b)
    decreases |a|
  {
    if a == [] {
      assert a + b == b;
    } else {
      assert (a + b)[1..] == a[1..] + b;
      RunsConcatenate(l, forget, Step(l, forget, t, a[0]).1, a[1..], b);
    }
  }

  lemma {:induction false} OrdersConcatenate(now: real, a: seq<Event>, mid: real, b: seq<Event>)
    requires InOrder(now, a) && now <= mid && Until(mid, a) && InOrder(mid, b)
    ensures InOrder(now, a + b)
    decreases |a|
  {
    if a == [] {
      assert a + b == b;
    } else {
      assert (a + b)[1..] == a[1..] + b;
      OrderBoundsFirst(a, now, mid);
      OrdersConcatenate(a[0].now, a[1..], mid, b);
    }
  }

  /** A run that leaves the client with nothing, and the table with nobody else. */
  lemma Spent(l: Limits, c: string) returns (run: seq<Event>, end: real)
    requires l.burst >= 1.0 && l.rate > 0.0
    ensures InOrder(0.0, run) && Until(end, run) && 0.0 <= end
    ensures forall forget :: After(l, forget, map[], run) == map[c := Bucket(0.0, end, 0)]
  {
    var first := [Allows(c, 0.0)];
    var t: Table := map[c := Bucket(l.burst - 1.0, 0.0, 0)];
    assert first[1..] == [];
    assert forall forget :: Step(l, forget, map[], first[0]).1 == t;
    var times;
    times, end := Drain(l, t, c, 0.0, l.burst - 1.0);
    var rest := Requests(c, times);
    run := first + rest;
    PlaysDecides(l, true, t, c, 0.0, times);
    OrdersConcatenate(0.0, first, 0.0, rest);
    forall forget ensures After(l, forget, map[], run) == map[c := Bucket(0.0, end, 0)] {
      RunsConcatenate(l, forget, map[], first, rest);
      assert OnlyOne(l, After(l, forget, t, rest), c, end, 0.0);
    }
  }

  /** How long to leave the client idle: past the idle time, short of a refill. */
  lemma IdleLongEnough(l: Limits, end: real) returns (at: real)
    requires l.rate > 0.0 && l.ttl >= 0.0 && l.rate * l.ttl < l.burst
    ensures at - end > l.ttl && 0.0 <= Gain(l, end, at) < l.burst
  {
    var room := (l.burst - l.rate * l.ttl) / 2.0;
    Quotient(room, l.rate);
    at := end + l.ttl + room / l.rate;
    NonNegative(l.ttl, l.rate);
    assert Gain(l, end, at) == l.ttl * l.rate + (room / l.rate) * l.rate;
  }

  /** A run ending with the idle client swept by another's first request. */
  lemma IdleAndSwept(l: Limits, c: string, d: string) returns (run: seq<Event>, at: real)
    requires l.burst >= 1.0 && l.rate > 0.0 && l.ttl >= 0.0 && l.rate * l.ttl < l.burst && c != d
    ensures InOrder(0.0, run) && Until(at, run) && 0.0 <= at
    ensures c !in After(l, true, map[], run)
    ensures var r := After(l, false, map[], run); Known(l, r, c, at) && 0.0 <= Level(l, r, c, at) < l.burst
  {
    var before, end := Spent(l, c);
    at := IdleLongEnough(l, end);
    var last := [Allows(d, at)];
    run := before + last;
    RunsConcatenate(l, true, map[], before, last);
    RunsConcatenate(l, false, map[], before, last);
    OrdersConcatenate(0.0, before, at, last);
    assert last[1..] == [];
  }

  /** The condition is exact: with an allowance that outlasts the idle time, some
      run is answered differently because a client was forgotten. */
  lemma ForgettingShowsOtherwise(l: Limits, c: string, d: string) returns (run: seq<Event>)
    requires l.burst >= 1.0 && l.rate > 0.0 && l.ttl >= 0.0 && c != d
    requires l.rate * l.ttl < l.burst
    ensures InOrder(0.0, run) && Answers(l, true, map[], run) != Answers(l, false, map[], run)
  {
    var before, at := IdleAndSwept(l, c, d);
    var f, r := After(l, true, map[], before), After(l, false, map[], before);
    var times := LevelsShow(l, l.burst, Level(l, r, c, at), at);
    var asks := Requests(c, times);
    PlaysDecides(l, true, f, c, at, times);
    PlaysDecides(l, false, r, c, at, times);
    run := before + asks;
    RunsConcatenate(l, true, map[], before, asks);
    RunsConcatenate(l, false, map[], before, asks);
    OrdersConcatenate(0.0, before, at, asks);
    assert Answers(l, true, map[], run)[|before|..] == Answers(l, true, f, asks);
    assert Answers(l, false, map[], run)[|before|..] == Answers(l, false, r, asks);
  }

  /** Forgetting is unobservable from the start exactly when an idle client's
      allowance is sure to be full again before it is forgotten. */
  lemma {:induction false} ForgettingUnobservableIff(l: Limits)
    requires l.burst >= 1.0 && l.rate > 0.0 && l.ttl >= 0.0
    ensures (forall run :: InOrder(0.0, run) ==> Answers(l, true, map[], run) == Answers(l, false, map[], run))
            <==> l.rate * l.ttl >= l.burst
  {
    if l.rate * l.ttl >= l.burst {
      forall run | InOrder(0.0, run) ensures Answers(l, true, map[], run) == Answers(l, false, map[], run) {
        ForgettingIsUnobservable(l, map[], map[], run, 0.0);
      }
    } else {
      var run := ForgettingShowsOtherwise(l, "a", "b");
    }
  }
}
