/** Sweepers that claim, read, record and die, and visitors' reads that ignore the
    claims: internal/postgres/sweeps.go, ClaimDueSites, TargetsNear, RecordScrape;
    internal/command/sweep_loop.go; internal/api/scrape.go. */
module Leases {
  import opened Schedule
  import opened Sites

  const LEASE: int := 30 * MINUTE
  const JOB_TIMEOUT: int := 15 * MINUTE

  /** A site in a sweeper's hands until its lease lapses, with the state it was
      handed. */
  datatype Hold = Hold(sweeper: nat, site: string, until: int, state: State)

  /** A site being read for a visitor, with the state it was found in. */
  datatype Errand = Errand(reader: nat, site: string, state: State)

  datatype System = System(rows: SiteTable, held: set<Hold>, errands: set<Errand>)

  const NOTHING := System(map[], {}, {})

  /** What happens, and when. A read is recorded under the instant it started. */
  datatype Event =
    | Discover(placed: set<string>, at: int)
    | Claim(sweeper: nat, limit: nat, locked: set<string>, batch: set<string>, placed: set<string>, at: int)
    | Record(hold: Hold, record: Sites.Record, close: Option<int>, started: int, at: int)
    | Die(who: nat, at: int)
    | SetOut(reader: nat, site: string, at: int)
    | Return(errand: Errand, record: Sites.Record, close: Option<int>, started: int, at: int)

  /** A recorded read carries the schedule's plan, made from the state its reader
      was given; a visitor's job is cut off after its timeout. */
  ghost predicate Enabled(s: System, e: Event) {
    match e
    case Discover(_, _) => true
    case Claim(_, limit, locked, batch, _, at) => IsBatch(s.rows, at, limit, locked, batch)
    case Record(h, r, close, started, _) =>
      h in s.held && r.site == h.site && r.plan == Next(h.state, r.outcome, close, started)
    case Die(_, _) => true
    case SetOut(_, site, _) => site in s.rows && !s.rows[site].parked
    case Return(x, r, close, started, at) =>
      && x in s.errands && r.site == x.site && r.plan == Next(x.state, r.outcome, close, started)
      && started <= at <= started + JOB_TIMEOUT
  }

  function Handed(t: SiteTable, sweeper: nat, sites: set<string>, until: int): set<Hold> {
    set site | site in sites && site in t :: Hold(sweeper, site, until, StateOf(t[site]))
  }

  ghost function Step(s: System, e: Event): System
    requires Enabled(s, e)
  {
    match e
    case Discover(placed, at) => s.(rows := Discovered(s.rows, placed, at))
    case Claim(sweeper, _, _, batch, placed, at) =>
      s.(rows := Claimed(s.rows, batch, at + LEASE),
         held := s.held + Handed(s.rows, sweeper, batch * placed, at + LEASE))
    case Record(h, r, _, started, _) => s.(rows := Recorded(s.rows, r, started), held := s.held - {h})
    case Die(who, _) =>
      s.(held := (set h | h in s.held && h.sweeper != who), errands := (set x | x in s.errands && x.reader != who))
    case SetOut(reader, site, _) => s.(errands := s.errands + {Errand(reader, site, StateOf(s.rows[site]))})
    case Return(x, r, _, started, _) => s.(rows := Recorded(s.rows, r, started), errands := s.errands - {x})
  }

  ghost predicate Possible(s: System, run: seq<Event>)
    decreases |run|
  {
    run == [] || (Enabled(s, run[0]) && Possible(Step(s, run[0]), run[1..]))
  }

  ghost function After(s: System, run: seq<Event>): System
    requires Possible(s, run)
    decreases |run|
  {
    if run == [] then s else After(Step(s, run[0]), run[1..])
  }

  // ------------------------------------------------------------------- exclusion

  /** When the next claim is made, no one alive still holds a site beyond its lease:
      what they read, they recorded in time. */
  predicate Timely(s: System, e: Event) {
    e.Claim? ==> forall h :: h in s.held ==> e.at < h.until
  }

  /** The clock does not run backwards, and every claim is timely. */
  ghost predicate Punctual(s: System, clock: int, run: seq<Event>)
    requires Possible(s, run)
    decreases |run|
  {
    run == []
    || (clock <= run[0].at && Timely(s, run[0]) && Punctual(Step(s, run[0]), run[0].at, run[1..]))
  }

  /** A visitor's read leaves a site that a sweeper holds parked, or due no sooner
      than the lease lapses. */
  predicate Unobtrusive(s: System, e: Event) {
    e.Return? ==> forall h :: h in s.held && h.site == e.record.site ==> e.record.plan.park || h.until <= e.record.plan.dueAt
  }

  ghost predicate Careful(s: System, run: seq<Event>)
    requires Possible(s, run)
    decreases |run|
  {
    run == [] || (Timely(s, run[0]) && Unobtrusive(s, run[0]) && Careful(Step(s, run[0]), run[1..]))
  }

  ghost predicate Guarded(s: System, h: Hold) {
    h.site in s.rows && (s.rows[h.site].parked || h.until <= s.rows[h.site].nextDue)
  }

  ghost predicate Exclusive(s: System) {
    && (forall h :: h in s.held ==> Guarded(s, h))
    && (forall h, k :: h in s.held && k in s.held && h.site == k.site ==> h == k)
  }

  lemma BatchIsDue(s: System, e: Event, site: string)
    requires Enabled(s, e)
    ensures e.Claim? && site in e.batch ==> site in s.rows && Due(s.rows[site], e.at)
  {
  }

  lemma StepKeepsExclusive(s: System, e: Event)
    requires Exclusive(s) && Enabled(s, e) && Timely(s, e) && Unobtrusive(s, e)
    ensures Exclusive(Step(s, e))
  {
  }

  /** Whoever claims, records or dies, no site is in two sweepers' hands at once,
      as long as those alive record within the lease and no visitor's read makes a
      held site due again before it lapses. */
  lemma {:induction false} NoSiteInTwoHands(s: System, run: seq<Event>)
    requires Exclusive(s) && Possible(s, run) && Careful(s, run)
    ensures Exclusive(After(s, run))
    decreases |run|
  {
    if run != [] {
      StepKeepsExclusive(s, run[0]);
      NoSiteInTwoHands(Step(s, run[0]), run[1..]);
    }
  }

  // ------------------------------------------------- when a visitor's read breaks it

  /** Every state in the table or in someone's hands is one the schedule made, or a
      new site's; and no lease runs longer than one made now. */
  ghost predicate Sound(s: System, clock: int) {
    && (forall site :: site in s.rows ==> Reasonable(StateOf(s.rows[site])))
    && (forall h :: h in s.held ==> Reasonable(h.state) && h.until <= clock + LEASE)
    && (forall x :: x in s.errands ==> Reasonable(x.state))
  }

  lemma StepKeepsSound(s: System, clock: int, e: Event)
    requires Sound(s, clock) && Enabled(s, e) && clock <= e.at
    ensures Sound(Step(s, e), e.at)
  {
    if e.Record? {
      PlanIsSound(e.hold.state, e.record.outcome, e.close, e.started);
    } else if e.Return? {
      PlanIsSound(e.errand.state, e.record.outcome, e.close, e.started);
    }
  }

  /** The visitor's read succeeded, and the soonest listing of the site closes so
      that its recheck falls after the read began and before the lease lapses. */
  predicate ClosesWithin(e: Event, h: Hold)
    requires e.Return?
  {
    e.record.outcome != Failed && e.close.Some? && e.started < e.close.value + RECHECK_AFTER_CLOSE < h.until
  }

  /** The schedule leaves a site unparked and due before an instant up to twelve
      hours out exactly for a closing date: any other plan is further out. */
  lemma OnlyAClosingDateOpensIt(state: State, outcome: Outcome, close: Option<int>, now: int, until: int)
    requires Reasonable(state) && until <= now + 12 * HOUR
    ensures var p := Next(state, outcome, close, now);
            !p.park && p.dueAt < until
            <==> outcome != Failed && close.Some? && now < close.value + RECHECK_AFTER_CLOSE < until
  {
    BackoffBounds(state.failures + 1);
  }

  /** Another sweeper's claim that takes the held site while its lease is in force. */
  ghost predicate TakesToo(s: System, clock: int, h: Hold, c: Event) {
    && c.Claim? && c.sweeper != h.sweeper
    && clock <= c.at < h.until
    && Enabled(s, c) && h.site in c.batch * c.placed
  }

  ghost predicate CouldBeClaimedTwice(s: System, clock: int, h: Hold) {
    exists c :: TakesToo(s, clock, h, c)
  }

  /** The claim of one site, the others locked, at the given instant. */
  function ClaimOf(s: System, sweeper: nat, site: string, at: int): Event {
    Claim(sweeper, 1, s.rows.Keys - {site}, {site}, {site}, at)
  }

  lemma ClaimOfIsPossible(s: System, sweeper: nat, site: string, at: int)
    requires site in s.rows && Due(s.rows[site], at)
    ensures Enabled(s, ClaimOf(s, sweeper, site, at))
  {
    assert Free(s.rows, at, s.rows.Keys - {site}) == {site};
  }

  /** A visitor's read of a held site opens it to a second claim, while the lease is
      in force, exactly when a listing closes within. */
  lemma ErrandOpensTheSiteIff(s: System, clock: int, h: Hold, e: Event)
    requires Sound(s, clock) && h in s.held && e.Return? && Enabled(s, e) && clock <= e.at && e.errand.site == h.site
    ensures CouldBeClaimedTwice(Step(s, e), e.at, h) <==> e.at < h.until && ClosesWithin(e, h)
  {
    var s', plan := Step(s, e), e.record.plan;
    OnlyAClosingDateOpensIt(e.errand.state, e.record.outcome, e.close, e.started, h.until);
    if e.at < h.until && ClosesWithin(e, h) {
      var c := SecondClaim(s, clock, h, e);
    }
    if CouldBeClaimedTwice(s', e.at, h) {
      var c :| TakesToo(s', e.at, h, c);
      BatchIsDue(s', c, h.site);
    }
  }

  /** Whenever it does, another sweeper's claim, no earlier than the return and within
      the lease, puts the site in two hands. */
  lemma SecondClaim(s: System, clock: int, h: Hold, e: Event) returns (c: Event)
    requires Sound(s, clock) && h in s.held && e.Return? && Enabled(s, e) && clock <= e.at && e.errand.site == h.site
    requires e.at < h.until && ClosesWithin(e, h)
    ensures TakesToo(Step(s, e), e.at, h, c)
    ensures c.at == (if e.record.plan.dueAt < e.at then e.at else e.record.plan.dueAt)
    ensures var s'' := Step(Step(s, e), c);
            && h in s''.held
            && (exists k :: k in s''.held && k.site == h.site && k.sweeper == c.sweeper && c.at < k.until)
            && !Exclusive(s'')
  {
    OnlyAClosingDateOpensIt(e.errand.state, e.record.outcome, e.close, e.started, h.until);
    var s', dueAt := Step(s, e), e.record.plan.dueAt;
    var at := if dueAt < e.at then e.at else dueAt;
    c := ClaimOf(s', h.sweeper + 1, h.site, at);
    ClaimOfIsPossible(s', h.sweeper + 1, h.site, at);
    var k := Hold(h.sweeper + 1, h.site, at + LEASE, StateOf(s'.rows[h.site]));
    assert h.site in {h.site} * {h.site};
    assert k in Handed(s'.rows, h.sweeper + 1, {h.site} * {h.site}, at + LEASE);
  }

  /** No visitor's read returns to a held site with a listing that closes within its
      lease. */
  ghost predicate NoneCloses(s: System, run: seq<Event>)
    requires Possible(s, run)
    decreases |run|
  {
    run == []
    || ((run[0].Return? ==> forall h :: h in s.held && h.site == run[0].errand.site ==> !ClosesWithin(run[0], h))
        && NoneCloses(Step(s, run[0]), run[1..]))
  }

  lemma {:induction false} NoneClosesIsCareful(s: System, clock: int, run: seq<Event>)
    requires Sound(s, clock) && Possible(s, run) && Punctual(s, clock, run)
    ensures NoneCloses(s, run) <==> Careful(s, run)
    decreases |run|
  {
    if run != [] {
      StepKeepsSound(s, clock, run[0]);
      NoneClosesIsCareful(Step(s, run[0]), run[0].at, run[1..]);
      UnobtrusiveIffNoneCloses(s, clock, run[0]);
    }
  }

  lemma UnobtrusiveIffNoneCloses(s: System, clock: int, e: Event)
    requires Sound(s, clock) && Enabled(s, e) && clock <= e.at
    ensures Unobtrusive(s, e)
       <==> (e.Return? ==> forall h :: h in s.held && h.site == e.errand.site ==> !ClosesWithin(e, h))
  {
    if e.Return? {
      forall h | h in s.held && h.site == e.errand.site
        ensures (e.record.plan.park || h.until <= e.record.plan.dueAt) <==> !ClosesWithin(e, h)
      {
        OnlyAClosingDateOpensIt(e.errand.state, e.record.outcome, e.close, e.started, h.until);
      }
    }
  }

  /** So exclusion holds over every run on a clock that does not run backwards, with
      every surviving read recorded within its lease, unless a visitor's read returns
      to a held site of which a listing closes within the lease. */
  lemma {:induction false} NoSiteInTwoHandsUnlessOneCloses(s: System, clock: int, run: seq<Event>)
    requires Exclusive(s) && Sound(s, clock)
    requires Possible(s, run) && Punctual(s, clock, run) && NoneCloses(s, run)
    ensures Exclusive(After(s, run))
  {
    NoneClosesIsCareful(s, clock, run);
    NoSiteInTwoHands(s, run);
  }

  // ------------------------------------------------------------- and it does break

  function OneSite(site: string, row: SiteRow, held: set<Hold>, errands: set<Errand>): System {
    System(map[site := row], held, errands)
  }

  lemma ClaimsAlone(site: string, row: SiteRow, held: set<Hold>, errands: set<Errand>, sweeper: nat, at: int)
    requires Due(row, at)
    ensures var s := OneSite(site, row, held, errands);
            var e := ClaimOf(s, sweeper, site, at);
            && Enabled(s, e)
            && Step(s, e) == OneSite(site, row.(nextDue := at + LEASE, dueReason := ClaimedBySweep),
                                     held + {Hold(sweeper, site, at + LEASE, StateOf(row))}, errands)
  {
    var s := OneSite(site, row, held, errands);
    ClaimOfIsPossible(s, sweeper, site, at);
    assert {site} * {site} == {site};
    assert Handed(s.rows, sweeper, {site}, at + LEASE) == {Hold(sweeper, site, at + LEASE, StateOf(row))};
    assert Claimed(s.rows, {site}, at + LEASE) == map[site := row.(nextDue := at + LEASE, dueReason := ClaimedBySweep)];
  }

  /** From nothing, for any site: it is discovered, a visitor sets out, a sweeper
      claims it, the visitor's read comes back with a listing that closed just under a
      day before, and a second sweeper claims the site. No clock ran backwards, no
      lease was overrun, and both are in force at the end. */
  lemma {:induction false} TwoHandsOnOneSite(site: string) returns (run: seq<Event>, h: Hold, k: Hold)
    ensures Possible(NOTHING, run) && Punctual(NOTHING, 0, run)
    ensures |run| == 5 && run[3].Return? && run[3].errand.site == site && ClosesWithin(run[3], h)
    ensures (forall i :: 0 <= i < 5 && i != 3 ==> !run[i].Return?)
    ensures h in After(NOTHING, run).held && k in After(NOTHING, run).held
    ensures h.site == k.site == site && h.sweeper != k.sweeper && run[4].at < h.until && run[4].at < k.until
  {
    var discover, setOut, s2 := BeforeTheClaim(site, 0);
    var first, back, second, s3, s4, mine, yours := ClaimedAround(site, s2);
    run, h, k := [discover, setOut, first, back, second], mine, yours;
    FiveSteps(discover, setOut, first, back, second, Step(NOTHING, discover), s2, s3, s4);
  }

  lemma BeforeTheClaim(site: string, at: int) returns (discover: Event, setOut: Event, s: System)
    ensures discover == Discover({site}, at) && setOut == SetOut(9, site, at)
    ensures Enabled(Step(NOTHING, discover), setOut) && Step(Step(NOTHING, discover), setOut) == s
    ensures s == OneSite(site, NewRow(at), {}, {Errand(9, site, StateOf(NewRow(at)))})
  {
    discover, setOut := Discover({site}, at), SetOut(9, site, at);
    DiscoversAlone(site, at);
    SetsOutAlone(site, NewRow(at), 9, at);
    s := Step(Step(NOTHING, discover), setOut);
  }

  lemma ClaimedAround(site: string, s2: System)
    returns (first: Event, back: Event, second: Event, s3: System, s4: System, h: Hold, k: Hold)
    requires s2 == OneSite(site, NewRow(0), {}, {Errand(9, site, StateOf(NewRow(0)))})
    ensures Enabled(s2, first) && Step(s2, first) == s3 && Enabled(s3, back) && Step(s3, back) == s4 && Enabled(s4, second)
    ensures first.Claim? && back.Return? && second.Claim? && first.at == 0 && back.at == MINUTE && second.at == 2 * MINUTE
    ensures back.errand.site == site && ClosesWithin(back, h) && s4.held == {h}
    ensures h in Step(s4, second).held && k in Step(s4, second).held
    ensures h.site == k.site == site && h.sweeper != k.sweeper && second.at < h.until && second.at < k.until
  {
    var row, x := NewRow(0), Errand(9, site, StateOf(NewRow(0)));
    var plan := Next(x.state, Unchanged, Some(2 * MINUTE - DAY), MINUTE);
    var record := Sites.Record(site, plan, Unchanged, 1, "", "", "", "");
    first, h := ClaimOf(s2, 1, site, 0), Hold(1, site, LEASE, x.state);
    ClaimsAlone(site, row, {}, {x}, 1, 0);
    assert {} + {h} == {h};
    s3 := Step(s2, first);
    back := Return(x, record, Some(2 * MINUTE - DAY), MINUTE, MINUTE);
    ReturnsAlone(site, s3.rows[site], h, back);
    s4 := Step(s3, back);
    second, k := ClaimOf(s4, 2, site, 2 * MINUTE), Hold(2, site, 2 * MINUTE + LEASE, Remembered(plan));
    ClaimsAlone(site, s4.rows[site], {h}, {}, 2, 2 * MINUTE);
  }

  lemma DiscoversAlone(site: string, at: int)
    ensures Step(NOTHING, Discover({site}, at)) == OneSite(site, NewRow(at), {}, {})
  {
    assert Discovered(map[], {site}, at) == map[site := NewRow(at)];
  }

  lemma SetsOutAlone(site: string, row: SiteRow, reader: nat, at: int)
    requires !row.parked
    ensures var s := OneSite(site, row, {}, {});
            && Enabled(s, SetOut(reader, site, at))
            && Step(s, SetOut(reader, site, at)) == OneSite(site, row, {}, {Errand(reader, site, StateOf(row))})
  {
  }

  lemma ReturnsAlone(site: string, row: SiteRow, h: Hold, e: Event)
    requires e.Return? && e.errand.site == site == e.record.site
    requires Enabled(OneSite(site, row, {h}, {e.errand}), e)
    ensures var s := OneSite(site, row, {h}, {e.errand});
            Step(s, e) == OneSite(site, Recorded(s.rows, e.record, e.started)[site], {h}, {})
  {
    var t := map[site := row];
    assert Recorded(t, e.record, e.started) == map[site := Recorded(t, e.record, e.started)[site]];
    assert {e.errand} - {e.errand} == {};
  }

  lemma {:induction false} FiveSteps(a: Event, b: Event, c: Event, d: Event, e: Event,
                                     s1: System, s2: System, s3: System, s4: System)
    requires Enabled(NOTHING, a) && Step(NOTHING, a) == s1 && Enabled(s1, b) && Step(s1, b) == s2
    requires Enabled(s2, c) && Step(s2, c) == s3 && Enabled(s3, d) && Step(s3, d) == s4 && Enabled(s4, e)
    requires Timely(NOTHING, a) && Timely(s1, b) && Timely(s2, c) && Timely(s3, d) && Timely(s4, e)
    requires 0 <= a.at <= b.at <= c.at <= d.at <= e.at
    ensures Possible(NOTHING, [a, b, c, d, e]) && Punctual(NOTHING, 0, [a, b, c, d, e])
    ensures After(NOTHING, [a, b, c, d, e]) == Step(s4, e)
  {
    OneMore(s4, d.at, e, []);
    OneMore(s3, c.at, d, [e]);
    OneMore(s2, b.at, c, [d, e]);
    OneMore(s1, a.at, b, [c, d, e]);
    OneMore(NOTHING, 0, a, [b, c, d, e]);
    assert [e] + [] == [e] && [d] + [e] == [d, e] && [c] + [d, e] == [c, d, e] && [b] + [c, d, e] == [b, c, d, e];
    assert [a] + [b, c, d, e] == [a, b, c, d, e];
  }

  lemma {:induction false} OneMore(s: System, clock: int, e: Event, rest: seq<Event>)
    requires Enabled(s, e) && Possible(Step(s, e), rest)
    requires clock <= e.at && Timely(s, e) && Punctual(Step(s, e), e.at, rest)
    ensures Possible(s, [e] + rest) && Punctual(s, clock, [e] + rest)
    ensures After(s, [e] + rest) == After(Step(s, e), rest)
  {
    assert ([e] + rest)[1..] == rest;
  }

  // ---------------------------------------------------------- the dead, the parked

  /** Nothing in the run records the site, and every claim in it comes before. */
  predicate Quiet(run: seq<Event>, site: string, until: int) {
    forall k :: 0 <= k < |run| ==>
      && (run[k].Record? || run[k].Return? ==> run[k].record.site != site)
      && (run[k].Claim? ==> run[k].at < until)
  }

  lemma {:induction false} RowRests(s: System, run: seq<Event>, site: string, until: int)
    requires Possible(s, run) && Quiet(run, site, until) && site in s.rows && s.rows[site].nextDue >= until
    ensures site in After(s, run).rows && After(s, run).rows[site] == s.rows[site]
    decreases |run|
  {
    if run != [] {
      var s' := Step(s, run[0]);
      BatchIsDue(s, run[0], site);
      assert forall k :: 0 <= k < |run[1..]| ==> run[1..][k] == run[k + 1];
      RowRests(s', run[1..], site, until);
    }
  }

  /** A site that was claimed and never recorded, whoever died holding it, is due
      again exactly from the moment its lease lapses. */
  lemma {:induction false} LapsedLeaseIsDue(s: System, e: Event, run: seq<Event>, site: string, now: int)
    requires Enabled(s, e) && e.Claim? && site in e.batch && Possible(Step(s, e), run) && Quiet(run, site, e.at + LEASE)
    ensures var s' := After(Step(s, e), run);
            site in s'.rows && (Due(s'.rows[site], now) <==> e.at + LEASE <= now)
  {
    RowRests(Step(s, e), run, site, e.at + LEASE);
  }

  /** In no one's hands. */
  ghost predicate Untended(s: System, site: string) {
    (forall h :: h in s.held ==> h.site != site) && (forall x :: x in s.errands ==> x.site != site)
  }

  /** A parked site that no one is still reading stays parked, and no one claims it
      or reads it for a visitor, ever again. */
  lemma {:induction false} ParkedForGood(s: System, run: seq<Event>, site: string)
    requires Possible(s, run) && site in s.rows && s.rows[site].parked && Untended(s, site)
    ensures var s' := After(s, run);
            site in s'.rows && s'.rows[site] == s.rows[site] && Untended(s', site)
    ensures forall k :: 0 <= k < |run| ==> !(run[k].Claim? && site in run[k].batch) && !(run[k].SetOut? && run[k].site == site)
    decreases |run|
  {
    if run != [] {
      ParkedStep(s, run[0], site);
      ParkedForGood(Step(s, run[0]), run[1..], site);
      forall k | 0 <= k < |run| ensures !(run[k].Claim? && site in run[k].batch) && !(run[k].SetOut? && run[k].site == site) {
        assert k > 0 ==> run[k] == run[1..][k - 1];
      }
    }
  }

  lemma ParkedStep(s: System, e: Event, site: string)
    requires Enabled(s, e) && site in s.rows && s.rows[site].parked && Untended(s, site)
    ensures var s' := Step(s, e); site in s'.rows && s'.rows[site] == s.rows[site] && Untended(s', site)
    ensures !(e.Claim? && site in e.batch) && !(e.SetOut? && e.site == site)
  {
  }
}
