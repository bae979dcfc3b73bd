/** The site_scrapes table: internal/postgres/sweeps.go, DiscoverSites,
    ClaimDueSites and RecordScrape. A statement is one step on the table; instants
    and durations are nanoseconds; an empty string is SQL's null. */
module Sites {
  import opened Schedule

  const MINUTE: int := 60_000_000_000

  datatype DueReason = NeverRead | ClaimedBySweep | Planned(reason: Reason)

  datatype SiteRow = SiteRow(lastAttempt: Option<int>, lastSuccess: Option<int>, lastChange: Option<int>,
                             listingUrl: string, etag: string, lastModified: string, fingerprint: string,
                             foundCount: nat, failures: nat, interval: int, nextDue: int, dueReason: DueReason, parked: bool)

  type SiteTable = map<string, SiteRow>

  /** One attempt's result. */
  datatype Record = Record(site: string, plan: Plan, outcome: Outcome, foundCount: nat, fingerprint: string,
                           listingUrl: string, etag: string, lastModified: string)

  /** What the schedule is given to go on for the site. */
  function StateOf(row: SiteRow): State {
    State(row.interval, row.failures)
  }

  /** The column defaults of a site that has only been discovered. */
  function NewRow(now: int): SiteRow {
    SiteRow(None, None, None, "", "", "", "", 0, 0, 168 * HOUR, now - MINUTE, NeverRead, false)
  }

  function Discovered(t: SiteTable, placed: set<string>, now: int): SiteTable {
    t + map s | s in placed && s !in t :: NewRow(now)
  }

  predicate Due(row: SiteRow, now: int) {
    !row.parked && row.nextDue <= now
  }

  /** a is taken strictly before b: sites never read lead, then the most overdue. */
  predicate Ahead(a: SiteRow, b: SiteRow) {
    (a.lastSuccess == None && b.lastSuccess.Some?)
    || ((a.lastSuccess == None <==> b.lastSuccess == None) && a.nextDue < b.nextDue)
  }

  /** The due rows no other claim has locked. */
  function Free(t: SiteTable, now: int, locked: set<string>): set<string> {
    set s | s in t && Due(t[s], now) && s !in locked
  }

  /** None of the rest is strictly ahead of one of the batch. */
  ghost predicate Foremost(t: SiteTable, batch: set<string>, rest: set<string>)
    requires batch <= t.Keys && rest <= t.Keys
  {
    forall x, y :: x in batch && y in rest ==> !Ahead(t[y], t[x])
  }

  ghost predicate IsBatch(t: SiteTable, now: int, limit: nat, locked: set<string>, batch: set<string>) {
    && batch <= Free(t, now, locked)
    && (|batch| == limit || (|batch| < limit && batch == Free(t, now, locked)))
    && Foremost(t, batch, Free(t, now, locked) - batch)
  }

  function Claimed(t: SiteTable, batch: set<string>, until: int): SiteTable {
    map s | s in t :: if s in batch then t[s].(nextDue := until, dueReason := ClaimedBySweep) else t[s]
  }

  function Coalesce(given: Option<int>, held: Option<int>): Option<int> {
    if given.Some? then given else held
  }

  function Kept(given: string, held: string): string {
    if given != "" then given else held
  }

  function Recorded(t: SiteTable, r: Record, now: int): SiteTable {
    var success := if r.outcome != Failed then Some(now) else None;
    var change := if r.outcome == Changed then Some(now) else None;
    var row :=
      if r.site in t then
        var was := t[r.site];
        SiteRow(Some(now), Coalesce(success, was.lastSuccess), Coalesce(change, was.lastChange),
                Kept(r.listingUrl, was.listingUrl), Kept(r.etag, was.etag), Kept(r.lastModified, was.lastModified),
                Kept(r.fingerprint, was.fingerprint),
                if r.outcome != Failed then r.foundCount else was.foundCount,
                r.plan.failures, r.plan.interval, r.plan.dueAt, Planned(r.plan.reason), r.plan.park)
      else
        SiteRow(Some(now), success, change, r.listingUrl, r.etag, r.lastModified, r.fingerprint, r.foundCount,
                r.plan.failures, r.plan.interval, r.plan.dueAt, Planned(r.plan.reason), r.plan.park);
    t[r.site := row]
  }

  /** A site never read before one that was; of the same kind, the more overdue. */
  predicate TakenBefore(x: SiteRow, y: SiteRow) {
    && (y.lastSuccess == None ==> x.lastSuccess == None)
    && ((x.lastSuccess == None <==> y.lastSuccess == None) ==> x.nextDue <= y.nextDue)
  }

  lemma TakeFirst(t: SiteTable, free: set<string>, batch: set<string>, next: string)
    requires batch <= free <= t.Keys && next in free - batch && Foremost(t, batch, free - batch)
    requires forall y :: y in free - batch ==> !Ahead(t[y], t[next])
    ensures Foremost(t, batch + {next}, free - (batch + {next})) && |batch + {next}| == |batch| + 1
  {
  }

  /** What a null leaves in place, and what only a read that succeeded, or one that
      found changes, replaces. */
  predicate KeepsGoodAnswers(was: SiteRow, row: SiteRow, r: Record, now: int) {
    && (r.outcome == Failed ==> row.lastSuccess == was.lastSuccess && row.foundCount == was.foundCount)
    && (r.outcome != Failed ==> row.lastSuccess == Some(now) && row.foundCount == r.foundCount)
    && row.lastChange == (if r.outcome == Changed then Some(now) else was.lastChange)
    && (r.listingUrl == "" ==> row.listingUrl == was.listingUrl) && (r.listingUrl != "" ==> row.listingUrl == r.listingUrl)
    && (r.etag == "" ==> row.etag == was.etag) && (r.etag != "" ==> row.etag == r.etag)
    && (r.lastModified == "" ==> row.lastModified == was.lastModified)
    && (r.lastModified != "" ==> row.lastModified == r.lastModified)
    && (r.fingerprint == "" ==> row.fingerprint == was.fingerprint)
    && (r.fingerprint != "" ==> row.fingerprint == r.fingerprint)
  }

  lemma BatchIsInOrder(t: SiteTable, now: int, limit: nat, locked: set<string>, batch: set<string>)
    requires IsBatch(t, now, limit, locked, batch)
    ensures forall s :: s in batch ==> s in t && !t[s].parked && t[s].nextDue <= now && s !in locked
    ensures forall y :: y in t && !t[y].parked && t[y].nextDue <= now && y !in locked + batch ==>
              |batch| == limit && forall x :: x in batch ==> TakenBefore(t[x], t[y])
  {
    forall y | y in t && !t[y].parked && t[y].nextDue <= now && y !in locked + batch
      ensures |batch| == limit && forall x :: x in batch ==> TakenBefore(t[x], t[y])
    {
      assert y in Free(t, now, locked) - batch;
    }
  }

  class ScrapeTable {
    var rows: SiteTable

    constructor ()
      ensures rows == map[]
    {
      rows := map[];
    }

    /** placed: the sites of museums that have coordinates. */
    method DiscoverSites(placed: set<string>, now: int) returns (added: nat)
      modifies this`rows
      ensures rows == Discovered(old(rows), placed, now)
      ensures added == |placed - old(rows).Keys|
      ensures rows.Keys == old(rows).Keys + placed
      ensures forall s :: s in old(rows) ==> rows[s] == old(rows)[s]
      ensures forall s :: s in placed - old(rows).Keys ==>
                && Due(rows[s], now) && rows[s].lastSuccess == None
                && StateOf(rows[s]) == State(FIRST_INTERVAL, 0)
    {
      added := |placed - rows.Keys|;
      rows := Discovered(rows, placed, now);
    }

    /** Takes the next batch and returns those of it that still have a museum with
        coordinates; locked are the rows another claim is updating. */
    method ClaimDueSites(now: int, limit: nat, lease: int, locked: set<string>, placed: set<string>)
      returns (targets: set<string>, ghost batch: set<string>)
      modifies this`rows
      ensures IsBatch(old(rows), now, limit, locked, batch)
      ensures rows == Claimed(old(rows), batch, now + lease)
      ensures targets == batch * placed
      ensures forall s :: s in batch ==>
                s in old(rows) && !old(rows)[s].parked && old(rows)[s].nextDue <= now && s !in locked
      ensures |batch| <= limit
      ensures forall y :: y in old(rows) && !old(rows)[y].parked && old(rows)[y].nextDue <= now && y !in locked + batch ==>
                |batch| == limit && forall x :: x in batch ==> TakenBefore(old(rows)[x], old(rows)[y])
      ensures rows.Keys == old(rows).Keys
      ensures forall s :: s in rows ==>
                rows[s] == if s in batch then old(rows)[s].(nextDue := now + lease, dueReason := ClaimedBySweep) else old(rows)[s]
    {
      var taken := SelectDue(now, limit, locked);
      BatchIsInOrder(rows, now, limit, locked, taken);
      batch := taken;
      rows := Claimed(rows, taken, now + lease);
      targets := taken * placed;
    }

    method SelectDue(now: int, limit: nat, locked: set<string>) returns (batch: set<string>)
      ensures IsBatch(rows, now, limit, locked, batch)
    {
      var free := Free(rows, now, locked);
      batch := {};
      while |batch| < limit && batch != free
        invariant batch <= free && |batch| <= limit
        invariant Foremost(rows, batch, free - batch)
        decreases free - batch
      {
        var next := FirstOf(free - batch);
        TakeFirst(rows, free, batch, next);
        batch := batch + {next};
      }
    }

    /** A site of the set that no other is ahead of. */
    method FirstOf(sites: set<string>) returns (first: string)
      requires sites != {} && sites <= rows.Keys
      ensures first in sites && forall y :: y in sites ==> !Ahead(rows[y], rows[first])
    {
      first :| first in sites;
      var left := sites - {first};
      while left != {}
        invariant left <= sites && first in sites
        invariant forall y :: y in sites - left ==> !Ahead(rows[y], rows[first])
      {
        var s :| s in left;
        left := left - {s};
        if Ahead(rows[s], rows[first]) {
          first := s;
        }
      }
    }

    method RecordScrape(record: Record, now: int)
      modifies this`rows
      ensures rows == Recorded(old(rows), record, now)
      ensures rows.Keys == old(rows).Keys + {record.site}
      ensures forall s :: s in old(rows) && s != record.site ==> rows[s] == old(rows)[s]
      ensures var row := rows[record.site];
              && StateOf(row) == Remembered(record.plan) && row.nextDue == record.plan.dueAt
              && (row.parked <==> record.plan.park) && row.lastAttempt == Some(now)
      ensures record.site in old(rows) ==> KeepsGoodAnswers(old(rows)[record.site], rows[record.site], record, now)
      ensures rows[record.site].dueReason == Planned(record.plan.reason)
      ensures record.site !in old(rows) ==>
                var row := rows[record.site];
                && row.lastSuccess == (if record.outcome == Failed then None else Some(now))
                && row.lastChange == (if record.outcome == Changed then Some(now) else None)
                && (row.listingUrl, row.etag, row.lastModified, row.fingerprint, row.foundCount)
                   == (record.listingUrl, record.etag, record.lastModified, record.fingerprint, record.foundCount)
    {
      rows := Recorded(rows, record, now);
    }
  }

  // --------------------------------------------------------- what is read back

  /** What the next attempt reads of a site is what this one planned; a failure
      keeps every good answer it had. */
  lemma RecordedReadsBack(t: SiteTable, r: Record, now: int)
    ensures var row := Recorded(t, r, now)[r.site];
            && StateOf(row) == Remembered(r.plan)
            && (row.parked <==> r.plan.park)
            && (r.site in t && r.outcome == Failed ==>
                  row.lastSuccess == t[r.site].lastSuccess && row.lastChange == t[r.site].lastChange
                  && row.foundCount == t[r.site].foundCount)
            && (r.outcome != Failed ==> row.lastSuccess == Some(now))
    ensures forall s :: s in t && s != r.site ==> Recorded(t, r, now)[s] == t[s]
  {
  }

  /** A site enters with the column's week, so that the schedule's rule that a
      first read teaches nothing never applies to it: its first read adapts. */
  lemma DiscoveredSiteAdaptsAtOnce(t: SiteTable, placed: set<string>, s: string, seen: int, outcome: Outcome,
                                   close: Option<int>, now: int)
    requires s in placed && s !in t && outcome != Failed
    ensures var row := Discovered(t, placed, seen)[s];
            && Fresh(StateOf(row)) && Due(row, seen) && row.lastSuccess == None
            && Next(StateOf(row), outcome, close, now).interval == (if outcome == Unchanged then 252 * HOUR else 84 * HOUR)
  {
  }

  /** An attempt at a site, with what it had to say besides. */
  datatype Visit = Visit(attempt: Attempt, said: Record)

  /** The record written when the site is visited with the state its row holds. */
  function Written(t: SiteTable, site: string, v: Visit): Record
    requires site in t
  {
    v.said.(site := site, outcome := v.attempt.outcome,
            plan := Next(StateOf(t[site]), v.attempt.outcome, v.attempt.close, v.attempt.now))
  }

  function AfterVisits(t: SiteTable, site: string, run: seq<Visit>): (t': SiteTable)
    requires site in t
    ensures site in t'
    decreases |run|
  {
    if run == [] then t
    else
      var before := AfterVisits(t, site, run[..|run| - 1]);
      Recorded(before, Written(before, site, run[|run| - 1]), run[|run| - 1].attempt.now)
  }

  function Attempts(run: seq<Visit>): seq<Attempt> {
    seq(|run|, i requires 0 <= i < |run| => run[i].attempt)
  }

  lemma {:induction false} TableFollowsSchedule(t: SiteTable, site: string, run: seq<Visit>)
    requires site in t
    ensures StateOf(AfterVisits(t, site, run)[site]) == StateAfter(StateOf(t[site]), Attempts(run))
    decreases |run|
  {
    if run != [] {
      var less := run[..|run| - 1];
      TableFollowsSchedule(t, site, less);
      assert Attempts(run)[..|run| - 1] == Attempts(less);
    }
  }

  /** From the moment a site is discovered, its row follows the schedule: due within
      sixty days of its last attempt, its interval in bounds, and parked exactly
      when the last six attempts or more failed. */
  lemma {:induction false} DiscoveredSiteStaysOnSchedule(t: SiteTable, placed: set<string>, seen: int,
                                                         site: string, run: seq<Visit>)
    requires site in placed && site !in t && run != []
    ensures var row := AfterVisits(Discovered(t, placed, seen), site, run)[site];
            var now := run[|run| - 1].attempt.now;
            && InRange(row.interval)
            && now < row.nextDue <= now + MAX_INTERVAL
            && row.failures == TrailingFailures(Attempts(run))
            && (row.parked <==> TrailingFailures(Attempts(run)) >= MAX_FAILURES)
            && var a := run[|run| - 1].attempt;
               (a.outcome == Failed ==> row.failures > 0) && DueOnTime(row.interval, row.failures, row.nextDue, a.outcome, a.close, now)
  {
    var t0, less := Discovered(t, placed, seen), run[..|run| - 1];
    TableFollowsSchedule(t0, site, less);
    assert Attempts(run)[..|run| - 1] == Attempts(less);
    EveryRunIsSound(StateOf(t0[site]), Attempts(run));
  }

  // ---------------------------------------------------------------- the backlog

  /** The due sites that the site is not strictly ahead of, itself among them. */
  function Rivals(t: SiteTable, now: int, s: string): set<string>
    requires s in t
  {
    set x | x in t && Due(t[x], now) && !Ahead(t[s], t[x])
  }

  /** A claim that passes a due site over took a whole batch of its rivals. */
  lemma PassedOverForRivals(t: SiteTable, now: int, limit: nat, batch: set<string>, until: int, s: string)
    requires IsBatch(t, now, limit, {}, batch) && until > now
    requires s in t && Due(t[s], now) && s !in batch
    ensures var t' := Claimed(t, batch, until);
            && s in t' && t'[s] == t[s]
            && Rivals(t', now, s) == Rivals(t, now, s) - batch
            && |Rivals(t', now, s)| == |Rivals(t, now, s)| - limit
  {
  }

  /** Each batch was claimed from the table the one before it left. */
  ghost predicate Claims(t: SiteTable, now: int, limit: nat, until: int, batches: seq<set<string>>)
    decreases |batches|
  {
    batches == []
    || (IsBatch(t, now, limit, {}, batches[0]) && Claims(Claimed(t, batches[0], until), now, limit, until, batches[1..]))
  }

  /** A due site is claimed within as many batches as it takes to hold its
      rivals: n claims reach every site with at most n times the limit of them. */
  lemma {:induction false} ReachedWithin(t: SiteTable, now: int, limit: nat, until: int, batches: seq<set<string>>,
                                         s: string)
    requires limit > 0 && until > now && Claims(t, now, limit, until, batches)
    requires s in t && Due(t[s], now) && |Rivals(t, now, s)| <= |batches| * limit
    ensures exists k :: 0 <= k < |batches| && s in batches[k]
    decreases |batches|
  {
    assert s in Rivals(t, now, s) && |Rivals(t, now, s)| > 0;
    if s !in batches[0] {
      PassedOverForRivals(t, now, limit, batches[0], until, s);
      FewerBatches(|batches|, limit);
      ReachedWithin(Claimed(t, batches[0], until), now, limit, until, batches[1..], s);
      var k :| 0 <= k < |batches[1..]| && s in batches[1..][k];
      assert s in batches[k + 1];
    }
  }

  lemma FewerBatches(n: nat, limit: nat)
    requires n > 0
    ensures n * limit - limit == (n - 1) * limit
  {
  }
}
