/** internal/sweep/runner.go: one site read, stored, its vanished listings retired,
    and its next visit planned. What the scraper answers and which statements the
    database fails are inputs. */
module Runner {
  import opened Listings
  import opened Schedule
  import opened Sites
  import opened Fingerprints
  import Strings

  datatype Target = Target(site: string, listingUrl: string, etag: string, lastModified: string,
                           fingerprint: string, state: State)

  /** What the scraper makes of the site. */
  datatype Answer =
    | Broken
    | NoWebsite
    | Answered(reached: bool, steady: bool, found: seq<Found>, listingUrl: string, etag: string, lastModified: string)

  /** The statements that fail, and the rows refused when the save does. */
  datatype Faults = Faults(batch: bool, rejected: set<nat>, retire: bool, touch: bool, close: bool, record: bool)

  datatype Report = Report(site: string, outcome: Outcome, found: nat, retired: nat, dueAt: int, reason: Reason,
                           parked: bool)

  // ----------------------------------------------------------------- what a read is

  function FoundIn(a: Answer): seq<Found> {
    if a.Answered? then a.found else []
  }

  function OutcomeOf(target: Target, a: Answer, fingerprint: string): Outcome {
    if a.Broken? then Failed
    else if a.NoWebsite? then Unchanged
    else if !a.reached then Failed
    else if a.steady || fingerprint == target.fingerprint then Unchanged
    else Changed
  }

  predicate Fails(a: Answer) {
    a.Broken? || (a.Answered? && !a.reached)
  }

  /** Some listing was found, by a read that did not fail. */
  predicate Fruitful(a: Answer) {
    !Fails(a) && FoundIn(a) != []
  }

  /** The site said that its listing page has not moved. */
  predicate NotMoved(a: Answer) {
    a.Answered? && a.reached && a.steady
  }

  function Refused(faults: Faults): set<nat> {
    if faults.batch then faults.rejected else {}
  }

  function TableAfter(key: string -> string, t: Table, site: string, a: Answer, faults: Faults, from: int): Table {
    var touched := if NotMoved(a) && !faults.touch then Touched(t, site, from) else t;
    if !Fruitful(a) then touched
    else
      var saved := Saved(key, touched, Sent(FoundIn(a)), Refused(faults));
      if faults.retire then saved else Retired(saved, site, from)
  }

  /** How many listings the read retires. */
  function GoneFrom(key: string -> string, t: Table, site: string, a: Answer, faults: Faults, from: int): nat {
    if !Fruitful(a) || faults.retire then 0
    else
      var touched := if NotMoved(a) && !faults.touch then Touched(t, site, from) else t;
      var saved := Saved(key, touched, Sent(FoundIn(a)), Refused(faults));
      |set u | u in saved && Unseen(saved[u], site, from)|
  }

  /** What the read says of the site, before it is known what was stored. */
  function Draft(target: Target, a: Answer, fingerprint: string): Record {
    var blank := Record(target.site, Plan(0, 0, 0, false, FirstRead), OutcomeOf(target, a, fingerprint), 0, "", "", "", "");
    if Fails(a) || a.NoWebsite? then blank
    else if a.steady then
      blank.(fingerprint := target.fingerprint, listingUrl := target.listingUrl, etag := target.etag,
             lastModified := target.lastModified)
    else
      blank.(fingerprint := fingerprint, listingUrl := a.listingUrl, etag := a.etag, lastModified := a.lastModified)
  }

  function Counted(target: Target, a: Answer, fingerprint: string): Record {
    Draft(target, a, fingerprint).(foundCount := if Fruitful(a) then |FoundIn(a)| else 0)
  }

  /** What is recorded of each kind of read, told by the answer alone. */
  lemma RecordSaysWhatWasRead(target: Target, a: Answer, fingerprint: string)
    ensures var d := Counted(target, a, fingerprint);
            && d.site == target.site
            && (d.outcome == Failed <==> a.Broken? || (a.Answered? && !a.reached))
            && (d.outcome == Changed <==> a.Answered? && a.reached && !a.steady && fingerprint != target.fingerprint)
            && d.foundCount == (if a.Answered? && a.reached then |a.found| else 0)
            && (d.fingerprint, d.listingUrl, d.etag, d.lastModified)
               == if !(a.Answered? && a.reached) then ("", "", "", "")
                  else if a.steady then (target.fingerprint, target.listingUrl, target.etag, target.lastModified)
                  else (fingerprint, a.listingUrl, a.etag, a.lastModified)
  {
  }

  /** The site was read through, rather than vouched for by its own word. */
  predicate ReadThrough(a: Answer) {
    a.Answered? && a.reached && !a.steady
  }

  /** A read through that follows another is recorded as a change exactly when it found
      other listings, however many reads that were not, or that failed, lie between:
      the fingerprint it is compared with is the one the earlier read left. */
  lemma {:induction false} ChangeIsNoticed(digest: string -> string, date: int -> string, t: SiteTable, first: Target, a: Answer,
                                           plan: Plan, now: int, between: seq<(Record, int)>, second: Target, b: Answer)
    requires Injective(digest) && Readable(date) && FingerprintOf(digest, date, FoundIn(a)) != ""
    requires ReadThrough(a) && ReadThrough(b) && second.site == first.site
    requires forall k :: 0 <= k < |a.found| ==> Scrapable(a.found[k])
    requires forall k :: 0 <= k < |b.found| ==> Scrapable(b.found[k])
    requires forall k :: 0 <= k < |between| ==> between[k].0.site != first.site || between[k].0.fingerprint == ""
                                                || between[k].0.fingerprint == FingerprintOf(digest, date, a.found)
    requires var row := Recorded(t, Counted(first, a, FingerprintOf(digest, date, a.found)).(plan := plan), now);
             first.site in AllRecorded(row, between) && second.fingerprint == AllRecorded(row, between)[first.site].fingerprint
    ensures OutcomeOf(second, b, FingerprintOf(digest, date, b.found)) == Changed
            <==> multiset(Entries(b.found)) != multiset(Entries(a.found))
  {
    var sum := FingerprintOf(digest, date, a.found);
    var t' := Recorded(t, Counted(first, a, sum).(plan := plan), now);
    assert t'[first.site].fingerprint == sum;
    FingerprintStays(t', between, first.site, sum);
    FingerprintIsExact(digest, date, b.found, a.found);
  }

  function AllRecorded(t: SiteTable, records: seq<(Record, int)>): SiteTable
    decreases |records|
  {
    if records == [] then t
    else Recorded(AllRecorded(t, records[..|records| - 1]), records[|records| - 1].0, records[|records| - 1].1)
  }

  lemma {:induction false} FingerprintStays(t: SiteTable, records: seq<(Record, int)>, site: string, sum: string)
    requires site in t && t[site].fingerprint == sum
    requires forall k :: 0 <= k < |records| ==>
               records[k].0.site != site || records[k].0.fingerprint == "" || records[k].0.fingerprint == sum
    ensures site in AllRecorded(t, records) && AllRecorded(t, records)[site].fingerprint == sum
    decreases |records|
  {
    if records != [] {
      FingerprintStays(t, records[..|records| - 1], site, sum);
    }
  }

  /** The plan made once the table is as the read left it. */
  ghost function PlanOf(target: Target, outcome: Outcome, closeFails: bool, t: Table, now: int): Plan {
    Next(target.state, outcome, if closeFails then None else Soonest(t, target.site), now)
  }

  /** A live, dated listing of the site closes then, and none sooner. */
  ghost predicate ClosesFirst(t: Table, site: string, at: int) {
    && (exists u :: u in t && t[u].site == site && t[u].retired == None && !t[u].permanent && t[u].ends == Some(at))
    && (forall u :: u in t && t[u].site == site && t[u].retired == None && !t[u].permanent && t[u].ends.Some?
          ==> at <= t[u].ends.value)
  }

  /** After a read that did not fail the site is due an interval on, or as soon as
      its listings are to be looked at again after the first of them closes, if that
      is still ahead and sooner; when the listings could not be asked, an interval
      on. */
  lemma DueWhenTheFirstListingCloses(target: Target, outcome: Outcome, closeFails: bool, t: Table, now: int)
    requires outcome != Failed
    ensures var p := PlanOf(target, outcome, closeFails, t, now);
            && (closeFails ==> p.dueAt == now + p.interval)
            && (!closeFails ==> forall at :: ClosesFirst(t, target.site, at) ==>
                  p.dueAt == if now < at + RECHECK_AFTER_CLOSE < now + p.interval then at + RECHECK_AFTER_CLOSE
                             else now + p.interval)
            && ((forall at :: !ClosesFirst(t, target.site, at)) ==> p.dueAt == now + p.interval)
  {
    forall at ensures ClosesFirst(t, target.site, at) <==> IsSoonest(t, target.site, at) {
    }
  }

  class Runner {
    const listings: ListingTable
    const scrapes: ScrapeTable
    const digest: string -> string
    const date: int -> string

    constructor (listings: ListingTable, scrapes: ScrapeTable, digest: string -> string, date: int -> string)
      ensures this.listings == listings && this.scrapes == scrapes && this.digest == digest && this.date == date
    {
      this.listings, this.scrapes, this.digest, this.date := listings, scrapes, digest, date;
    }

    method Fingerprint(found: seq<Found>) returns (sum: string)
      ensures sum == FingerprintOf(digest, date, found)
    {
      var lines: seq<string> := [];
      for i := 0 to |found|
        invariant lines == Lines(date, found[..i])
      {
        lines := lines + [LineOf(date, found[i])];
      }
      assert found[..|found|] == found;
      sum := digest(Join(Strings.Sorted(lines), '\n'));
    }

    method Read(target: Target, answer: Answer, faults: Faults, startedAt: int) returns (report: Report)
      modifies listings`rows, scrapes`rows
      ensures listings.rows == TableAfter(listings.key, old(listings.rows), target.site, answer, faults, startedAt)
      ensures report.retired == GoneFrom(listings.key, old(listings.rows), target.site, answer, faults, startedAt)
      ensures report.outcome == Failed <==> answer.Broken? || (answer.Answered? && !answer.reached)
      ensures report.outcome == Changed <==>
                && answer.Answered? && answer.reached && !answer.steady
                && FingerprintOf(digest, date, answer.found) != target.fingerprint
      ensures report.found == if answer.Answered? && answer.reached then |answer.found| else 0
      ensures var draft := Counted(target, answer, FingerprintOf(digest, date, FoundIn(answer)));
              var plan := PlanOf(target, draft.outcome, faults.close, listings.rows, startedAt);
              && scrapes.rows == (if faults.record then old(scrapes.rows)
                                  else Recorded(old(scrapes.rows), draft.(plan := plan), startedAt))
              && report == Report(target.site, draft.outcome, draft.foundCount, report.retired, plan.dueAt, plan.reason, plan.park)
    {
      var draft, gone := ReadAndStore(target, answer, faults, startedAt);
      RecordSaysWhatWasRead(target, answer, FingerprintOf(digest, date, FoundIn(answer)));
      var plan := Reschedule(target, draft, faults, startedAt);
      report := Report(target.site, draft.outcome, draft.foundCount, gone, plan.dueAt, plan.reason, plan.park);
    }

    method ReadAndStore(target: Target, answer: Answer, faults: Faults, startedAt: int) returns (draft: Record,
                        gone: nat)
      modifies listings`rows
      ensures listings.rows == TableAfter(listings.key, old(listings.rows), target.site, answer, faults, startedAt)
      ensures gone == GoneFrom(listings.key, old(listings.rows), target.site, answer, faults, startedAt)
      ensures draft == Counted(target, answer, FingerprintOf(digest, date, FoundIn(answer)))
    {
      draft := Weigh(target, answer, faults, startedAt);
      gone := 0;
      if draft.outcome != Failed && FoundIn(answer) != [] {
        gone := StoreAndRetire(target.site, answer.found, faults, startedAt);
        draft := draft.(foundCount := |answer.found|);
      }
    }

    method Reschedule(target: Target, draft: Record, faults: Faults, now: int) returns (plan: Plan)
      modifies scrapes`rows
      ensures plan == PlanOf(target, draft.outcome, faults.close, listings.rows, now)
      ensures scrapes.rows == if faults.record then old(scrapes.rows) else Recorded(old(scrapes.rows), draft.(plan := plan), now)
    {
      var soonest := None;
      if !faults.close {
        soonest := listings.SoonestClose(target.site);
      }
      plan := Next(target.state, draft.outcome, soonest, now);
      if !faults.record {
        scrapes.RecordScrape(draft.(plan := plan), now);
      }
    }

    method Weigh(target: Target, answer: Answer, faults: Faults, startedAt: int) returns (record: Record)
      modifies listings`rows
      ensures record == Draft(target, answer, FingerprintOf(digest, date, FoundIn(answer)))
      ensures listings.rows == (if NotMoved(answer) && !faults.touch then Touched(old(listings.rows), target.site, startedAt)
                                else old(listings.rows))
    {
      var outcome := Changed;
      record := Record(target.site, Plan(0, 0, 0, false, FirstRead), Changed, 0, "", "", "", "");
      if answer.Broken? {
        outcome := Failed;
      } else if answer.NoWebsite? {
        outcome := Unchanged;
      } else if !answer.reached {
        outcome := Failed;
      } else if answer.steady {
        outcome := Unchanged;
        if !faults.touch {
          var touched := listings.TouchSite(target.site, startedAt);
        }
        record := record.(listingUrl := target.listingUrl, etag := target.etag, lastModified := target.lastModified,
                          fingerprint := target.fingerprint);
      } else {
        var sum := Fingerprint(answer.found);
        if sum == target.fingerprint {
          outcome := Unchanged;
        }
        record := record.(listingUrl := answer.listingUrl, etag := answer.etag, lastModified := answer.lastModified,
                          fingerprint := sum);
      }
      record := record.(outcome := outcome);
    }

    method StoreAndRetire(site: string, found: seq<Found>, faults: Faults, from: int) returns (gone: nat)
      modifies listings`rows
      ensures var saved := Saved(listings.key, old(listings.rows), Sent(found), Refused(faults));
              && listings.rows == (if faults.retire then saved else Retired(saved, site, from))
              && gone == (if faults.retire then 0 else |set u | u in saved && Unseen(saved[u], site, from)|)
    {
      var written := listings.SaveExhibitions(found, faults.batch, faults.rejected);
      gone := 0;
      if !faults.retire {
        gone := listings.RetireUnseen(site, from);
      }
    }
  }
}
