# Museum catalogue pipeline: a verified model

The repository collects the world's museums from several catalogues, reads the
exhibitions on their websites, and serves both over an API. This project models
the stateful cores under its I/O and proves what they keep:

| files | what they model |
|---|---|
| `Merge`, `Clustering`, `Consolidation` | the cross-source merger: online clustering over two lookup indexes and a set of ambiguous names |
| `RateLimit` | the per-client token bucket with an in-flight cap and a table that forgets idle clients |
| `Dispatch`, `ScrapeQueue` | areas scraped on a visitor's behalf: claim, queue, lookup, round-robin dispatch, collection, release, cooldown |
| `Schedule`, `Sites`, `Listings`, `Fingerprints`, `Runner`, `Freshness`, `Leases` | the freshness sweep: the adaptive schedule, the two tables it writes, one read of a site, any number of reads, and sweepers that claim sites from each other |
| `Walker`, `Harvest` | the walk over a possibly cyclic graph of categories and list pages, and what its pages yield |
| `Extractor`, `Table`, `Wikitext` | the wikitext readers: list pages with their group headers, tables with nested tables, templates |
| `Layout` | tables and cells as their authors mean them, written out and read back |
| `Gate` | slot reservation with an adaptive interval, and the same scheme per host |
| `Acknowledge` | counted acknowledgements gating one commit per message |
| `Strings` | string order and sorting, used by the merger and the fingerprint |

Objects whose methods update fields are classes proved against functions on their
state (`Merger`, `RateLimiter`, `Dispatcher`, `ScrapeBook`, `ListingTable`,
`ScrapeTable`, `Runner`, `CategoryProcessor`, `Collector`, `Gate`, `Fetcher`,
`Acker`, `Item`); index loops over text are methods proved against recursive
functions. Concurrent protocols are state machines over their atomic steps (what
happens under one lock, one channel operation, one SQL statement), and the
theorems quantify over every finite run. The results below are stated on those
functions and runs.

Where the code and its comments part, the model follows the code:

- `internal/sweep/schedule.go:87-92` caps the doubling of retries; parking comes
  first, so no retry is more than eight days out (`Schedule.RetriesDoubleUpToEightDays`).
- `internal/sweep/schedule.go:163-169` says a first read teaches nothing; the column
  default in `internal/postgres/schema.sql:337` gives every discovered site a
  week, so its first read adapts (`Sites.DiscoveredSiteAdaptsAtOnce`).
- `internal/postgres/sweeps.go:285-287` says marking a site current is what stops
  the next read from retiring its listings; it changes nothing that read retires
  (`Freshness.TouchingProtectsNothing`).
- `internal/postgres/sweeps.go:257-266` says only listings a read did not find are
  retired; one it found is retired when the database refuses its row
  (`Freshness.RetiresOnlyTheUnseenIff`, `Freshness.RefusedRowIsRetired`).
- `internal/postgres/sweeps.go:94-108` says a claim keeps sweepers apart; a
  visitor's read, which ignores claims, lets a second sweeper in exactly when a
  closing date makes the site due within the lease (`Leases.ErrandOpensTheSiteIff`,
  `Leases.TwoHandsOnOneSite`), and otherwise never
  (`Leases.NoSiteInTwoHandsUnlessOneCloses`).
- `pkg/wikipedia/extractor.go:108-125` lets a skipped heading inside a skipped section
  take over: leaving the inner one ends the outer (`Extractor.HeadingsMean`).
- `internal/service/iterator.go:114-116` says repeated acknowledgements are safe;
  the counter counts calls (`Acknowledge.DoubleAcknowledgementCommitsEarly`,
  `Acknowledge.RawAckerSoundIffNoRepeats`).

## Model

| member | source | states |
|---|---|---|
| Merge.ComputeNameKeys | internal/collect/merge.go:282-303 | the key loop, with its seen set and its early exits, yields the keys of the specification |
| Merge.KeysOfMeaning | internal/collect/merge.go:276-303 | a record's keys are exactly its non-empty normalised names paired with its country, each once |
| Merge.NameKeysMeaning | internal/collect/merge.go:270-303 | a museum of a known country can be recognised by each of its names that normalises to something, together with that country, and by nothing else |
| Merge.KnownMeans | internal/collect/merge.go:270-274 | a country is known unless it is empty or reads "unknown" in whatever case |
| Merge.AppendMissing | internal/collect/merge.go:194-217 | the append loops add, in order, each string that is neither skipped nor already there |
| Merge.MergeInto | internal/collect/merge.go:157-218 | the whole merged record, field by field |
| Merge.Merger.Add | internal/collect/merge.go:61-82 | one record: cleaned, looked up, merged in place or appended, and indexed; the whole new state of indexes, ambiguity set, museums and counter |
| Merge.Merger.Find | internal/collect/merge.go:85-115 | identity first, then the keys in order; what that comes to is stated, over every sequence, by Clustering.NextRecordGoes |
| Merge.Merger.Record | internal/collect/merge.go:118-133 | the id entry is overwritten, the first claimant of a key keeps it, a second makes it ambiguous |
| Merge.AddedIsValid | internal/collect/merge.go:61-133 | after any addition every index entry still points into the list, and the indexes other than names change only as stated |
| Clustering.SameIdIffSameMuseum | internal/collect/merge.go:85-90 | over every sequence of records, two that carry ids end in one museum if and only if the ids are equal |
| Clustering.StoredIdNeverChanges | internal/collect/merge.go:157-164 | an id once stored stays with its museum through any further records |
| Clustering.IdsStayIndexed | internal/collect/merge.go:117-121 | `byWikidata` is exactly the inverse of the stored ids, after every sequence |
| Clustering.IdentityStep | internal/collect/merge.go:61-121 | one addition keeps that inverse, keeps every stored id, and files a record only where its id agrees |
| Clustering.NamesStayIndexed | internal/collect/merge.go:122-132 | after every sequence `byName` holds the first museum that claimed each key, and `ambiguous` exactly the keys two or more museums claimed |
| Clustering.NamesStayAnswered | internal/collect/merge.go:70-81 | every current key of every stored museum has been claimed by it |
| Clustering.CurrentNamesOwnedOrAmbiguous | internal/collect/merge.go:117-133 | so each current key is owned by the museum or ambiguous |
| Clustering.NameMatchHasOneClaimant | internal/collect/merge.go:91-113 | a record without a known id joins a museum by name only on a key that museum alone has ever claimed |
| Clustering.NextRecordGoes | internal/collect/merge.go:61-115 | where the next record goes, after every sequence: to the museum that holds its id, when one does; else to the sole museum ever to have claimed the first of its keys that has such a claimant whose id is empty, or the same, or not given by the record; else, exactly when no key has one, to a new museum |
| Clustering.MergedOrStored | internal/collect/merge.go:61-82 | going to a museum that is there adds one to the merged, going to none adds one museum |
| Clustering.NothingIsLost | internal/collect/merge.go:149-153 | museums stored plus records merged is the number of records added |
| Consolidation.StoredIsFold | internal/collect/merge.go:61-82 | every stored museum is the fold, in order, of the records filed under it, and none is empty |
| Consolidation.FoldUnions | internal/collect/merge.go:190-217 | its non-empty names, sources and classes are the unions of what its records said |
| Consolidation.FoldVerifiedAndSitelinks | internal/collect/merge.go:178-188 | verified if any record is, as prominent as the most prominent |
| Consolidation.AnyVerified | internal/collect/merge.go:186-188 | holds if and only if some record is verified |
| Consolidation.MostSitelinks | internal/collect/merge.go:178-182 | the greatest count, reached by some record |
| Consolidation.FoldCountry | internal/collect/merge.go:166-173 | the country is the last known one from an authoritative record, else the first known one |
| Consolidation.FoldKeepsFirst | internal/collect/merge.go:157-164 | id, name, description, website, locality, article and source page are each the first non-empty answer of its records |
| Consolidation.FoldKeepsFirstPlace | internal/collect/merge.go:175-185 | the page id and the position are the first any of its records gave, the two coordinates together |
| Consolidation.StoredNamesAreCleaned | internal/collect/merge.go:56-65 | over every sequence, a stored museum goes by exactly the cleaned names, none empty, that the records filed under it came with |
| Consolidation.ClusterIsById | internal/collect/merge.go:85-90 | when every record has an id, a museum's records are exactly those with its id |
| Consolidation.ArrivalOrderDoesNotMatter | internal/collect/merge.go:56-133 | then two arrival orders of the same records store a museum for the same ids, with the same names, sources, classes, verification and prominence |
| Consolidation.OneMuseumPerId | internal/collect/merge.go:149-153 | and as many museums as there are ids |
| Consolidation.ArrivalOrderKeepsTheCount | internal/collect/merge.go:147-153 | so the count does not depend on the order |
| Strings.SortedIgnoresOrder | internal/collect/merge.go:199 | sorting depends on the strings and their number only |
| Strings.IncreasingIsUnique | internal/collect/merge.go:199 | there is one increasing arrangement of given strings |
| RateLimit.RateLimiter.Allow | internal/api/ratelimit.go:123-146 | refill, cap, refuse or spend; a miss sweeps and starts full less one; the whole new table |
| RateLimit.RateLimiter.Acquire | internal/api/ratelimit.go:96-110 | a slot is taken unless the cap is reached, and the bucket is made if missing |
| RateLimit.RateLimiter.Release | internal/api/ratelimit.go:113-120 | a slot is given back only if one is held |
| RateLimit.RateLimiter.Sweep | internal/api/ratelimit.go:149-155 | the deleting loop leaves exactly the buckets that are in use or recent |
| RateLimit.SweepIsInvisible | internal/api/ratelimit.go:148-155 | when rate * ttl >= burst, sweeping changes no client's allowance or work in flight |
| RateLimit.ForgettingIsUnobservable | internal/api/ratelimit.go:96-155 | over every interleaving on a clock that does not run backwards, the limiter that forgets answers as one that never does |
| RateLimit.ForgettingUnobservableIff | internal/api/ratelimit.go:123-155 | that holds from the start if and only if rate * ttl >= burst |
| RateLimit.ForgettingShowsOtherwise | internal/api/ratelimit.go:148-155 | otherwise some run is answered differently, built explicitly |
| RateLimit.WindowAdmitsBurstPlusRate | internal/api/ratelimit.go:123-146 | in any window of any run a client is admitted at most burst + rate * length times, sweeps and re-created buckets included |
| RateLimit.WindowInFigures | internal/api/ratelimit.go:123-146 | that bound written out |
| RateLimit.AnsweredAsIfAlone | internal/api/ratelimit.go:123-155 | over every run, among any other clients, sweeps and forgotten buckets, a client gets exactly the answers of a meter of its own: full at first, refilled at the rate up to the burst, a whole token for each request let through |
| RateLimit.RestedIsNeverRefused | internal/api/ratelimit.go:123-155 | so a client whose requests are at least the time of one token apart is never refused |
| RateLimit.InFlightIsOutstanding | internal/api/ratelimit.go:94-120 | the count kept is acquires granted less releases, and never above the cap |
| RateLimit.LevelsShow | internal/api/ratelimit.go:123-146 | two different allowances can always be told apart by asking |
| Dispatch.Dispatcher.Give | internal/api/scrape.go:401-416 | the job handed out and the slice and cursor after it |
| Dispatch.Dispatcher.Accept | internal/api/scrape.go:399-400 | a new area joins at the end |
| Dispatch.HandOutIsOrderly | internal/api/scrape.go:401-416 | the cursor stays inside the slice and every area in it has a site left |
| Dispatch.CursorKeepsRounds | internal/api/scrape.go:384-416 | slice and cursor refine a queue served in rounds: serve the first, unfinished areas wait for the next round, newcomers are last in this one |
| Dispatch.NeitherFallsBehind | internal/api/scrape.go:375-378 | over any stretch in which two areas both wait, neither is handed more than one site more than the other |
| ScrapeQueue.AreasAreServedAlike | internal/api/scrape.go:375-378 | the same over any stretch of any run of the whole queue, in sites actually handed out of each area |
| ScrapeQueue.ProjectedIsPossible | internal/api/scrape.go:379-416 | every run of the queue is, to the dispatcher, a run of its own with the same line |
| Dispatch.StaysInPlace | internal/api/scrape.go:401-416 | where an area is after a step, and that a round serves it exactly once |
| ScrapeQueue.ScrapeBook.TryClaim | internal/api/scrape.go:245-259 | claimed if and only if the cell has no entry and was not released as read within the last day; cooling down exactly when it was; otherwise told the state its entry is in; and what of the book changes |
| ScrapeQueue.ScrapeBook.Withdraw | internal/api/scrape.go:264-272 | a refused claim is taken back |
| ScrapeQueue.ScrapeBook.Start | internal/api/scrape.go:350-353 | the cell is marked running, with its progress |
| ScrapeQueue.ScrapeBook.Release | internal/api/scrape.go:500-510 | the cell is let go of, and its cooldown begins if it was read |
| ScrapeQueue.ScrapeBook.SetProgress | internal/api/scrape.go:529-535 | progress moves only while there is one |
| ScrapeQueue.CellsStep | internal/api/scrape.go:232-274 | every step keeps, for every cell: requests under way are as many as its entries, and it runs exactly while it is collected |
| ScrapeQueue.AreasStep | internal/api/scrape.go:322-471 | every step keeps: an area collected is on offer, in line or handed out whole; what was handed out is the front of its sites; and every site handed out is with a worker, in the buffer or collected |
| ScrapeQueue.OneRequestPerCell | internal/api/scrape.go:232-274 | under every interleaving a cell has at most one request under way, and an entry exactly then |
| ScrapeQueue.DepositsNeverBlock | internal/api/scrape.go:422-434 | whenever a worker has a report to deposit, the area's buffer has room |
| ScrapeQueue.EverySiteOnceInOrder | internal/api/scrape.go:379-471 | every site is handed out at most once and in order, an area is released only when all were, with nothing left behind, and a job on offer always has its collector |
| ScrapeQueue.NothingIsAcceptedWhileCooling | internal/api/scrape.go:500-510 | after a release recorded as scraped, every request for the cell within the cooldown is turned away and nothing is under way for it |
| ScrapeQueue.EveryAskIsAnsweredRightly | internal/api/scrape.go:232-274 | after every run: a cell last released as read within the day is turned away, one with a request under way is told whether it is being collected, and otherwise, and only then, asking puts exactly one request under way |
| ScrapeQueue.DoneIsLastRead | internal/api/scrape.go:500-510 | what the cooldown is counted from is the last finish, or the last lookup without sites, of the run, else what was recovered |
| ScrapeQueue.ProgressShownIsTrue | internal/api/scrape.go:350-354 | after every run the progress shown of an area is its number of sites and of reports collected |
| ScrapeQueue.NeverAtAStandstill | internal/api/scrape.go:232-471 | while any request is under way some step other than asking is possible |
| Schedule.PlanIsSound | internal/sweep/schedule.go:135-193 | from any reasonable state: interval in bounds, due strictly later and within sixty days, failures counted, parked from the sixth |
| Schedule.EveryRunIsSound | internal/sweep/schedule.go:135-193 | the same over every run of outcomes, the failure count being the trailing run of failures, and the due date exact |
| Schedule.EveryPlanIsOnTime | internal/sweep/schedule.go:135-193 | the due date exactly: an interval after a read that did not fail, or a day after the closing date when that is ahead and sooner; the backoff after a failure, sixty days when parked |
| Schedule.IntervalInFigures | internal/sweep/schedule.go:161-175 | in range the interval grows by half up to sixty days, halves down to two, and stays on a failure |
| Schedule.RetryGapsInFigures | internal/sweep/schedule.go:87-96 | the gaps are half a day, one, two, four and eight days |
| Schedule.RetriesDoubleUpToEightDays | internal/sweep/schedule.go:87-96 | the five retry gaps double and the cap on the doubling is never reached |
| Schedule.ClosingDateOnlyBringsForward | internal/sweep/schedule.go:179-186 | a closing date changes the due date exactly when it falls between now and the usual one |
| Schedule.LaterClosingHonouredIff | internal/sweep/schedule.go:179-186 | a closing date inside the coming interval is honoured if and only if the soonest one is not already behind |
| Schedule.AdaptsExactlyWhenIntervalIsSet | internal/sweep/schedule.go:161-175 | a read moves the interval, unless it is at its bound, exactly when the state had one |
| Schedule.FirstSuccessLearnsNothingIff | internal/sweep/schedule.go:163-169 | from the zero state the first successful read keeps the starting interval if and only if nothing failed before it |
| Schedule.FailuresKeepTheInterval | internal/sweep/schedule.go:141-160 | failures never change an interval that is set |
| Schedule.BoundsAreReached | internal/sweep/schedule.go:170-174 | nine quiet reads reach the ceiling, five changed ones the floor, from anywhere in range, and both then stay |
| Schedule.QuietSitesSettle | internal/sweep/schedule.go:170-174 | the same of runs of outcomes |
| Sites.ScrapeTable.DiscoverSites | internal/postgres/sweeps.go:56-71 | sites not yet in the table are added, due at once with a week's interval and never read; the others are untouched; how many were new |
| Sites.ScrapeTable.ClaimDueSites | internal/postgres/sweeps.go:109-130 | a batch is taken and leased: due, not parked, not locked, never-read sites first and then the most overdue; one is left out only when the limit is reached; only sites with a placed museum are returned, and no other row moves |
| Sites.ScrapeTable.SelectDue | internal/postgres/sweeps.go:111-117 | the batch is the limit's worth of free rows, or all, in the selection's order |
| Sites.ScrapeTable.RecordScrape | internal/postgres/sweeps.go:210-255 | the row written, field by field: the plan, nulls and failures keeping the last good answers; no other row moves |
| Sites.RecordedReadsBack | internal/postgres/sweeps.go:160-187 | what the next attempt reads of a site is what this one planned; a failure keeps the last success, change and count; no other row moves |
| Sites.DiscoveredSiteAdaptsAtOnce | internal/postgres/schema.sql:337 | a discovered site is due at once with a week's interval, so its first read already moves it |
| Sites.TableFollowsSchedule | internal/postgres/sweeps.go:210-255 | through any attempts the row's state is the schedule's state |
| Sites.DiscoveredSiteStaysOnSchedule | internal/postgres/sweeps.go:56-71 | from discovery on: interval in bounds, due exactly when the schedule says and within sixty days, parked exactly on six failures in a row |
| Sites.PassedOverForRivals | internal/postgres/sweeps.go:111-117 | a claim that passes over a due site took a whole batch of sites it is not ahead of |
| Sites.ReachedWithin | internal/postgres/sweeps.go:94-130 | n claims reach every due site with at most n batches of rivals |
| Listings.ListingTable.SaveExhibitions | internal/postgres/postgres.go:798-891 | the table after the upserts, as one batch or row by row without the refused ones; blank URLs never sent; how many were written |
| Listings.SavedWrites | internal/postgres/postgres.go:805-821 | a written row is live, says what its last writing says, keeps its source, and spans exactly the least and greatest of its dates |
| Listings.SavedLeavesAlone | internal/postgres/postgres.go:798-891 | a URL nothing writes is untouched |
| Listings.SentFound | internal/postgres/postgres.go:828-831 | what is sent is what was found under a URL that is not blank |
| Listings.ListingTable.RetireUnseen | internal/postgres/sweeps.go:267-281 | exactly the live scraped rows of the site last seen before the instant change, and only in being retired then; how many |
| Listings.ListingTable.TouchSite | internal/postgres/sweeps.go:288-296 | exactly the site's live rows are marked seen then, and nothing else of them changes; how many |
| Listings.ListingTable.SoonestClose | internal/postgres/sweeps.go:192-202 | the least closing date of a live row that is not permanent, and none exactly when there is none |
| Listings.TouchKeepsOrderIff | internal/postgres/sweeps.go:288-296 | marking a site seen keeps first seen <= last seen if and only if no live row of it was first seen later |
| Runner.Runner.Fingerprint | internal/sweep/runner.go:189-207 | the loop, the sort and the digest compute the fingerprint of the specification |
| Fingerprints.FingerprintIsExact | internal/sweep/runner.go:183-207 | for everything the scraper yields, and a digest that does not collide: equal fingerprints if and only if the same listings were found the same number of times |
| Fingerprints.LineSaysTheEntry | internal/sweep/runner.go:190-201 | a line says its URL, title, dates and permanence unambiguously, whatever the title holds |
| Fingerprints.OrderIsNoChange | internal/sweep/runner.go:202-203 | the order of the page never changes the fingerprint |
| Fingerprints.JoinIsInjective | internal/sweep/runner.go:200-205 | joined text determines its parts when none holds the separator |
| Runner.Runner.Read | internal/sweep/runner.go:104-181 | both tables and the report after one read, for every answer of the scraper and every statement that fails |
| Runner.RecordSaysWhatWasRead | internal/sweep/runner.go:117-146 | the outcome, the count, the fingerprint and the conditional-request headers recorded of each kind of read |
| Runner.ChangeIsNoticed | internal/sweep/runner.go:136-207 | a read through is recorded as a change if and only if it found other listings, or another number of them, than the last one, whatever failed or vouched reads lie between |
| Runner.DueWhenTheFirstListingCloses | internal/sweep/runner.go:167-174 | after a read that did not fail the site is due a day after the first of its live, dated listings closes, when that is ahead and within the interval, else after the interval; so too when the listings could not be asked |
| Runner.Runner.Reschedule | internal/sweep/runner.go:167-176 | the plan made from the soonest closing date, and the row written |
| Freshness.FruitlessReadsRetireNothing | internal/sweep/runner.go:117-146 | failed, empty, website-less and not-moved reads retire, revive and store nothing, for any site |
| Freshness.RowAfter | internal/sweep/runner.go:150-165 | each row after a fruitful read: stored means live, not stored means retired exactly if it was due to be |
| Freshness.LiveIsWhatWasStored | internal/sweep/runner.go:150-165 | after a fruitful read the site's live listings are exactly those it stored, submissions aside |
| Freshness.LiveIsWhatWasFound | internal/sweep/runner.go:150-165 | when every row was saved, exactly those it found |
| Freshness.LiveIsTheLastFind | internal/sweep/runner.go:104-181 | the same whatever was read before, of any site, and whatever reads follow that fail, find nothing, or are of other sites and keep away from this one |
| Freshness.OtherSitesAreLeftAlone | internal/postgres/sweeps.go:257-281 | a read leaves every row of another site that it did not store exactly as it was |
| Freshness.ReadsOfOthersLeaveItAlone | internal/postgres/sweeps.go:257-281 | over any run of reads of other sites that store none of its listings and find none of it, a site's rows, and which of them are live, stay as they are |
| Freshness.SubmissionsStay | internal/postgres/sweeps.go:264-266 | over any run of reads a submission stays in the table, stays one, and is never retired |
| Freshness.ReportsWhatItRetired | internal/sweep/runner.go:157-165 | the number reported is that of the listings that were live and no longer are |
| Freshness.RetiresOnlyTheUnseenIff | internal/postgres/sweeps.go:257-266 | a read retires only what it did not see if and only if no found listing due to be retired had all its rows refused |
| Freshness.RefusedRowIsRetired | internal/postgres/postgres.go:877-885 | one refused row is enough |
| Freshness.TouchingProtectsNothing | internal/postgres/sweeps.go:283-296 | marking a site seen changes nothing a later read retires |
| Freshness.FirstSeenNeverMovesForward | internal/postgres/postgres.go:814-817 | over any reads at any times a listing stays in the table, first seen never moves forward, and its source stays |
| Freshness.ReadsKeepSound | internal/postgres/postgres.go:817-818 | over reads one after another, first seen <= last seen <= the end of the last read |
| Leases.NoSiteInTwoHands | internal/postgres/sweeps.go:94-130 | whoever claims, records or dies, no site is with two sweepers, as long as those alive record within the lease and no visitor's read leaves a held site due before it lapses |
| Leases.NoSiteInTwoHandsUnlessOneCloses | internal/postgres/sweeps.go:94-156 | exclusion over every run on an ordered clock with surviving reads recorded in time, unless a visitor's successful read returns to a held site whose soonest listing closes so that its recheck falls between the start of that read and the end of the lease |
| Leases.NoneClosesIsCareful | internal/postgres/sweeps.go:132-156 | over every such run, that condition on what the reads were given is exactly the one on the plans they recorded |
| Leases.ErrandOpensTheSiteIff | internal/postgres/sweeps.go:132-156 | after a visitor's return, another sweeper's claim can take the held site while the lease is in force if and only if it is still in force and that condition holds |
| Leases.OnlyAClosingDateOpensIt | internal/sweep/schedule.go:135-188 | the schedule leaves a site unparked and due before an instant up to twelve hours out if and only if the read succeeded and the closing date's recheck falls in between |
| Leases.SecondClaim | internal/postgres/sweeps.go:109-156 | whenever the condition holds, a claim no earlier than the return and within the lease puts the site in two hands |
| Leases.TwoHandsOnOneSite | internal/postgres/sweeps.go:109-156 | for any site, from an empty table: an ordered, timely run with one visitor's return, planned by the schedule, ends with two sweepers holding it, both leases in force |
| Leases.LapsedLeaseIsDue | internal/postgres/sweeps.go:103-108 | a site claimed and never recorded is due again exactly when its lease lapses, whoever died |
| Leases.ParkedForGood | internal/postgres/sweeps.go:132-156 | a parked site that no one is still reading is never claimed or read for a visitor again |
| Walker.CategoryProcessor.ProcessCategory | pkg/wikipedia/processor.go:69-94 | the crawl ends; it visited exactly the titles reachable from the root, processed each reachable list page once with a country some path to it brings, reported exactly what the candidates of those pages put forward, and counted categories, pages and candidates |
| Walker.CategoryProcessor.WalkCategory | pkg/wikipedia/processor.go:119-151 | the walk ends, and all it newly visits has its successors visited or queued, whatever was under way above it |
| Walker.CategoryProcessor.FollowFirst | pkg/wikipedia/processor.go:78-87 | one queued page: dropped if visited meanwhile, else processed; nothing left uncovered |
| Walker.CategoryProcessor.ProcessPage | pkg/wikipedia/processor.go:162-243 | nested lists queued, and the output, the emitted set and the counts after the page |
| Walker.CategoryProcessor.MarkVisited | pkg/wikipedia/processor.go:97-103 | tells whether the title was new, and adds it |
| Harvest.AllIsTallied | pkg/wikipedia/processor.go:192-240 | for any pages: what is emitted is each title accepted on some page, once, and emitted, duplicate and rejected add up to the candidates |
| Harvest.AcceptedMeans | pkg/wikipedia/processor.go:192-208 | a title is accepted if and only if some candidate of some fetched page puts it forward: the title its metadata resolved to, unless that is rejected, or, when none was fetched, its own, unless a missing article is |
| Harvest.OutputMeans | pkg/wikipedia/processor.go:192-240 | the records are, in order, those of the first mention of each title put forward: its page, place and country, verified if and only if the article is accepted outright; no title twice; and emitted, rejected, unverified and located count exactly those |
| Harvest.PagesAreCounted | pkg/wikipedia/processor.go:169-182 | the pages counted are those that could be fetched, the candidates counted all they name |
| Harvest.MentionsMean | pkg/wikipedia/processor.go:173-192 | a mention is a candidate of a processed page that could be fetched, and each of them is one |
| Walker.NearestCategoryDecides | pkg/wikipedia/processor.go:119-145 | the country a page inherits through categories is that of the nearest category above it whose name gives one, none if there is none; through a list page, the one that page was settled with |
| Walker.ClosedAndReachableIsExact | pkg/wikipedia/processor.go:69-151 | a closed set within what is reachable, holding the root, is all that is reachable |
| Harvest.NamesAreUnique | pkg/wikipedia/processor.go:203-207 | as many names as entries means no name twice |
| Extractor.Extract | pkg/wikipedia/extractor.go:65-200 | the one-pass reader, with its map of localities, returns what the whole history of each section decides |
| Extractor.FindGroupHeader | pkg/wikipedia/extractor.go:214-228 | an item is a group header if and only if the first line after it that is not blank is a deeper list item |
| Extractor.LastEnclosing | pkg/wikipedia/extractor.go:150-186 | the nearest enclosing header: shallower, naming a place, with no item since at its depth or above |
| Extractor.ScanOutwardFindsLocality | pkg/wikipedia/extractor.go:150-186 | looking outward depth by depth in the map finds exactly that header, else the heading's scope |
| Extractor.TracksNextItem | pkg/wikipedia/extractor.go:150-186 | dropping the deeper entries at each item keeps the map equal to the headers in force |
| Extractor.HeaderStaysInForce | pkg/wikipedia/extractor.go:150-186 | a header stays in force until an item at its depth or above |
| Extractor.KeepsFirstOccurrences | pkg/wikipedia/extractor.go:65-200 | the output is the first offer of each museum and of each list, in the order met |
| Extractor.NoMuseumTwice | pkg/wikipedia/extractor.go:65-200 | no museum is reported twice |
| Extractor.NoListTwice | pkg/wikipedia/extractor.go:65-200 | no list is reported twice |
| Extractor.ExtractionCharacterised | pkg/wikipedia/extractor.go:65-200 | the whole output for every page, told by its offers |
| Extractor.ItemsAreFiledByTheirLines | pkg/wikipedia/extractor.go:150-196 | in a list without headings or tables, an item that leads to none deeper is offered under the place of the nearest line above that heads it (less deep, followed by a deeper item, naming a place, no item since at its depth or above), or under the section's when none does |
| Extractor.HeadingsMean | pkg/wikipedia/extractor.go:108-125 | after any headings: text is passed over exactly when the last skipped heading has not been left since, even one that stands inside a skipped section; the section's place is that of the last heading, if linked |
| Extractor.ResultMeans | pkg/wikipedia/extractor.go:79-106 | the museums are the titles offered as entries that are included and name no list, each with the place first offered; the lists are the museum lists offered as links, or as included entries that name a list |
| Extractor.RowOffersMean | pkg/wikipedia/extractor.go:139-155 | a table offers the museums its rows name in the name column, at the place in the place column, or the section's when there is none |
| Table.ParseTable | pkg/wikipedia/table.go:21-96 | the rows and headers of the table read, and where it ends: at the marker that closes it, else at the last line, never before its start |
| Table.ClosesOnce | pkg/wikipedia/table.go:41-60 | only one line can close a table |
| Table.NestedTablesStayInTheirCell | pkg/wikipedia/table.go:21-96 | a nested table adds no row and no cell; the table has the rows and cells of its outline, each cell only ever longer |
| Table.SplitOutsideMarkup | pkg/wikipedia/table.go:116-144 | the index loop computes the split |
| Table.SplitLosesNothing | pkg/wikipedia/table.go:116-144 | joining the parts with the separator gives back every input |
| Table.PartsSplitNoFurther | pkg/wikipedia/table.go:116-144 | every part re-splits to itself, for any separator |
| Table.SplitUndoesJoin | pkg/wikipedia/table.go:100-144 | cells joined into a line come back as the same cells |
| Layout.MarkupIsKeptWhole | pkg/wikipedia/table.go:110-144 | texts with links and templates, nested at will and holding separators, are split between them and never inside a link or a template |
| Layout.SheetReadsBack | pkg/wikipedia/table.go:15-96 | a table written out among other lines, with captions, blank lines, continued cells and tables nested in cells, closes at its own last line and reads as its rows of cells, each with the text and the tables below it |
| Layout.ParsedAsMeant | pkg/wikipedia/table.go:15-96 | so ParseTable, by what it promises, returns exactly that end, the first row with cells as headers and the others as rows |
| Layout.SheetIsOffered | pkg/wikipedia/extractor.go:139-155 | and the page it stands on offers what those rows name, in the columns the first one decides |
| Wikitext.StripTemplates | pkg/wikipedia/wikitext.go:78-100 | the loop computes the specification, falling back to the input when braces do not balance |
| Wikitext.StripIsIdempotent | pkg/wikipedia/wikitext.go:78-100 | stripping twice is stripping once, on every string |
| Wikitext.ScanIsSubsequence | pkg/wikipedia/wikitext.go:78-100 | what is left is a subsequence of the input |
| Wikitext.StripRemovesAllOrNothing | pkg/wikipedia/wikitext.go:71-100 | no opener is left if the braces balanced, the input is unchanged if they did not |
| Wikitext.StripCutsTemplatesWhole | pkg/wikipedia/wikitext.go:71-100 | text with whole templates at any nesting comes back as exactly the text around them |
| Wikitext.BalancedMeans | pkg/wikipedia/wikitext.go:71-100 | the braces balance if and only if the text is some page of characters and nested templates, written out; what is left is then the prose of that page, and otherwise the text itself |
| Gate.Gate.Wait | internal/ratelimit/gate.go:48-62 | the delay leads to the slot owed, and the next slot is an interval later |
| Gate.Gate.SlowDown | internal/ratelimit/gate.go:65-72 | the interval doubles, up to the ceiling |
| Gate.Gate.SpeedUp | internal/ratelimit/gate.go:79-88 | the interval narrows, down to the floor |
| Gate.IntervalStaysInBounds | internal/ratelimit/gate.go:40-88 | through every interleaving the interval stays within its bounds |
| Gate.SlotsAreSpaced | internal/ratelimit/gate.go:48-62 | successive slots are at least the minimum apart, whatever the clocks said |
| Gate.SlotsAreNotWasted | internal/ratelimit/gate.go:48-62 | and no later than needed: at once, or what was owed at the start, or at most the widest interval after the one before |
| Gate.WindowHoldsFew | internal/ratelimit/gate.go:48-62 | a window of length T holds at most T / min + 1 slots |
| Gate.RecoveryIsSlower | internal/ratelimit/gate.go:64-88 | a doubling that was not cut short outlasts five successes, and the sixth undoes it |
| Gate.Fetcher.WaitFor | pkg/exhibitions/fetch.go:221-243 | the same reservation on the host's own clock |
| Gate.EachHostHasItsOwnGate | pkg/exhibitions/fetch.go:221-243 | among visits to many hosts each host's slots are those of a gate of its own |
| Gate.HostContactsAreSpaced | pkg/exhibitions/fetch.go:221-243 | any two slots reserved for a host are at least the interval apart for each place between them |
| Acknowledge.Acker.Done | internal/service/iterator.go:131-145 | the count goes down once, and the commit runs with the last |
| Acknowledge.Item.Done | internal/enrich/item.go:106-118 | the callback is taken the first time only |
| Acknowledge.ProcessItem | internal/enrich/pipeline.go:72-89 | every step of every stage is run, and then one acknowledgement given |
| Acknowledge.CommitsOnceWhenAllSettled | internal/service/iterator.go:84-145 | under every interleaving of skips, stage steps and signals, the commit runs at most once, only with every record settled, and is then run or the one step owed |
| Acknowledge.StepKeepsInv | internal/service/iterator.go:84-145 | every step keeps: outstanding acknowledgements are the open records, and no record has run a step of a later stage before all of the earlier ones |
| Acknowledge.CommitComesWithTheNthCall | internal/service/iterator.go:131-145 | the counter commits with call number n exactly |
| Acknowledge.DoubleAcknowledgementCommitsEarly | internal/service/iterator.go:114-116 | acknowledging one of two records twice commits with the other untouched |
| Acknowledge.RawAckerSoundIffNoRepeats | internal/enrich/item.go:106-118 | the n calls cover all n records if and only if none is repeated, which the once-only guard ensures |

## Left out

- Transport: HTTP, SQL, S3, Kafka, the clients of Nominatim, Overpass and SPARQL, handlers, assets and command-line front ends are I/O plumbing; what they answer is an input.
- Text primitives: regular expressions, word lists, `CleanName`, `normalizeForMatch`, `TrimSpace` of a line, `cellContent`, `Classify`, the host rule `SiteKey`, the repair of invalid UTF-8, SHA-256 and date formatting are uninterpreted functions or fields of a parameter.
- Ranking SQL, trigram scores and PostGIS geometry: not decided by the code modelled here.
- Machine numbers: integers are unbounded, tokens are reals, durations whole nanoseconds; overflow, the rounding of 1.5 times an interval, the trip of an interval through hours in a float column and the microseconds of a database timestamp are not modelled.
- Cancellation, timeouts and shutdown: a run is followed up to any point, so a crash or a close is a run that stops; what a cancelled call returns is not modelled.
- Liveness: beyond the termination of every method and ScrapeQueue.NeverAtAStandstill, nothing says that a worker, an admitter or a sweeper is eventually scheduled.
- Merge.Merger.Add: the address, which merging never touches, is left out; museums are held by value where the code holds pointers, and the caller's alias list, which the code cleans in place, is not shared.
- Merge.KeysOfMeaning: a key is a pair, where the code joins the two normalised parts with a zero byte; normalised text holds letters and digits only.
- Consolidation.ArrivalOrderDoesNotMatter: says nothing of the fields that keep the first value given (name, locality, website and the like), which do depend on the order; Consolidation.FoldKeepsFirst says how.
- ScrapeQueue: cells are pairs of integers, and their printed names are not claimed to be canonical; the limit of 24 site workers is not imposed, so the theorems hold for any number; writing the cooldown to the database, pruning and merging at the end of an area, and the refusal of areas that are too wide are left out.
- ScrapeQueue.ScrapeBook.TryClaim: a caller told that the area is queued may still see the claim withdrawn, when the caller that made it finds the channel full.
- Dispatch.NeitherFallsBehind: counts handouts while both areas wait, not the time a site takes.
- Sites.ReachedWithin: at one instant, with no rows locked and nothing newly discovered; a stream of never-read sites can always go ahead of a read one.
- Leases.NoSiteInTwoHands: exclusion between sweepers only; a visitor's read may be under way on a held site, since it ignores claims.
- Listings.ListingTable.SaveExhibitions: museum, position and scrape time of a listing are left out, as are the clean-up passes that prune and merge listings.
- Freshness.LiveIsTheLastFind: reads are taken one after another and the read in question finds listings of its own site; overlapping reads, and later reads that store this site's listings or move listings to it, are left out.
- Fingerprints.FingerprintIsExact: takes it from the scraper that a URL holds no control character and a title no line break (`pkg/exhibitions/extract.go:871-875`, `1052-1071`).
- Walker.CategoryProcessor.ProcessCategory: fetches that fail are titles without an entry; of several paths to a page that bring different countries it is not said which the depth-first order takes; titles carry their namespace, as the site's do.
- Extractor.Extract: lines come trimmed, and what a line is (heading, item, link, table) is a function of its text; for the tables, that an empty cell yields neither a link nor text is taken from `firstArticleLink` and `linkOrText`.
- Acknowledge.ProcessItem: counts the steps run; that stages come one after another is stated by Acknowledge.StepKeepsInv.
- Gate.HostContactsAreSpaced: speaks of the slots reserved; a timer that fires late moves the contact itself.
- Acknowledge.CommitsOnceWhenAllSettled: stays with one message's commit callback; the order of commits across messages, and so at-least-once delivery by offset, is left out.
- `Gate.RetryAfter`, `Backoff`, robots rules, link parsing, heading parsing and the other one-branch helpers are left out: their properties would be easy ones.
- `CategoryCrawler.walk`, coverage reports and the summary of a sweep are left out.
