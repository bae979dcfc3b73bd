/** What reads leave in the exhibitions table: one read, and any number of reads one
    after another. internal/sweep/runner.go, Read, over the statements of
    internal/postgres. */
module Freshness {
  import opened Listings
  import opened Runner
  import opened Schedule

  /** The site's scraped listings that are not retired. */
  function Live(t: Table, site: string): set<string> {
    set u | u in t && t[u].site == site && t[u].source == Scraped && t[u].retired == None
  }

  /** The site answered, and some listing was found on it. */
  predicate FindsListings(a: Answer) {
    a.Answered? && a.reached && a.found != []
  }

  /** The scraper's word that nothing moved comes with no listings. */
  predicate FromScraper(a: Answer) {
    a.Answered? && a.reached && a.steady ==> a.found == []
  }

  /** Nothing found was read before the instant, or after the other. */
  predicate ReadWithin(a: Answer, from: int, until: int) {
    forall k :: 0 <= k < |FoundIn(a)| ==> from <= FoundIn(a)[k].at <= until
  }

  /** A row found under the URL reaches the table. */
  ghost predicate Stored(a: Answer, faults: Faults, u: string) {
    Written(Sent(FoundIn(a)), Refused(faults), u)
  }

  lemma SentWithin(a: Answer, from: int, until: int)
    requires ReadWithin(a, from, until)
    ensures forall k :: 0 <= k < |Sent(FoundIn(a))| ==> from <= Sent(FoundIn(a))[k].at <= until
  {
    var rows := Sent(FoundIn(a));
    forall k | 0 <= k < |rows| ensures from <= rows[k].at <= until {
      SentFound(FoundIn(a), rows[k]);
    }
  }

  // ------------------------------------------------------------------- one read

  /** A read that fails, finds nothing, has no website to go to, or hears that
      nothing moved retires nothing, revives nothing and stores nothing: at most it
      marks the site's live listings as seen. */
  lemma FruitlessReadsRetireNothing(key: string -> string, t: Table, site: string, a: Answer, faults: Faults, from: int)
    requires !FindsListings(a)
    ensures var t' := TableAfter(key, t, site, a, faults, from);
            && t'.Keys == t.Keys
            && (forall u :: u in t ==>
                  t'[u] == if a.Answered? && a.reached && a.steady && !faults.touch && t[u].site == site && t[u].retired == None
                           then t[u].(lastSeen := from) else t[u])
            && (forall s :: Live(t', s) == Live(t, s))
  {
  }

  /** After a fruitful read, a row it stored is live, and one it did not is retired
      exactly if it was live, scraped, of this site, and last seen before. */
  lemma RowAfter(key: string -> string, t: Table, site: string, a: Answer, faults: Faults, from: int, until: int,
                 u: string)
    requires FindsListings(a) && FromScraper(a) && ReadWithin(a, from, until)
    ensures var t' := TableAfter(key, t, site, a, faults, from);
            && (u in t' <==> u in t || Stored(a, faults, u))
            && (Stored(a, faults, u) ==>
                  && t'[u].retired == None
                  && t'[u].source == (if u in t then t[u].source else Scraped)
                  && (exists k :: 0 <= k < |FoundIn(a)| && t'[u].site == SiteOf(key, FoundIn(a)[k])))
            && (u in t && !Stored(a, faults, u) ==>
                  t'[u] == if !faults.retire && t[u].site == site && t[u].source == Scraped
                              && t[u].retired == None && t[u].lastSeen < from
                           then t[u].(retired := Some(from)) else t[u])
  {
    var rows, refused := Sent(FoundIn(a)), Refused(faults);
    var saved := Saved(key, t, rows, refused);
    if Stored(a, faults, u) {
      var k := SavedWrites(key, t, rows, refused, u);
      SentWithin(a, from, until);
      SentFound(FoundIn(a), rows[k]);
      assert rows[k] in FoundIn(a);
      assert saved[u].lastSeen >= from;
    } else {
      SavedLeavesAlone(key, t, rows, refused, u);
    }
  }

  /** After a read that found something, starting later than anything was last
      seen, the site's live listings are exactly the ones it stored, submissions
      aside; and a found listing is live again wherever it was. */
  lemma LiveIsWhatWasStored(key: string -> string, t: Table, site: string, a: Answer, faults: Faults, before: int,
                            from: int, until: int)
    requires Sound(t, before) && before < from && ReadWithin(a, from, until)
    requires FindsListings(a) && FromScraper(a) && !faults.retire
    requires forall k :: 0 <= k < |FoundIn(a)| ==> SiteOf(key, FoundIn(a)[k]) == site
    ensures forall u :: u in Live(TableAfter(key, t, site, a, faults, from), site)
                        <==> Stored(a, faults, u) && !(u in t && t[u].source == Submitted)
  {
    forall u ensures u in Live(TableAfter(key, t, site, a, faults, from), site)
                     <==> Stored(a, faults, u) && !(u in t && t[u].source == Submitted)
    {
      RowAfter(key, t, site, a, faults, from, until, u);
    }
  }

  /** The read found the listing, under a URL that is not blank. */
  ghost predicate Finds(a: Answer, u: string) {
    !Blank(u) && exists k :: 0 <= k < |FoundIn(a)| && FoundIn(a)[k].url == u
  }

  lemma StoredOnlyIfFound(a: Answer, faults: Faults, u: string)
    ensures Stored(a, faults, u) ==> Finds(a, u)
    ensures Refused(faults) == {} ==> (Stored(a, faults, u) <==> Finds(a, u))
  {
    var found, rows := FoundIn(a), Sent(FoundIn(a));
    if Stored(a, faults, u) {
      var k :| Writing(rows, Refused(faults), u, k);
      SentFound(found, rows[k]);
      assert rows[k] in found;
    }
    if Finds(a, u) && Refused(faults) == {} {
      var k :| 0 <= k < |found| && found[k].url == u;
      SentFound(found, found[k]);
      var j :| 0 <= j < |rows| && rows[j] == found[k];
      assert Writing(rows, Refused(faults), u, j);
    }
  }

  /** When every row was saved, they are exactly the ones it found. */
  lemma LiveIsWhatWasFound(key: string -> string, t: Table, site: string, a: Answer, faults: Faults, before: int,
                           from: int, until: int)
    requires Sound(t, before) && before < from && ReadWithin(a, from, until)
    requires FindsListings(a) && FromScraper(a) && !faults.retire && Refused(faults) == {}
    requires forall k :: 0 <= k < |FoundIn(a)| ==> SiteOf(key, FoundIn(a)[k]) == site
    ensures forall u :: u in Live(TableAfter(key, t, site, a, faults, from), site)
                        <==> Finds(a, u) && !(u in t && t[u].source == Submitted)
  {
    LiveIsWhatWasStored(key, t, site, a, faults, before, from, until);
    forall u ensures Stored(a, faults, u) <==> Finds(a, u) {
      StoredOnlyIfFound(a, faults, u);
    }
  }

  /** The listing was live before and is not any more. */
  ghost predicate LosesFound(t: Table, t': Table, a: Answer, u: string) {
    Finds(a, u) && u in t && t[u].retired == None && !(u in t' && t'[u].retired == None)
  }

  /** A read is meant to retire only what it did not see. It does exactly when no
      listing it found, and that is due to be retired, had all its rows refused. */
  lemma RetiresOnlyTheUnseenIff(key: string -> string, t: Table, site: string, a: Answer, faults: Faults,
                                from: int, until: int)
    requires FindsListings(a) && FromScraper(a) && ReadWithin(a, from, until) && !faults.retire
    ensures (forall u :: !LosesFound(t, TableAfter(key, t, site, a, faults, from), a, u))
            <==> forall u :: (Finds(a, u) && u in t && t[u].site == site && t[u].source == Scraped && t[u].retired == None
                              && t[u].lastSeen < from) ==> Stored(a, faults, u)
  {
    var t' := TableAfter(key, t, site, a, faults, from);
    forall u ensures LosesFound(t, t', a, u) <==> Finds(a, u) && u in t && Unseen(t[u], site, from) && !Stored(a, faults, u) {
      RowAfter(key, t, site, a, faults, from, until, u);
    }
  }

  /** One refused row is enough: the listing was on the page and is hidden. */
  lemma RefusedRowIsRetired(key: string -> string, site: string)
    ensures var f := Found("u", "a title the database refuses", "page", None, None, true, 10);
            var t := map["u" := Row("a title", site, Scraped, None, None, true, 1, 1, None)];
            var a := Answered(true, false, [f], "page", "", "");
            var faults := Faults(true, {0}, false, false, false, false);
            LosesFound(t, TableAfter(key, t, site, a, faults, 10), a, "u")
  {
    var f := Found("u", "a title the database refuses", "page", None, None, true, 10);
    var t := map["u" := Row("a title", site, Scraped, None, None, true, 1, 1, None)];
    var a := Answered(true, false, [f], "page", "", "");
    var faults := Faults(true, {0}, false, false, false, false);
    assert FoundIn(a)[0].url == "u" && !IsSpace("u"[0]) && !Blank("u");
    assert Sent([f][..0]) == [];
    assert Sent([f]) == [f];
    RowAfter(key, t, site, a, faults, 10, 10, "u");
  }

  /** A read of one site leaves every row of another that it did not store exactly as
      it was, whatever it found and whatever failed. */
  lemma OtherSitesAreLeftAlone(key: string -> string, t: Table, site: string, a: Answer, faults: Faults, from: int, u: string)
    requires u in t && t[u].site != site && !Stored(a, faults, u)
    ensures u in TableAfter(key, t, site, a, faults, from) && TableAfter(key, t, site, a, faults, from)[u] == t[u]
  {
    var touched := if NotMoved(a) && !faults.touch then Touched(t, site, from) else t;
    SavedLeavesAlone(key, touched, Sent(FoundIn(a)), Refused(faults), u);
  }

  /** What a save leaves of a row's source and site, and whether it is retired. */
  lemma {:induction false} SavedRow(key: string -> string, t: Table, a: Answer, faults: Faults, u: string)
    ensures var saved := Saved(key, t, Sent(FoundIn(a)), Refused(faults));
            if Stored(a, faults, u) then
              && u in saved && saved[u].retired == None && saved[u].source == (if u in t then t[u].source else Scraped)
              && (exists k :: 0 <= k < |FoundIn(a)| && saved[u].site == SiteOf(key, FoundIn(a)[k]))
            else (u in saved <==> u in t) && (u in t ==> saved[u] == t[u])
  {
    var rows, refused := Sent(FoundIn(a)), Refused(faults);
    if Stored(a, faults, u) {
      var k := SavedWrites(key, t, rows, refused, u);
      SentFound(FoundIn(a), rows[k]);
      assert rows[k] in FoundIn(a);
    } else {
      SavedLeavesAlone(key, t, rows, refused, u);
    }
  }

  function Marked(t: Table, site: string, a: Answer, faults: Faults, from: int): Table {
    if NotMoved(a) && !faults.touch then Touched(t, site, from) else t
  }

  lemma MarkedRow(t: Table, site: string, a: Answer, faults: Faults, from: int, u: string)
    ensures u in Marked(t, site, a, faults, from) <==> u in t
    ensures u in t ==> Marked(t, site, a, faults, from)[u] == t[u].(lastSeen := Marked(t, site, a, faults, from)[u].lastSeen)
  {
  }

  /** A submission stays one, and no read ever retires it. */
  lemma SubmissionsAreNotRetired(key: string -> string, t: Table, site: string, a: Answer, faults: Faults, from: int, u: string)
    requires u in t && t[u].source == Submitted
    ensures var t' := TableAfter(key, t, site, a, faults, from);
            u in t' && t'[u].source == Submitted && (t[u].retired == None ==> t'[u].retired == None)
  {
    var marked := Marked(t, site, a, faults, from);
    MarkedRow(t, site, a, faults, from, u);
    if FindsListings(a) {
      SavedRow(key, marked, a, faults, u);
      RetiringSparesSubmissions(Saved(key, marked, Sent(FoundIn(a)), Refused(faults)), site, from, u);
    } else {
      assert TableAfter(key, t, site, a, faults, from) == marked;
    }
  }

  lemma RetiringSparesSubmissions(t: Table, site: string, from: int, u: string)
    requires u in t && t[u].source == Submitted
    ensures u in Retired(t, site, from) && Retired(t, site, from)[u] == t[u]
  {
  }

  /** Marking a site's listings as seen changes nothing that a later read retires:
      what it does not find is retired all the same. */
  lemma TouchingProtectsNothing(key: string -> string, t: Table, site: string, seen: int, a: Answer, faults: Faults,
                                before: int, from: int, until: int, u: string)
    requires Sound(t, before) && before < from && seen < from && ReadWithin(a, from, until)
    requires FindsListings(a) && FromScraper(a) && u in t
    ensures u in TableAfter(key, t, site, a, faults, from) && u in TableAfter(key, Touched(t, site, seen), site, a, faults, from)
    ensures TableAfter(key, Touched(t, site, seen), site, a, faults, from)[u].retired
         == TableAfter(key, t, site, a, faults, from)[u].retired
  {
    RowAfter(key, t, site, a, faults, from, until, u);
    RowAfter(key, Touched(t, site, seen), site, a, faults, from, until, u);
  }

  /** The number reported is that of the listings that were live and no longer are. */
  lemma ReportsWhatItRetired(key: string -> string, t: Table, site: string, a: Answer, faults: Faults, from: int, until: int)
    requires FromScraper(a) && ReadWithin(a, from, until)
    ensures var t' := TableAfter(key, t, site, a, faults, from);
            GoneFrom(key, t, site, a, faults, from) == |set u | u in t && t[u].retired == None && u in t' && t'[u].retired != None|
  {
    var t' := TableAfter(key, t, site, a, faults, from);
    var gone := set u | u in t && t[u].retired == None && u in t' && t'[u].retired != None;
    if FindsListings(a) {
      var saved := Saved(key, t, Sent(FoundIn(a)), Refused(faults));
      forall u ensures u in gone <==> !faults.retire && u in saved && Unseen(saved[u], site, from) {
        RowAfter(key, t, site, a, faults, from, until, u);
        UnseenOnceSaved(key, t, site, a, faults, from, until, u);
      }
      if !faults.retire {
        assert gone == set u | u in saved && Unseen(saved[u], site, from);
      } else {
        assert gone == {};
      }
    } else {
      FruitlessReadsRetireNothing(key, t, site, a, faults, from);
      assert gone == {};
    }
  }

  lemma {:induction false} UnseenOnceSaved(key: string -> string, t: Table, site: string, a: Answer, faults: Faults,
                                           from: int, until: int, u: string)
    requires ReadWithin(a, from, until)
    ensures var saved := Saved(key, t, Sent(FoundIn(a)), Refused(faults));
            u in saved && Unseen(saved[u], site, from) <==> u in t && !Stored(a, faults, u) && Unseen(t[u], site, from)
  {
    var rows, refused := Sent(FoundIn(a)), Refused(faults);
    if Stored(a, faults, u) {
      var k := SavedWrites(key, t, rows, refused, u);
      SentWithin(a, from, until);
    } else {
      SavedLeavesAlone(key, t, rows, refused, u);
    }
  }

  // ----------------------------------------------------------------- any number

  /** One read: of which site, what was answered, and from when to when it ran. */
  datatype Visit = Visit(site: string, answer: Answer, faults: Faults, from: int, until: int)

  function AfterVisit(key: string -> string, t: Table, v: Visit): Table {
    TableAfter(key, t, v.site, v.answer, v.faults, v.from)
  }

  function AfterVisits(key: string -> string, t: Table, run: seq<Visit>): Table
    decreases |run|
  {
    if run == [] then t else AfterVisit(key, AfterVisits(key, t, run[..|run| - 1]), run[|run| - 1])
  }

  predicate InOrder(v: Visit) {
    FromScraper(v.answer) && v.from <= v.until && ReadWithin(v.answer, v.from, v.until)
  }

  function EndOf(before: int, run: seq<Visit>): int {
    if run == [] then before else run[|run| - 1].until
  }

  /** The visits follow one another, the first after the instant. */
  predicate Successive(before: int, run: seq<Visit>)
    decreases |run|
  {
    run == []
    || (Successive(before, run[..|run| - 1])
        && InOrder(run[|run| - 1])
        && EndOf(before, run[..|run| - 1]) < run[|run| - 1].from)
  }

  /** First seen never moves forward, whenever the reads happened. */
  lemma FirstSeenStepsBack(key: string -> string, t: Table, v: Visit, u: string)
    requires u in t
    ensures u in AfterVisit(key, t, v) && AfterVisit(key, t, v)[u].firstSeen <= t[u].firstSeen
    ensures AfterVisit(key, t, v)[u].source == t[u].source
  {
    var touched := if NotMoved(v.answer) && !v.faults.touch then Touched(t, v.site, v.from) else t;
    var rows, refused := Sent(FoundIn(v.answer)), Refused(v.faults);
    if Written(rows, refused, u) {
      var k := SavedWrites(key, touched, rows, refused, u);
    } else {
      SavedLeavesAlone(key, touched, rows, refused, u);
    }
  }

  lemma {:induction false} FirstSeenNeverMovesForward(key: string -> string, t: Table, run: seq<Visit>, u: string)
    requires u in t
    ensures u in AfterVisits(key, t, run) && AfterVisits(key, t, run)[u].firstSeen <= t[u].firstSeen
    ensures AfterVisits(key, t, run)[u].source == t[u].source
    decreases |run|
  {
    if run != [] {
      FirstSeenNeverMovesForward(key, t, run[..|run| - 1], u);
      FirstSeenStepsBack(key, AfterVisits(key, t, run[..|run| - 1]), run[|run| - 1], u);
    }
  }

  lemma VisitKeepsSound(key: string -> string, t: Table, v: Visit, before: int)
    requires Sound(t, before) && InOrder(v) && before < v.from
    ensures Sound(AfterVisit(key, t, v), v.until)
  {
    SentWithin(v.answer, v.from, v.until);
    var touched := if NotMoved(v.answer) && !v.faults.touch then Touched(t, v.site, v.from) else t;
    assert Sound(touched, v.until);
    SavedIsSound(key, touched, Sent(FoundIn(v.answer)), Refused(v.faults), v.until);
  }

  /** Over any reads one after another, every listing was first seen no later than
      last, and last by the end of the last read. */
  lemma {:induction false} ReadsKeepSound(key: string -> string, t: Table, before: int, run: seq<Visit>)
    requires Sound(t, before) && Successive(before, run)
    ensures Sound(AfterVisits(key, t, run), EndOf(before, run))
    decreases |run|
  {
    if run != [] {
      var less := run[..|run| - 1];
      ReadsKeepSound(key, t, before, less);
      VisitKeepsSound(key, AfterVisits(key, t, less), run[|run| - 1], EndOf(before, less));
    }
  }

  /** The visit is to another site, stores no listing the table holds of this one, and
      finds none that belongs to it. */
  ghost predicate KeepsAwayFrom(key: string -> string, t: Table, v: Visit, s: string) {
    && v.site != s
    && (forall u :: u in t && t[u].site == s ==> !Stored(v.answer, v.faults, u))
    && (forall k :: 0 <= k < |FoundIn(v.answer)| ==> SiteOf(key, FoundIn(v.answer)[k]) != s)
  }

  ghost predicate SameRowsOf(t: Table, t': Table, s: string) {
    forall u :: if u in t && t[u].site == s then u in t' && t'[u] == t[u] else u in t' ==> t'[u].site != s
  }

  lemma VisitKeepsOtherSite(key: string -> string, t: Table, v: Visit, s: string)
    requires KeepsAwayFrom(key, t, v, s)
    ensures SameRowsOf(t, AfterVisit(key, t, v), s)
  {
    var t' := AfterVisit(key, t, v);
    forall u ensures if u in t && t[u].site == s then u in t' && t'[u] == t[u] else u in t' ==> t'[u].site != s {
      if u in t && t[u].site == s {
        OtherSitesAreLeftAlone(key, t, v.site, v.answer, v.faults, v.from, u);
      } else {
        NoRowMovesIn(key, t, v, s, u);
      }
    }
  }

  lemma NoRowMovesIn(key: string -> string, t: Table, v: Visit, s: string, u: string)
    requires KeepsAwayFrom(key, t, v, s) && (u in t ==> t[u].site != s)
    ensures u in AfterVisit(key, t, v) ==> AfterVisit(key, t, v)[u].site != s
  {
    var marked := Marked(t, v.site, v.answer, v.faults, v.from);
    MarkedRow(t, v.site, v.answer, v.faults, v.from, u);
    if FindsListings(v.answer) {
      SavedRow(key, marked, v.answer, v.faults, u);
      RetiringMovesNothing(Saved(key, marked, Sent(FoundIn(v.answer)), Refused(v.faults)), v.site, v.from, u);
    } else {
      assert AfterVisit(key, t, v) == marked;
    }
  }

  lemma RetiringMovesNothing(t: Table, site: string, from: int, u: string)
    ensures u in Retired(t, site, from) <==> u in t
    ensures u in t ==> Retired(t, site, from)[u].site == t[u].site
  {
  }

  /** Over any run of reads of other sites that neither store nor find a listing of
      this one, its rows stay exactly as they are; so the same of them are live. */
  lemma {:induction false} ReadsOfOthersLeaveItAlone(key: string -> string, t: Table, run: seq<Visit>, s: string)
    requires forall k :: 0 <= k < |run| ==> KeepsAwayFrom(key, t, run[k], s)
    ensures SameRowsOf(t, AfterVisits(key, t, run), s)
    ensures Live(AfterVisits(key, t, run), s) == Live(t, s)
    decreases |run|
  {
    if run != [] {
      var less, v := run[..|run| - 1], run[|run| - 1];
      ReadsOfOthersLeaveItAlone(key, t, less, s);
      var t' := AfterVisits(key, t, less);
      assert KeepsAwayFrom(key, t, v, s);
      forall u | u in t' && t'[u].site == s ensures !Stored(v.answer, v.faults, u) {
        assert u in t && t[u].site == s;
      }
      VisitKeepsOtherSite(key, t', v, s);
      SameRowsTwice(t, t', AfterVisit(key, t', v), s);
    }
    SameRowsSameLive(t, AfterVisits(key, t, run), s);
  }

  lemma SameRowsTwice(a: Table, b: Table, c: Table, s: string)
    requires SameRowsOf(a, b, s) && SameRowsOf(b, c, s)
    ensures SameRowsOf(a, c, s)
  {
  }

  lemma SameRowsSameLive(t: Table, t': Table, s: string)
    requires SameRowsOf(t, t', s)
    ensures Live(t', s) == Live(t, s)
  {
    forall u ensures u in Live(t', s) <==> u in Live(t, s) {
    }
  }

  lemma {:induction false} SubmissionsStay(key: string -> string, t: Table, run: seq<Visit>, u: string)
    requires u in t && t[u].source == Submitted
    ensures var t' := AfterVisits(key, t, run);
            u in t' && t'[u].source == Submitted && (t[u].retired == None ==> t'[u].retired == None)
    decreases |run|
  {
    if run != [] {
      var less, v := run[..|run| - 1], run[|run| - 1];
      SubmissionsStay(key, t, less, u);
      SubmissionsAreNotRetired(key, AfterVisits(key, t, less), v.site, v.answer, v.faults, v.from, u);
    }
  }

  /** The same listings are the site's, and the same of them live. */
  ghost predicate SameLive(t: Table, t': Table, s: string) {
    && (forall u :: u in t && t[u].site == s <==> u in t' && t'[u].site == s)
    && Live(t', s) == Live(t, s)
  }

  lemma QuietVisitKeepsLive(key: string -> string, t: Table, v: Visit, s: string)
    requires !FindsListings(v.answer) || KeepsAwayFrom(key, t, v, s)
    ensures SameLive(t, AfterVisit(key, t, v), s)
  {
    if FindsListings(v.answer) {
      VisitKeepsOtherSite(key, t, v, s);
      SameRowsSameLive(t, AfterVisit(key, t, v), s);
    } else {
      FruitlessReadsRetireNothing(key, t, v.site, v.answer, v.faults, v.from);
    }
  }

  lemma {:induction false} QuietRunsKeepLive(key: string -> string, t: Table, run: seq<Visit>, s: string)
    requires forall k :: 0 <= k < |run| ==> !FindsListings(run[k].answer) || KeepsAwayFrom(key, t, run[k], s)
    ensures SameLive(t, AfterVisits(key, t, run), s)
    decreases |run|
  {
    if run != [] {
      var less, v := run[..|run| - 1], run[|run| - 1];
      QuietRunsKeepLive(key, t, less, s);
      var t' := AfterVisits(key, t, less);
      assert FindsListings(v.answer) ==> KeepsAwayFrom(key, t, v, s);
      QuietVisitKeepsLive(key, t', v, s);
    }
  }

  /** Whatever was read before, of any site, and whatever comes after that fails, finds
      nothing, or reads other sites and keeps away from this one: from a read that
      found something and stored all of it, the site's live listings are exactly those
      it found, submissions aside. */
  lemma {:induction false} LiveIsTheLastFind(key: string -> string, t: Table, before: int, earlier: seq<Visit>,
                                             v: Visit, later: seq<Visit>)
    requires Sound(t, before) && Successive(before, earlier) && InOrder(v) && EndOf(before, earlier) < v.from
    requires FindsListings(v.answer) && !v.faults.retire && Refused(v.faults) == {}
    requires forall k :: 0 <= k < |FoundIn(v.answer)| ==> SiteOf(key, FoundIn(v.answer)[k]) == v.site
    requires var at := AfterVisit(key, AfterVisits(key, t, earlier), v);
             forall k :: 0 <= k < |later| ==> !FindsListings(later[k].answer) || KeepsAwayFrom(key, at, later[k], v.site)
    ensures var at := AfterVisits(key, t, earlier);
            forall u :: u in Live(AfterVisits(key, AfterVisit(key, at, v), later), v.site)
                        <==> Finds(v.answer, u) && !(u in at && at[u].source == Submitted)
  {
    var at := AfterVisits(key, t, earlier);
    ReadsKeepSound(key, t, before, earlier);
    LiveIsWhatWasFound(key, at, v.site, v.answer, v.faults, EndOf(before, earlier), v.from, v.until);
    QuietRunsKeepLive(key, AfterVisit(key, at, v), later, v.site);
  }
}
