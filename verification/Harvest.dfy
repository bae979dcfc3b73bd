/** pkg/wikipedia/processor.go: what the list pages of a crawl yield. Candidates
    are judged in the order the pages are processed in, and each article is
    reported once. */
module Harvest {
  import opened Extractor

  datatype Member = Member(ns: int, title: string)

  datatype PendingPage = PendingPage(title: string, country: string)

  datatype Metadata = Metadata(title: string, missing: bool, hasCoordinates: bool)

  datatype Decision = Accept | AcceptUnverified | Reject

  datatype Found = Found(name: string, country: string, locality: string, sourcePage: string, verified: bool)

  datatype Stats = Stats(pages: nat, candidates: nat, emitted: nat, unverified: nat,
                         withCoordinates: nat, duplicates: nat, rejected: nat)

  /** The site as the crawl finds it. A title missing from members or pages is one
      whose fetch failed; a title missing from a page's metadata was not resolved. */
  datatype Site = Site(
    members: map<string, seq<Member>>,
    pages: map<string, Extraction>,
    metadata: map<string, map<string, Metadata>>,
    classify: Metadata -> Decision,
    categoryCountry: string -> Option<string>,
    pageCountry: (string, string) -> string)

  /** The metadata a candidate is judged by. */
  function MetaOf(site: Site, page: string, title: string): Metadata {
    if page in site.metadata && title in site.metadata[page] then site.metadata[page][title]
    else Metadata(title, true, false)
  }

  /** The canonical title a candidate is emitted under, unless rejected. */
  function Canonical(site: Site, page: string, title: string): Option<string> {
    var meta := MetaOf(site, page, title);
    if site.classify(meta).Reject? then None else Some(meta.title)
  }

  /** What it contributes. */
  function Judged(site: Site, page: string, title: string): set<string> {
    var canonical := Canonical(site, page, title);
    if canonical.Some? then {canonical.value} else {}
  }

  ghost function AcceptedOn(site: Site, page: string, n: nat): set<string>
    requires page in site.pages && n <= |site.pages[page].candidates|
  {
    if n == 0 then {} else AcceptedOn(site, page, n - 1) + Judged(site, page, site.pages[page].candidates[n - 1].title)
  }

  ghost function AcceptedOnAll(site: Site, pages: seq<PendingPage>): set<string>
    decreases |pages|
  {
    if pages == [] then {}
    else
      var last := pages[|pages| - 1].title;
      AcceptedOnAll(site, pages[..|pages| - 1])
      + if last in site.pages then AcceptedOn(site, last, |site.pages[last].candidates|) else {}
  }

  /** What has been emitted, and the running counts. */
  datatype Ledger = Ledger(emitted: set<string>, output: seq<Found>, stats: Stats)

  const EMPTY_LEDGER := Ledger({}, [], Stats(0, 0, 0, 0, 0, 0, 0))

  /** One candidate: rejected, a duplicate, or emitted. */
  function Considered(site: Site, page: string, country: string, c: Candidate, l: Ledger): Ledger {
    var meta := MetaOf(site, page, c.title);
    var decision := site.classify(meta);
    if decision == Reject then l.(stats := l.stats.(rejected := l.stats.rejected + 1))
    else if meta.title in l.emitted then l.(stats := l.stats.(duplicates := l.stats.duplicates + 1))
    else
      var sure := decision == Accept;
      Ledger(l.emitted + {meta.title},
             l.output + [Found(meta.title, country, c.locality, page, sure)],
             l.stats.(emitted := l.stats.emitted + 1,
                      unverified := l.stats.unverified + (if sure then 0 else 1),
                      withCoordinates := l.stats.withCoordinates + (if sure && meta.hasCoordinates then 1 else 0)))
  }

  function ConsideredAll(site: Site, page: string, country: string, cs: seq<Candidate>, l: Ledger): Ledger
    decreases |cs|
  {
    if cs == [] then l
    else Considered(site, page, country, cs[|cs| - 1], ConsideredAll(site, page, country, cs[..|cs| - 1], l))
  }

  /** A page with that many candidates is begun. */
  function Begun(l: Ledger, candidates: nat): Ledger {
    l.(stats := l.stats.(pages := l.stats.pages + 1, candidates := l.stats.candidates + candidates))
  }

  function Posted(site: Site, p: PendingPage, l: Ledger): Ledger {
    if p.title !in site.pages then l
    else
      var cs := site.pages[p.title].candidates;
      ConsideredAll(site, p.title, site.pageCountry(p.title, p.country), cs, Begun(l, |cs|))
  }

  /** All that the pages yield, processed in that order. */
  function PostedAll(site: Site, pages: seq<PendingPage>): Ledger
    decreases |pages|
  {
    if pages == [] then EMPTY_LEDGER else Posted(site, pages[|pages| - 1], PostedAll(site, pages[..|pages| - 1]))
  }

  function NamesOf(output: seq<Found>): set<string> {
    set f | f in output :: f.name
  }

  /** What has been emitted is each accepted title, once, and every candidate
      judged is counted as emitted, duplicate or rejected. */
  ghost predicate Tallied(accepted: set<string>, l: Ledger, judged: int) {
    && l.emitted == accepted
    && NamesOf(l.output) == accepted && |accepted| == |l.output|
    && l.stats.emitted == |l.output|
    && judged == l.stats.emitted + l.stats.duplicates + l.stats.rejected
  }

  lemma ConsideredIsTallied(site: Site, page: string, country: string, c: Candidate, l: Ledger,
                            accepted: set<string>, judged: int)
    requires Tallied(accepted, l, judged)
    ensures Tallied(accepted + Judged(site, page, c.title), Considered(site, page, country, c, l), judged + 1)
    ensures Considered(site, page, country, c, l).stats.candidates == l.stats.candidates
  {
  }

  lemma {:induction false} PageIsTallied(site: Site, page: string, country: string, n: nat, l: Ledger,
                                         accepted: set<string>, judged: int)
    requires page in site.pages && n <= |site.pages[page].candidates| && Tallied(accepted, l, judged)
    ensures var l' := ConsideredAll(site, page, country, site.pages[page].candidates[..n], l);
            Tallied(accepted + AcceptedOn(site, page, n), l', judged + n) && l'.stats.candidates == l.stats.candidates
  {
    var cs := site.pages[page].candidates;
    if n == 0 {
      assert accepted + {} == accepted;
    } else {
      PageIsTallied(site, page, country, n - 1, l, accepted, judged);
      assert cs[..n][..n - 1] == cs[..n - 1];
      var before := ConsideredAll(site, page, country, cs[..n - 1], l);
      ConsideredIsTallied(site, page, country, cs[n - 1], before, accepted + AcceptedOn(site, page, n - 1), judged + n - 1);
      Regroup(accepted, AcceptedOn(site, page, n - 1), Judged(site, page, cs[n - 1].title));
    }
  }

  lemma Regroup(a: set<string>, b: set<string>, c: set<string>)
    ensures a + b + c == a + (b + c)
  {
  }

  lemma {:induction false} WholePageIsTallied(site: Site, page: string, country: string, l: Ledger,
                                              accepted: set<string>)
    requires page in site.pages && Tallied(accepted, l, l.stats.candidates)
    ensures var cs := site.pages[page].candidates;
            var l' := ConsideredAll(site, page, country, cs, Begun(l, |cs|));
            Tallied(accepted + AcceptedOn(site, page, |cs|), l', l'.stats.candidates)
  {
    var cs := site.pages[page].candidates;
    PageIsTallied(site, page, country, |cs|, Begun(l, |cs|), accepted, l.stats.candidates);
    assert cs[..|cs|] == cs;
  }

  lemma {:induction false} PostedIsTallied(site: Site, p: PendingPage, l: Ledger, accepted: set<string>)
    requires Tallied(accepted, l, l.stats.candidates)
    ensures var more := if p.title in site.pages then AcceptedOn(site, p.title, |site.pages[p.title].candidates|) else {};
            Tallied(accepted + more, Posted(site, p, l), Posted(site, p, l).stats.candidates)
  {
    if p.title in site.pages {
      WholePageIsTallied(site, p.title, site.pageCountry(p.title, p.country), l, accepted);
    } else {
      assert accepted + {} == accepted;
    }
  }

  /** Whatever pages are processed, each title some page names and that is not
      rejected is emitted once, and every candidate is accounted for. */
  lemma {:induction false} AllIsTallied(site: Site, pages: seq<PendingPage>)
    ensures Tallied(AcceptedOnAll(site, pages), PostedAll(site, pages), PostedAll(site, pages).stats.candidates)
    decreases |pages|
  {
    if pages != [] {
      var less, last := pages[..|pages| - 1], pages[|pages| - 1];
      AllIsTallied(site, less);
      PostedIsTallied(site, last, PostedAll(site, less), AcceptedOnAll(site, less));
    }
  }

  lemma EmittedOneMore(output: seq<Found>, f: Found)
    ensures NamesOf(output + [f]) == NamesOf(output) + {f.name}
  {
  }

  lemma AnotherName(less: seq<Found>, last: Found)
    ensures |NamesOf(less + [last])| == |NamesOf(less)| + if last.name in NamesOf(less) then 0 else 1
    ensures last.name in NamesOf(less) <==> exists k :: 0 <= k < |less| && less[k].name == last.name
  {
    EmittedOneMore(less, last);
    if last.name in NamesOf(less) {
      assert NamesOf(less) + {last.name} == NamesOf(less);
      var f :| f in less && f.name == last.name;
    }
  }

  /** As many names as there are entries: no two entries share one. */
  lemma {:induction false} NamesAreUnique(output: seq<Found>)
    ensures |NamesOf(output)| <= |output|
    ensures |NamesOf(output)| == |output| <==> forall i, j :: 0 <= i < j < |output| ==> output[i].name != output[j].name
    decreases |output|
  {
    if output != [] {
      var less, last := output[..|output| - 1], output[|output| - 1];
      NamesAreUnique(less);
      assert output == less + [last];
      AnotherName(less, last);
    }
  }

  // ------------------------------------------------------- what the output says

  /** A candidate as a page names it. */
  datatype Mention = Mention(page: PendingPage, candidate: Candidate)

  /** The metadata was fetched along with the page. */
  predicate Fetched(site: Site, m: Mention) {
    m.page.title in site.metadata && m.candidate.title in site.metadata[m.page.title]
  }

  /** The mention puts an article of that title forward: the article its link
      resolved to, unless that is rejected; or, when nothing was resolved, its own
      title, unless an article that is missing is rejected. */
  predicate PutsForward(site: Site, m: Mention, title: string) {
    var own := m.candidate.title;
    if Fetched(site, m) then
      site.metadata[m.page.title][own].title == title && site.classify(site.metadata[m.page.title][own]) != Reject
    else
      own == title && site.classify(Metadata(own, true, false)) != Reject
  }

  /** The article behind it is taken for a museum outright. */
  predicate Sure(site: Site, m: Mention) {
    var own := m.candidate.title;
    if Fetched(site, m) then site.classify(site.metadata[m.page.title][own]) == Accept
    else site.classify(Metadata(own, true, false)) == Accept
  }

  predicate Placed(site: Site, m: Mention) {
    Fetched(site, m) && site.metadata[m.page.title][m.candidate.title].hasCoordinates
  }

  predicate Refused(site: Site, m: Mention) {
    var own := m.candidate.title;
    if Fetched(site, m) then site.classify(site.metadata[m.page.title][own]) == Reject
    else site.classify(Metadata(own, true, false)) == Reject
  }

  /** The record is the one made of the mention. */
  predicate Tells(site: Site, m: Mention, f: Found) {
    && PutsForward(site, m, f.name)
    && f.country == site.pageCountry(m.page.title, m.page.country)
    && f.locality == m.candidate.locality
    && f.sourcePage == m.page.title
    && f.verified == Sure(site, m)
  }

  function MentionsOn(p: PendingPage, cs: seq<Candidate>): (ms: seq<Mention>)
    ensures |ms| == |cs| && forall k :: 0 <= k < |cs| ==> ms[k] == Mention(p, cs[k])
  {
    if cs == [] then [] else MentionsOn(p, cs[..|cs| - 1]) + [Mention(p, cs[|cs| - 1])]
  }

  /** All that the pages name, in the order they are processed in. */
  function Mentions(site: Site, pages: seq<PendingPage>): seq<Mention>
    decreases |pages|
  {
    if pages == [] then []
    else
      var last := pages[|pages| - 1];
      Mentions(site, pages[..|pages| - 1])
      + if last.title in site.pages then MentionsOn(last, site.pages[last.title].candidates) else []
  }

  /** No earlier mention puts that title forward. */
  ghost predicate First(site: Site, ms: seq<Mention>, i: nat, title: string) {
    && i < |ms| && PutsForward(site, ms[i], title)
    && forall j :: 0 <= j < i ==> !PutsForward(site, ms[j], title)
  }

  /** The records are those of the first mentions, one for each title put forward,
      in their order. The indices tell which. */
  ghost predicate Explained(site: Site, ms: seq<Mention>, output: seq<Found>, at: seq<nat>) {
    && |at| == |output|
    && (forall i :: 0 <= i < |at| ==> First(site, ms, at[i], output[i].name) && Tells(site, ms[at[i]], output[i]))
    && (forall i, j :: 0 <= i < j < |at| ==> at[i] < at[j])
    && (forall j, title :: 0 <= j < |ms| && PutsForward(site, ms[j], title) ==> title in NamesOf(output))
  }

  lemma JudgedAsNamed(site: Site, m: Mention, title: string)
    ensures var meta := MetaOf(site, m.page.title, m.candidate.title);
            && (PutsForward(site, m, title) <==> site.classify(meta) != Reject && meta.title == title)
            && (Sure(site, m) <==> site.classify(meta) == Accept)
            && (Refused(site, m) <==> site.classify(meta) == Reject)
            && (Placed(site, m) ==> meta.hasCoordinates)
            && (meta.hasCoordinates ==> Placed(site, m))
  {
  }

  lemma ExplainedStill(site: Site, ms: seq<Mention>, m: Mention, output: seq<Found>, at: seq<nat>)
    requires Explained(site, ms, output, at)
    requires forall title :: PutsForward(site, m, title) ==> title in NamesOf(output)
    ensures Explained(site, ms + [m], output, at)
  {
    forall i | 0 <= i < |at| ensures First(site, ms + [m], at[i], output[i].name) && Tells(site, (ms + [m])[at[i]], output[i]) {
      assert First(site, ms, at[i], output[i].name);
    }
  }

  lemma ExplainedOneMore(site: Site, ms: seq<Mention>, m: Mention, output: seq<Found>, at: seq<nat>, f: Found)
    requires Explained(site, ms, output, at) && Tells(site, m, f) && f.name !in NamesOf(output)
    requires forall title :: PutsForward(site, m, title) ==> title == f.name
    ensures Explained(site, ms + [m], output + [f], at + [|ms|])
  {
    EmittedOneMore(output, f);
    var at', output' := at + [|ms|], output + [f];
    forall i | 0 <= i < |at'|
      ensures First(site, ms + [m], at'[i], output'[i].name) && Tells(site, (ms + [m])[at'[i]], output'[i])
    {
      if i < |at| {
        assert First(site, ms, at[i], output[i].name);
      }
    }
    forall i, j | 0 <= i < j < |at'| ensures at'[i] < at'[j] {
      assert First(site, ms, at[i], output[i].name);
    }
  }

  ghost function Refusals(site: Site, ms: seq<Mention>): set<int> {
    set j | 0 <= j < |ms| && Refused(site, ms[j])
  }

  ghost function Unsure(output: seq<Found>): set<int> {
    set i | 0 <= i < |output| && !output[i].verified
  }

  /** The records of museums taken outright whose article gives a place. */
  ghost function Located(site: Site, ms: seq<Mention>, output: seq<Found>, at: seq<nat>): set<int> {
    set i | 0 <= i < |output| && output[i].verified && i < |at| && at[i] < |ms| && Placed(site, ms[at[i]])
  }

  /** The counts, by what they count. */
  ghost predicate Counted(site: Site, ms: seq<Mention>, output: seq<Found>, at: seq<nat>, stats: Stats) {
    && stats.emitted == |output|
    && stats.rejected == |Refusals(site, ms)|
    && stats.unverified == |Unsure(output)|
    && stats.withCoordinates == |Located(site, ms, output, at)|
    && stats.emitted + stats.duplicates + stats.rejected == |ms|
  }

  lemma RefusalsOneMore(site: Site, ms: seq<Mention>, m: Mention)
    ensures |Refusals(site, ms + [m])| == |Refusals(site, ms)| + if Refused(site, m) then 1 else 0
  {
    assert Refusals(site, ms + [m]) == Refusals(site, ms) + if Refused(site, m) then {|ms|} else {};
  }

  lemma UnsureOneMore(output: seq<Found>, f: Found)
    ensures |Unsure(output + [f])| == |Unsure(output)| + if f.verified then 0 else 1
  {
    assert Unsure(output + [f]) == Unsure(output) + if f.verified then {} else {|output|};
  }

  lemma LocatedStill(site: Site, ms: seq<Mention>, m: Mention, output: seq<Found>, at: seq<nat>)
    requires Explained(site, ms, output, at)
    ensures Located(site, ms + [m], output, at) == Located(site, ms, output, at)
  {
    forall i | 0 <= i < |output| ensures at[i] < |ms| {
      assert First(site, ms, at[i], output[i].name);
    }
  }

  lemma LocatedOneMore(site: Site, ms: seq<Mention>, m: Mention, output: seq<Found>, at: seq<nat>, f: Found)
    requires Explained(site, ms, output, at)
    ensures |Located(site, ms + [m], output + [f], at + [|ms|])|
         == |Located(site, ms, output, at)| + if f.verified && Placed(site, m) then 1 else 0
  {
    forall i | 0 <= i < |output| ensures at[i] < |ms| {
      assert First(site, ms, at[i], output[i].name);
    }
    assert Located(site, ms + [m], output + [f], at + [|ms|])
        == Located(site, ms, output, at) + if f.verified && Placed(site, m) then {|output|} else {};
  }

  ghost predicate Accounts(site: Site, ms: seq<Mention>, l: Ledger, at: seq<nat>) {
    && Explained(site, ms, l.output, at) && l.emitted == NamesOf(l.output)
    && Counted(site, ms, l.output, at, l.stats)
  }

  function Weighed(site: Site, m: Mention, l: Ledger): Ledger {
    Considered(site, m.page.title, site.pageCountry(m.page.title, m.page.country), m.candidate, l)
  }

  lemma NotEmitted(site: Site, ms: seq<Mention>, m: Mention, l: Ledger, at: seq<nat>)
    requires Accounts(site, ms, l, at)
    requires var meta := MetaOf(site, m.page.title, m.candidate.title);
             site.classify(meta) == Reject || meta.title in l.emitted
    ensures Accounts(site, ms + [m], Weighed(site, m, l), at)
  {
    forall title ensures PutsForward(site, m, title) ==> title in NamesOf(l.output) {
      JudgedAsNamed(site, m, title);
    }
    JudgedAsNamed(site, m, "");
    ExplainedStill(site, ms, m, l.output, at);
    RefusalsOneMore(site, ms, m);
    LocatedStill(site, ms, m, l.output, at);
  }

  lemma NewlyEmitted(site: Site, ms: seq<Mention>, m: Mention, l: Ledger, at: seq<nat>)
    requires Accounts(site, ms, l, at)
    requires var meta := MetaOf(site, m.page.title, m.candidate.title);
             site.classify(meta) != Reject && meta.title !in l.emitted
    ensures Accounts(site, ms + [m], Weighed(site, m, l), at + [|ms|])
  {
    var meta := MetaOf(site, m.page.title, m.candidate.title);
    var f := Found(meta.title, site.pageCountry(m.page.title, m.page.country), m.candidate.locality, m.page.title,
                   site.classify(meta) == Accept);
    forall title ensures PutsForward(site, m, title) ==> title == f.name {
      JudgedAsNamed(site, m, title);
    }
    JudgedAsNamed(site, m, f.name);
    ExplainedOneMore(site, ms, m, l.output, at, f);
    EmittedOneMore(l.output, f);
    RefusalsOneMore(site, ms, m);
    UnsureOneMore(l.output, f);
    LocatedOneMore(site, ms, m, l.output, at, f);
  }

  lemma WeighedIsAccounted(site: Site, ms: seq<Mention>, m: Mention, l: Ledger, at: seq<nat>) returns (at': seq<nat>)
    requires Accounts(site, ms, l, at)
    ensures Accounts(site, ms + [m], Weighed(site, m, l), at')
  {
    var meta := MetaOf(site, m.page.title, m.candidate.title);
    if site.classify(meta) == Reject || meta.title in l.emitted {
      NotEmitted(site, ms, m, l, at);
      at' := at;
    } else {
      NewlyEmitted(site, ms, m, l, at);
      at' := at + [|ms|];
    }
  }

  lemma {:induction false} PageIsAccounted(site: Site, ms: seq<Mention>, p: PendingPage, cs: seq<Candidate>, l: Ledger,
                                           at: seq<nat>) returns (at': seq<nat>)
    requires Accounts(site, ms, l, at)
    ensures Accounts(site, ms + MentionsOn(p, cs), ConsideredAll(site, p.title, site.pageCountry(p.title, p.country), cs, l), at')
    decreases |cs|
  {
    if cs == [] {
      assert ms + MentionsOn(p, cs) == ms;
      at' := at;
    } else {
      var less, last := cs[..|cs| - 1], cs[|cs| - 1];
      var before := PageIsAccounted(site, ms, p, less, l, at);
      var so := ConsideredAll(site, p.title, site.pageCountry(p.title, p.country), less, l);
      at' := WeighedIsAccounted(site, ms + MentionsOn(p, less), Mention(p, last), so, before);
      assert ms + MentionsOn(p, less) + [Mention(p, last)] == ms + MentionsOn(p, cs);
    }
  }

  lemma {:induction false} PostedIsAccounted(site: Site, ms: seq<Mention>, p: PendingPage, l: Ledger, at: seq<nat>)
    returns (at': seq<nat>)
    requires Accounts(site, ms, l, at)
    ensures var more := if p.title in site.pages then MentionsOn(p, site.pages[p.title].candidates) else [];
            Accounts(site, ms + more, Posted(site, p, l), at')
  {
    if p.title in site.pages {
      var cs := site.pages[p.title].candidates;
      assert Accounts(site, ms, Begun(l, |cs|), at);
      at' := PageIsAccounted(site, ms, p, cs, Begun(l, |cs|), at);
    } else {
      assert ms + [] == ms;
      at' := at;
    }
  }

  lemma NothingIsAccounted(site: Site)
    ensures Accounts(site, [], EMPTY_LEDGER, [])
  {
    assert Refusals(site, []) == {} && Located(site, [], [], []) == {} && Unsure([]) == {};
  }

  lemma {:induction false} AllIsAccounted(site: Site, pages: seq<PendingPage>) returns (at: seq<nat>)
    ensures Accounts(site, Mentions(site, pages), PostedAll(site, pages), at)
    decreases |pages|
  {
    if pages == [] {
      NothingIsAccounted(site);
      at := [];
    } else {
      var less, last := pages[..|pages| - 1], pages[|pages| - 1];
      var before := AllIsAccounted(site, less);
      at := PostedIsAccounted(site, Mentions(site, less), last, PostedAll(site, less), before);
    }
  }

  lemma {:induction false} ConsideringKeepsCounts(site: Site, page: string, country: string, cs: seq<Candidate>, l: Ledger)
    ensures var l' := ConsideredAll(site, page, country, cs, l);
            l'.stats.pages == l.stats.pages && l'.stats.candidates == l.stats.candidates
    decreases |cs|
  {
    if cs != [] {
      ConsideringKeepsCounts(site, page, country, cs[..|cs| - 1], l);
    }
  }

  /** The pages that could be fetched. */
  ghost function Readable(site: Site, pages: seq<PendingPage>): set<int> {
    set p | 0 <= p < |pages| && pages[p].title in site.pages
  }

  lemma ReadableOneMore(site: Site, pages: seq<PendingPage>, p: PendingPage)
    ensures |Readable(site, pages + [p])| == |Readable(site, pages)| + if p.title in site.pages then 1 else 0
  {
    assert Readable(site, pages + [p]) == Readable(site, pages) + if p.title in site.pages then {|pages|} else {};
  }

  /** The pages counted are those that could be fetched, the candidates those
      they name. */
  lemma {:induction false} PagesAreCounted(site: Site, pages: seq<PendingPage>)
    ensures var stats := PostedAll(site, pages).stats;
            stats.pages == |Readable(site, pages)| && stats.candidates == |Mentions(site, pages)|
    decreases |pages|
  {
    if pages == [] {
      assert Readable(site, pages) == {};
    } else {
      var less, last := pages[..|pages| - 1], pages[|pages| - 1];
      PagesAreCounted(site, less);
      assert pages == less + [last];
      ReadableOneMore(site, less, last);
      if last.title in site.pages {
        var cs := site.pages[last.title].candidates;
        ConsideringKeepsCounts(site, last.title, site.pageCountry(last.title, last.country), cs, Begun(PostedAll(site, less), |cs|));
      }
    }
  }

  /** A mention is a candidate of some page that could be fetched. */
  lemma {:induction false} MentionsMean(site: Site, pages: seq<PendingPage>, m: Mention)
    ensures m in Mentions(site, pages)
       <==> exists p, k :: 0 <= p < |pages| && pages[p].title in site.pages
                           && 0 <= k < |site.pages[pages[p].title].candidates|
                           && m == Mention(pages[p], site.pages[pages[p].title].candidates[k])
    decreases |pages|
  {
    if pages != [] {
      var n := |pages| - 1;
      MentionsMean(site, pages[..n], m);
      assert forall p :: 0 <= p < n ==> pages[..n][p] == pages[p];
      if pages[n].title in site.pages {
        var cs := site.pages[pages[n].title].candidates;
        assert m in MentionsOn(pages[n], cs) <==> exists k :: 0 <= k < |cs| && m == Mention(pages[n], cs[k]);
      }
    }
  }

  /** The records are those of the first mention of each title put forward, in
      their order, no two of one name; and the counts count them. */
  ghost predicate Reported(site: Site, ms: seq<Mention>, l: Ledger) {
    && (exists at :: Explained(site, ms, l.output, at) && Counted(site, ms, l.output, at, l.stats))
    && (forall title :: title in NamesOf(l.output) <==> exists m :: m in ms && PutsForward(site, m, title))
    && (forall i, j :: 0 <= i < j < |l.output| ==> l.output[i].name != l.output[j].name)
  }

  /** So it is whatever pages are processed, in whatever order. */
  lemma {:induction false} OutputMeans(site: Site, pages: seq<PendingPage>)
    ensures Reported(site, Mentions(site, pages), PostedAll(site, pages))
  {
    var ms, output := Mentions(site, pages), PostedAll(site, pages).output;
    var at := AllIsAccounted(site, pages);
    assert Explained(site, ms, output, at) && Counted(site, ms, output, at, PostedAll(site, pages).stats);
    NamesAreMentioned(site, ms, output, at);
  }

  lemma NamesAreMentioned(site: Site, ms: seq<Mention>, output: seq<Found>, at: seq<nat>)
    requires Explained(site, ms, output, at)
    ensures forall title :: title in NamesOf(output) <==> exists m :: m in ms && PutsForward(site, m, title)
    ensures forall i, j :: 0 <= i < j < |output| ==> output[i].name != output[j].name
  {
    forall title ensures title in NamesOf(output) <==> exists m :: m in ms && PutsForward(site, m, title) {
      if title in NamesOf(output) {
        var f :| f in output && f.name == title;
        var i :| 0 <= i < |output| && output[i] == f;
        assert First(site, ms, at[i], output[i].name) && ms[at[i]] in ms;
      }
    }
    forall i, j | 0 <= i < j < |output| ensures output[i].name != output[j].name {
      assert First(site, ms, at[i], output[i].name) && First(site, ms, at[j], output[j].name);
    }
  }

  lemma {:induction false} AcceptedOnMeans(site: Site, p: PendingPage, n: nat, t: string)
    requires p.title in site.pages && n <= |site.pages[p.title].candidates|
    ensures t in AcceptedOn(site, p.title, n)
       <==> exists k :: 0 <= k < n && PutsForward(site, Mention(p, site.pages[p.title].candidates[k]), t)
  {
    if n > 0 {
      AcceptedOnMeans(site, p, n - 1, t);
      JudgedAsNamed(site, Mention(p, site.pages[p.title].candidates[n - 1]), t);
    }
  }

  /** The titles emitted are those that some candidate of a processed page puts
      forward. */
  lemma {:induction false} AcceptedMeans(site: Site, pages: seq<PendingPage>, t: string)
    ensures t in AcceptedOnAll(site, pages)
       <==> exists p, k :: 0 <= p < |pages| && pages[p].title in site.pages
                           && 0 <= k < |site.pages[pages[p].title].candidates|
                           && PutsForward(site, Mention(pages[p], site.pages[pages[p].title].candidates[k]), t)
    decreases |pages|
  {
    if pages != [] {
      var n := |pages| - 1;
      AcceptedMeans(site, pages[..n], t);
      if pages[n].title in site.pages {
        AcceptedOnMeans(site, pages[n], |site.pages[pages[n].title].candidates|, t);
      }
      assert forall p :: 0 <= p < n ==> pages[..n][p] == pages[p];
    }
  }
}
