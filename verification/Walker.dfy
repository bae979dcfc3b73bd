/** pkg/wikipedia/processor.go: a depth-first walk of a category graph with one
    shared visited set, then a worklist of the list pages found on list pages. */
module Walker {
  import opened Extractor
  import opened Harvest
  import Table

  const NAMESPACE_ARTICLE := 0
  const NAMESPACE_CATEGORY := 14

  // ------------------------------------------------------------------ the graph

  predicate IsCategory(title: string) {
    Table.HasPrefix(title, "Category:")
  }

  ghost function AllMembers(site: Site): set<Member> {
    set c, m | c in site.members && m in site.members[c] :: m
  }

  ghost function AllNested(site: Site): set<string> {
    set p, l | p in site.pages && l in site.pages[p].nestedLists :: l
  }

  predicate Named(m: Member) {
    (m.ns == NAMESPACE_CATEGORY ==> IsCategory(m.title)) && (m.ns == NAMESPACE_ARTICLE ==> !IsCategory(m.title))
  }

  /** Titles carry their namespace: a member is a category exactly when its title
      says so, and no list page is called one. */
  ghost predicate WellNamed(site: Site) {
    && (forall m :: m in AllMembers(site) ==> Named(m))
    && (forall l :: l in AllNested(site) ==> !IsCategory(l))
  }

  predicate Followed(m: Member) {
    m.ns == NAMESPACE_CATEGORY || m.ns == NAMESPACE_ARTICLE
  }

  /** Where a title leads: a category to its subcategories and articles, a page to
      the lists nested in it. */
  ghost function Successors(site: Site, title: string): set<string> {
    if IsCategory(title) then
      if title in site.members then set m | m in site.members[title] && Followed(m) :: m.title else {}
    else
      if title in site.pages then set l | l in site.pages[title].nestedLists else {}
  }

  /** The title is n steps from the root. */
  ghost predicate Reached(site: Site, root: string, title: string, n: nat)
    decreases n
  {
    if n == 0 then title == root
    else exists before :: Reached(site, root, before, n - 1) && title in Successors(site, before)
  }

  ghost predicate Reachable(site: Site, root: string, title: string) {
    exists n: nat :: Reached(site, root, title, n)
  }

  lemma RootIsReachable(site: Site, root: string)
    ensures Reachable(site, root, root)
  {
    assert Reached(site, root, root, 0);
  }

  lemma OneStepFurther(site: Site, root: string, title: string, next: string)
    requires Reachable(site, root, title) && next in Successors(site, title)
    ensures Reachable(site, root, next)
  {
    var n: nat :| Reached(site, root, title, n);
    assert Reached(site, root, next, n + 1);
  }

  /** Nothing in the set leads out of it. */
  ghost predicate Closed(site: Site, all: set<string>) {
    forall t :: t in all ==> Successors(site, t) <= all
  }

  /** A closed set that holds the root holds everything reachable. */
  lemma {:induction false} ClosedSetHoldsAll(site: Site, all: set<string>, root: string, title: string, n: nat)
    requires root in all && Closed(site, all) && Reached(site, root, title, n)
    ensures title in all
    decreases n
  {
    if n > 0 {
      var before :| Reached(site, root, before, n - 1) && title in Successors(site, before);
      ClosedSetHoldsAll(site, all, root, before, n - 1);
    }
  }

  /** Every title the site mentions; finite, and holding all that is reachable. */
  ghost function Mentioned(site: Site, root: string): set<string> {
    {root} + (set m | m in AllMembers(site) :: m.title) + AllNested(site)
  }

  lemma ReachableIsMentioned(site: Site, root: string, title: string)
    requires Reachable(site, root, title)
    ensures title in Mentioned(site, root)
  {
  }

  ghost function AllReachable(site: Site, root: string): (all: set<string>)
    ensures forall t :: t in all <==> Reachable(site, root, t)
  {
    var all := set t | t in Mentioned(site, root) && Reachable(site, root, t);
    assert forall t :: t in all <==> Reachable(site, root, t) by {
      forall t | Reachable(site, root, t) ensures t in all {
        ReachableIsMentioned(site, root, t);
      }
    }
    all
  }

  lemma ReachableIsClosed(site: Site, root: string)
    ensures Closed(site, AllReachable(site, root)) && root in AllReachable(site, root)
  {
    RootIsReachable(site, root);
    forall t, next | t in AllReachable(site, root) && next in Successors(site, t) ensures next in AllReachable(site, root) {
      OneStepFurther(site, root, t, next);
    }
  }

  lemma ClosedAndReachableIsExact(site: Site, root: string, visited: set<string>)
    requires root in visited && Closed(site, visited) && visited <= AllReachable(site, root)
    ensures visited == AllReachable(site, root)
  {
    forall t | t in AllReachable(site, root) ensures t in visited {
      var n: nat :| Reached(site, root, t, n);
      ClosedSetHoldsAll(site, visited, root, t, n);
    }
  }

  lemma NoMoreLeft(all: set<string>, visited: set<string>, visited': set<string>)
    requires visited <= visited'
    ensures |all - visited'| <= |all - visited|
  {
    Smaller(all - visited', all - visited);
  }

  lemma FewerLeft(all: set<string>, visited: set<string>, visited': set<string>)
    requires visited <= visited'
    ensures |all - visited'| <= |all - visited|
    ensures (exists t :: t in all && t in visited' && t !in visited) ==> |all - visited'| < |all - visited|
  {
    Smaller(all - visited', all - visited);
  }

  lemma Smaller(part: set<string>, whole: set<string>)
    requires part <= whole
    ensures |part| <= |whole|
    ensures part != whole ==> |part| < |whole|
  {
    assert whole == part + (whole - part);
  }

  // ------------------------------------------------------------ the country hints

  /** The country a title hands on to what it leads to: a category the country its
      name gives, else the one it was reached with; a page the country settled for
      it. */
  function HandedOn(site: Site, p: PendingPage): string {
    if IsCategory(p.title) then
      if site.categoryCountry(p.title).Some? then site.categoryCountry(p.title).value else p.country
    else site.pageCountry(p.title, p.country)
  }

  /** A path of n steps from the root leads to the title and brings that country. */
  ghost predicate Brought(site: Site, root: string, p: PendingPage, n: nat)
    decreases n
  {
    if n == 0 then p == PendingPage(root, "")
    else exists before :: Brought(site, root, before, n - 1) && Next(site, before, p)
  }

  ghost predicate Next(site: Site, before: PendingPage, p: PendingPage) {
    p.title in Successors(site, before.title) && p.country == HandedOn(site, before)
  }

  ghost function Trails(site: Site, root: string): iset<PendingPage> {
    iset p, n: nat | Brought(site, root, p, n) :: p
  }

  /** Whatever follows what is in the set is in it. */
  ghost predicate Follows(site: Site, trails: iset<PendingPage>) {
    forall p, next :: p in trails && Next(site, p, next) ==> next in trails
  }

  lemma TrailsFollow(site: Site, root: string)
    ensures Follows(site, Trails(site, root)) && PendingPage(root, "") in Trails(site, root)
  {
    assert Brought(site, root, PendingPage(root, ""), 0);
    forall p, next | p in Trails(site, root) && Next(site, p, next) ensures next in Trails(site, root) {
      var n: nat :| Brought(site, root, p, n);
      assert Brought(site, root, next, n + 1);
    }
  }

  /** Each member that is followed is, with that country. */
  ghost predicate MembersFollow(members: seq<Member>, country: string, trails: iset<PendingPage>) {
    forall k :: 0 <= k < |members| && Followed(members[k]) ==> PendingPage(members[k].title, country) in trails
  }

  ghost predicate MembersSeen(members: seq<Member>, n: nat, visited: set<string>) {
    n <= |members| && forall k :: 0 <= k < n && Followed(members[k]) ==> members[k].title in visited
  }

  lemma CategoryLeadsOn(site: Site, trails: iset<PendingPage>, p: PendingPage, country: string)
    requires Follows(site, trails) && p in trails && IsCategory(p.title) && p.title in site.members
    requires country == HandedOn(site, p)
    ensures MembersFollow(site.members[p.title], country, trails)
  {
    var ms := site.members[p.title];
    forall k | 0 <= k < |ms| && Followed(ms[k]) ensures PendingPage(ms[k].title, country) in trails {
      assert ms[k] in ms;
      assert Next(site, p, PendingPage(ms[k].title, country));
    }
  }

  /** What a page adds to the queue follows the page. */
  lemma NestedFollow(site: Site, trails: iset<PendingPage>, p: PendingPage, was: seq<PendingPage>, now: seq<PendingPage>)
    requires Follows(site, trails) && p in trails && !IsCategory(p.title)
    requires was <= now && forall q :: q in was ==> q in trails
    requires forall q :: q in now[|was|..] ==> p.title in site.pages && q.title in site.pages[p.title].nestedLists
                                               && q.country == site.pageCountry(p.title, p.country)
    ensures forall q :: q in now ==> q in trails
  {
    forall q | q in now[|was|..] ensures q in trails {
      assert Next(site, p, q);
    }
    assert now == was + now[|was|..];
  }

  lemma ProcessedOneMore(trails: iset<PendingPage>, processed: seq<PendingPage>, p: PendingPage)
    requires p in trails && forall q :: q in processed ==> q in trails
    ensures forall q :: q in processed + [p] ==> q in trails
  {
  }

  lemma {:induction false} PostedOneMore(site: Site, processed: seq<PendingPage>, p: PendingPage)
    ensures PostedAll(site, processed + [p]) == Posted(site, p, PostedAll(site, processed))
  {
    assert (processed + [p])[..|processed|] == processed;
  }

  ghost predicate Path(site: Site, path: seq<string>) {
    path != [] && forall k :: 0 <= k < |path| - 1 ==> path[k + 1] in Successors(site, path[k])
  }

  /** That title's name gives the country, and none between it and the end of the
      path gives any. */
  ghost predicate NamedLast(site: Site, path: seq<string>, k: int, country: string) {
    && 0 <= k < |path| - 1 && site.categoryCountry(path[k]) == Some(country)
    && forall j :: k < j < |path| - 1 ==> site.categoryCountry(path[j]).None?
  }

  ghost predicate Unnamed(site: Site, path: seq<string>) {
    forall j :: 0 <= j < |path| - 1 ==> site.categoryCountry(path[j]).None?
  }

  /** The last category before the end of the path whose name gives a country gives
      that one; if none does, there is none. */
  ghost predicate LastNamed(site: Site, path: seq<string>, country: string) {
    (Unnamed(site, path) && country == "") || exists k :: NamedLast(site, path, k, country)
  }

  /** All but the end of the path are categories. */
  ghost predicate ThroughCategories(path: seq<string>) {
    forall k :: 0 <= k < |path| - 1 ==> IsCategory(path[k])
  }

  lemma PathOneMore(site: Site, less: seq<string>, title: string)
    requires Path(site, less) && title in Successors(site, less[|less| - 1])
    ensures Path(site, less + [title])
    ensures ThroughCategories(less + [title]) <==> ThroughCategories(less) && IsCategory(less[|less| - 1])
  {
    var path, n := less + [title], |less|;
    assert path[..n] == less;
    forall k | 0 <= k < n ensures path[k] == less[k] {
    }
    assert path[n - 1] == less[n - 1];
  }

  /** A country brought through categories alone is that of the nearest category
      that names one; one brought by a page is what that page was settled with. */
  lemma {:induction false} NearestCategoryDecides(site: Site, root: string, p: PendingPage, n: nat)
    returns (path: seq<string>, hint: string)
    requires Brought(site, root, p, n)
    ensures Path(site, path) && |path| == n + 1 && path[0] == root && path[n] == p.title
    ensures ThroughCategories(path) ==> LastNamed(site, path, p.country)
    ensures n > 0 && !IsCategory(path[n - 1]) ==> p.country == site.pageCountry(path[n - 1], hint)
    decreases n
  {
    if n == 0 {
      path, hint := [root], "";
    } else {
      var before :| Brought(site, root, before, n - 1) && Next(site, before, p);
      var less, _ := NearestCategoryDecides(site, root, before, n - 1);
      path, hint := less + [p.title], before.country;
      PathOneMore(site, less, p.title);
      if ThroughCategories(path) {
        NamedOneMore(site, less, before.country, p.title);
      }
    }
  }

  lemma NamedOneMore(site: Site, less: seq<string>, country: string, title: string)
    requires less != [] && LastNamed(site, less, country)
    ensures var last := site.categoryCountry(less[|less| - 1]);
            LastNamed(site, less + [title], if last.Some? then last.value else country)
  {
    var path, n := less + [title], |less|;
    var last := site.categoryCountry(less[n - 1]);
    assert path[n - 1] == less[n - 1] && |path| == n + 1;
    if last.Some? {
      assert NamedLast(site, path, n - 1, last.value);
    } else if Unnamed(site, less) && country == "" {
      assert Unnamed(site, path);
    } else {
      var k :| NamedLast(site, less, k, country);
      NamedStill(site, less, k, country, title);
    }
  }

  lemma NamedStill(site: Site, less: seq<string>, k: int, country: string, title: string)
    requires NamedLast(site, less, k, country) && site.categoryCountry(less[|less| - 1]).None?
    ensures NamedLast(site, less + [title], k, country)
  {
  }

  // ---------------------------------------------------------------- what is kept

  function PendingTitles(pending: seq<PendingPage>): set<string> {
    set p | p in pending :: p.title
  }

  /** What has been visited since then leads only to what has been visited or
      queued. */
  ghost predicate Covered(site: Site, since: set<string>, visited: set<string>, queued: set<string>) {
    forall t :: t in visited && t !in since ==> Successors(site, t) <= visited + queued
  }

  lemma CoveredOnward(site: Site, since: set<string>, visited: set<string>, queued: set<string>,
                      visited': set<string>, queued': set<string>)
    requires Covered(site, since, visited, queued) && visited <= visited' && queued <= queued'
    requires Covered(site, visited, visited', queued')
    ensures Covered(site, since, visited', queued')
  {
  }

  /** A category is covered once its members have been visited, or if it cannot be
      fetched. */
  lemma CategoryCovered(site: Site, title: string, since: set<string>, visited: set<string>, queued: set<string>)
    requires IsCategory(title) && Covered(site, since + {title}, visited, queued)
    requires title in site.members ==> MembersSeen(site.members[title], |site.members[title]|, visited)
    ensures Covered(site, since, visited, queued)
  {
  }

  ghost predicate NoCategories(titles: set<string>) {
    forall t :: t in titles ==> !IsCategory(t)
  }

  /** What a page leads to stays within, and holds no category. */
  lemma PageLeadsToPages(site: Site, all: set<string>, queued: set<string>, title: string)
    requires WellNamed(site) && Closed(site, all) && title in all && !IsCategory(title)
    requires queued <= all && NoCategories(queued)
    ensures queued + Successors(site, title) <= all && NoCategories(queued + Successors(site, title))
  {
  }

  /** Where a followed member leads, and that its title says what it is. */
  lemma MemberIsNamed(site: Site, all: set<string>, title: string, m: Member)
    requires WellNamed(site) && Closed(site, all) && title in all && IsCategory(title)
    requires title in site.members && m in site.members[title] && Followed(m)
    ensures m.title in all && Named(m)
  {
  }

  ghost function PagesIn(visited: set<string>): set<string> {
    set t | t in visited && !IsCategory(t)
  }

  /** The pages processed are the pages visited, each once: as many titles as
      pages. */
  ghost predicate Logged(visited: set<string>, processed: seq<PendingPage>) {
    PendingTitles(processed) == PagesIn(visited) && |processed| == |PagesIn(visited)|
  }

  /** A page visited now was not visited before, and is processed next. */
  lemma LoggedOneMore(visited: set<string>, processed: seq<PendingPage>, p: PendingPage)
    requires Logged(visited, processed) && p.title !in visited && !IsCategory(p.title)
    ensures Logged(visited + {p.title}, processed + [p])
    ensures CategoriesIn(visited + {p.title}) == CategoriesIn(visited)
  {
    QueuedOneMore(processed, p);
    assert PagesIn(visited + {p.title}) == PagesIn(visited) + {p.title};
  }

  lemma AnotherTitle(less: seq<PendingPage>, last: PendingPage)
    ensures |PendingTitles(less + [last])| == |PendingTitles(less)| + if last.title in PendingTitles(less) then 0 else 1
    ensures last.title in PendingTitles(less) <==> exists k :: 0 <= k < |less| && less[k].title == last.title
  {
    QueuedOneMore(less, last);
    if last.title in PendingTitles(less) {
      assert PendingTitles(less) + {last.title} == PendingTitles(less);
      var p :| p in less && p.title == last.title;
    }
  }

  /** As many titles as entries: no two entries share one. */
  lemma {:induction false} TitlesAreUnique(pages: seq<PendingPage>)
    ensures |PendingTitles(pages)| <= |pages|
    ensures |PendingTitles(pages)| == |pages| <==> forall i, j :: 0 <= i < j < |pages| ==> pages[i].title != pages[j].title
    decreases |pages|
  {
    if pages != [] {
      var less, last := pages[..|pages| - 1], pages[|pages| - 1];
      TitlesAreUnique(less);
      assert pages == less + [last];
      AnotherTitle(less, last);
    }
  }

  lemma CategoryIsNoPage(visited: set<string>, title: string)
    requires IsCategory(title)
    ensures PagesIn(visited + {title}) == PagesIn(visited)
  {
  }

  ghost function CategoriesIn(visited: set<string>): set<string> {
    set t | t in visited && IsCategory(t)
  }

  lemma CategoriesOneMore(visited: set<string>, title: string)
    ensures CategoriesIn(visited + {title}) == CategoriesIn(visited) + if IsCategory(title) then {title} else {}
  {
  }

  class CategoryProcessor {
    const site: Site
    var visited: set<string>
    var emitted: set<string>
    var pending: seq<PendingPage>
    var stats: Stats
    var categoriesVisited: nat
    var output: seq<Found>
    ghost var processed: seq<PendingPage>

    constructor (site: Site)
      ensures this.site == site && visited == {} && pending == [] && processed == [] && Valid()
    {
      this.site := site;
      visited, emitted, pending, output, processed := {}, {}, [], [], [];
      stats, categoriesVisited := Stats(0, 0, 0, 0, 0, 0, 0), 0;
    }

    function Now(): Ledger
      reads this`emitted, this`output, this`stats
    {
      Ledger(emitted, output, stats)
    }

    ghost predicate Log()
      reads this`visited, this`processed, this`categoriesVisited
    {
      Logged(visited, processed) && categoriesVisited == |CategoriesIn(visited)|
    }

    ghost predicate Valid()
      reads this
    {
      Log() && Now() == PostedAll(site, processed)
    }

    method MarkVisited(title: string) returns (seen: bool)
      modifies this`visited
      ensures seen == (title in old(visited)) && visited == old(visited) + {title}
      ensures seen ==> visited == old(visited)
    {
      if title in visited {
        assert visited == visited + {title};
        return true;
      }
      visited := visited + {title};
      return false;
    }

    /** Queues the lists nested in a page, then judges and emits its candidates. */
    method ProcessPage(title: string, countryHint: string)
      modifies this`pending, this`stats, this`emitted, this`output
      ensures Now() == Posted(site, PendingPage(title, countryHint), old(Now()))
      ensures old(pending) <= pending
      ensures forall p :: p in pending[|old(pending)|..]
                      ==> title in site.pages && p.title in site.pages[title].nestedLists
                          && p.country == site.pageCountry(title, countryHint)
      ensures !IsCategory(title) ==> PendingTitles(pending) == PendingTitles(old(pending)) + Successors(site, title)
    {
      if title !in site.pages {
        return;
      }
      stats := stats.(pages := stats.pages + 1);
      var country := site.pageCountry(title, countryHint);
      var extraction := site.pages[title];
      QueueLists(extraction.nestedLists, country);
      if extraction.candidates == [] {
        return;
      }
      stats := stats.(candidates := stats.candidates + |extraction.candidates|);
      EmitAll(title, country, extraction.candidates);
    }

    method EmitAll(page: string, country: string, candidates: seq<Candidate>)
      modifies this`stats, this`emitted, this`output
      ensures Now() == ConsideredAll(site, page, country, candidates, old(Now()))
    {
      var i := 0;
      while i < |candidates|
        invariant 0 <= i <= |candidates|
        invariant Now() == ConsideredAll(site, page, country, candidates[..i], old(Now()))
      {
        assert candidates[..i + 1][..i] == candidates[..i];
        Consider(page, candidates[i], country);
        i := i + 1;
      }
      assert candidates[..i] == candidates;
    }

    method QueueLists(lists: seq<string>, country: string)
      modifies this`pending
      ensures old(pending) <= pending
      ensures forall p :: p in pending[|old(pending)|..] ==> p.title in lists && p.country == country
      ensures PendingTitles(pending) == PendingTitles(old(pending)) + set l | l in lists
    {
      var i := 0;
      while i < |lists|
        invariant 0 <= i <= |lists| && old(pending) <= pending
        invariant forall p :: p in pending[|old(pending)|..] ==> p.title in lists && p.country == country
        invariant PendingTitles(pending) == PendingTitles(old(pending)) + set l | l in lists[..i]
      {
        QueuedOneMore(pending, PendingPage(lists[i], country));
        assert lists[..i + 1] == lists[..i] + [lists[i]];
        pending := pending + [PendingPage(lists[i], country)];
        i := i + 1;
      }
      assert lists[..i] == lists;
    }

    method Consider(page: string, candidate: Candidate, country: string)
      modifies this`stats, this`emitted, this`output
      ensures Now() == Considered(site, page, country, candidate, old(Now()))
    {
      var meta := MetaOf(site, page, candidate.title);
      var decision := site.classify(meta);
      if decision == Reject {
        stats := stats.(rejected := stats.rejected + 1);
        return;
      }
      if meta.title in emitted {
        stats := stats.(duplicates := stats.duplicates + 1);
        return;
      }
      emitted := emitted + {meta.title};
      if decision != Accept {
        stats := stats.(unverified := stats.unverified + 1);
      }
      if meta.hasCoordinates && decision == Accept {
        stats := stats.(withCoordinates := stats.withCoordinates + 1);
      }
      stats := stats.(emitted := stats.emitted + 1);
      output := output + [Found(meta.title, country, candidate.locality, page, decision == Accept)];
    }

    /** Everything holds that a crawl within the set relies on between two steps. */
    ghost predicate Crawling(all: set<string>, trails: iset<PendingPage>)
      reads this
    {
      && Valid()
      && visited <= all
      && PendingTitles(pending) <= all
      && NoCategories(PendingTitles(pending))
      && (forall p :: p in pending ==> p in trails)
      && (forall p :: p in processed ==> p in trails)
    }

    /** Marks a category and counts it; tells whether it had been seen. */
    method EnterCategory(title: string, ghost all: set<string>, ghost trails: iset<PendingPage>) returns (seen: bool)
      requires Crawling(all, trails) && IsCategory(title) && title in all
      modifies this`visited, this`categoriesVisited
      ensures Crawling(all, trails)
      ensures seen == (title in old(visited)) && visited == old(visited) + {title}
    {
      seen := MarkVisited(title);
      if !seen {
        CategoriesOneMore(old(visited), title);
        CategoryIsNoPage(old(visited), title);
        categoriesVisited := categoriesVisited + 1;
      }
    }

    /** Visits a category not seen before, its subcategories and its articles. All
        it newly visits is covered, whatever was on the way when it was called. */
    method WalkCategory(title: string, countryHint: string, ghost all: set<string>, ghost trails: iset<PendingPage>)
      requires WellNamed(site) && Closed(site, all) && Follows(site, trails) && Crawling(all, trails)
      requires IsCategory(title) && title in all && PendingPage(title, countryHint) in trails
      modifies this
      ensures Crawling(all, trails)
      ensures old(visited) + {title} <= visited && PendingTitles(old(pending)) <= PendingTitles(pending)
      ensures Covered(site, old(visited), visited, PendingTitles(pending))
      decreases |all - visited|, 1
    {
      ghost var was := visited;
      var seen := EnterCategory(title, all, trails);
      if seen {
        return;
      }
      FewerLeft(all, was, visited);
      var hint := countryHint;
      if site.categoryCountry(title).Some? {
        hint := site.categoryCountry(title).value;
      }
      if title in site.members {
        CategoryLeadsOn(site, trails, PendingPage(title, countryHint), hint);
        VisitMembers(title, hint, all, trails);
      }
      CategoryCovered(site, title, was, visited, PendingTitles(pending));
    }

    /** Visits each member of a category, in order. */
    method VisitMembers(title: string, hint: string, ghost all: set<string>, ghost trails: iset<PendingPage>)
      requires WellNamed(site) && Closed(site, all) && Follows(site, trails) && Crawling(all, trails)
      requires IsCategory(title) && title in all && title in site.members
      requires MembersFollow(site.members[title], hint, trails)
      modifies this
      ensures Crawling(all, trails) && Since(old(visited), PendingTitles(old(pending)))
      ensures MembersSeen(site.members[title], |site.members[title]|, visited)
      decreases |all - visited|, 4
    {
      var members := site.members[title];
      var i := 0;
      while i < |members|
        invariant 0 <= i <= |members| && Crawling(all, trails)
        invariant Since(old(visited), PendingTitles(old(pending)))
        invariant MembersSeen(members, i, visited)
      {
        NoMoreLeft(all, old(visited), visited);
        VisitNext(title, i, hint, old(visited), PendingTitles(old(pending)), all, trails);
        i := i + 1;
      }
    }

    /** Nothing visited or queued at that time is lost, and all newly visited is
        covered. */
    ghost predicate Since(was: set<string>, queued: set<string>)
      reads this`visited, this`pending
    {
      && was <= visited && queued <= PendingTitles(pending)
      && Covered(site, was, visited, PendingTitles(pending))
    }

    method VisitNext(title: string, i: nat, hint: string, ghost was: set<string>, ghost queued: set<string>,
                     ghost all: set<string>, ghost trails: iset<PendingPage>)
      requires WellNamed(site) && Closed(site, all) && Follows(site, trails) && Crawling(all, trails)
      requires IsCategory(title) && title in all && title in site.members && i < |site.members[title]|
      requires MembersFollow(site.members[title], hint, trails)
      requires Since(was, queued) && MembersSeen(site.members[title], i, visited)
      modifies this
      ensures Crawling(all, trails) && Since(was, queued)
      ensures MembersSeen(site.members[title], i + 1, visited)
      decreases |all - visited|, 3
    {
      ghost var before, waiting := visited, PendingTitles(pending);
      VisitMember(title, site.members[title][i], hint, all, trails);
      CoveredOnward(site, was, before, waiting, visited, PendingTitles(pending));
    }

    method VisitMember(title: string, member: Member, hint: string, ghost all: set<string>, ghost trails: iset<PendingPage>)
      requires WellNamed(site) && Closed(site, all) && Follows(site, trails) && Crawling(all, trails)
      requires IsCategory(title) && title in all && title in site.members && member in site.members[title]
      requires Followed(member) ==> PendingPage(member.title, hint) in trails
      modifies this
      ensures Crawling(all, trails)
      ensures old(visited) <= visited && PendingTitles(old(pending)) <= PendingTitles(pending)
      ensures Covered(site, old(visited), visited, PendingTitles(pending))
      ensures Followed(member) ==> member.title in visited
      decreases |all - visited|, 2
    {
      if Followed(member) {
        MemberIsNamed(site, all, title, member);
      }
      if member.ns == NAMESPACE_CATEGORY {
        WalkCategory(member.title, hint, all, trails);
      } else if member.ns == NAMESPACE_ARTICLE {
        VisitPage(member.title, hint, all, trails);
      }
    }

    /** A list page: processed, unless it was visited before. */
    method VisitPage(title: string, countryHint: string, ghost all: set<string>, ghost trails: iset<PendingPage>)
      requires WellNamed(site) && Closed(site, all) && Follows(site, trails) && Crawling(all, trails)
      requires !IsCategory(title) && title in all && PendingPage(title, countryHint) in trails
      modifies this
      ensures Crawling(all, trails)
      ensures visited == old(visited) + {title}
      ensures title in old(visited) ==> pending == old(pending)
      ensures title !in old(visited) ==> PendingTitles(pending) == PendingTitles(old(pending)) + Successors(site, title)
    {
      ghost var was := visited;
      var seen := MarkVisited(title);
      if !seen {
        ghost var page := PendingPage(title, countryHint);
        LoggedOneMore(was, processed, page);
        PageLeadsToPages(site, all, PendingTitles(pending), title);
        ghost var queued := pending;
        ProcessPage(title, countryHint);
        NestedFollow(site, trails, page, queued, pending);
        ProcessedOneMore(trails, processed, page);
        PostedOneMore(site, processed, page);
        processed := processed + [page];
      }
    }

    /** Takes the first page off the queue. */
    method TakeFirst(ghost all: set<string>, ghost trails: iset<PendingPage>) returns (page: PendingPage)
      requires Crawling(all, trails) && pending != []
      modifies this`pending
      ensures Crawling(all, trails) && pending == old(pending)[1..]
      ensures !IsCategory(page.title) && page.title in all && page in trails
      ensures PendingTitles(old(pending)) == {page.title} + PendingTitles(pending)
    {
      page := pending[0];
      PoppedTitle(pending);
      pending := pending[1..];
    }

    /** One queued list page: dropped if visited meanwhile, else processed. */
    method FollowFirst(ghost all: set<string>, ghost trails: iset<PendingPage>)
      requires WellNamed(site) && Closed(site, all) && Follows(site, trails) && Crawling(all, trails) && pending != []
      requires Covered(site, {}, visited, PendingTitles(pending))
      modifies this
      ensures Crawling(all, trails) && old(visited) <= visited
      ensures Covered(site, {}, visited, PendingTitles(pending))
      ensures |all - visited| <= |all - old(visited)|
      ensures |all - visited| == |all - old(visited)| ==> |pending| < |old(pending)|
    {
      ghost var was, queued := visited, PendingTitles(pending);
      var page := TakeFirst(all, trails);
      VisitPage(page.title, page.country, all, trails);
      FewerLeft(all, was, visited);
      PageCovered(site, page.title, was, queued, visited, PendingTitles(pending));
    }

    /** The whole crawl: the walk from the root, then the lists found on the way. */
    method ProcessCategory(root: string)
      requires WellNamed(site) && IsCategory(root)
      requires visited == {} && pending == [] && processed == [] && Valid()
      modifies this
      ensures Crawled(root) && Valid()
    {
      ghost var all := AllReachable(site, root);
      ReachableIsClosed(site, root);
      ghost var trails := Trails(site, root);
      TrailsFollow(site, root);
      WalkCategory(root, "", all, trails);
      while |pending| > 0
        invariant Crawling(all, trails) && root in visited
        invariant Covered(site, {}, visited, PendingTitles(pending))
        decreases |all - visited|, |pending|
      {
        FollowFirst(all, trails);
      }
      AllIsTallied(site, processed);
      OutputMeans(site, processed);
      PagesAreCounted(site, processed);
      TitlesAreUnique(processed);
      NothingQueued(site, visited, PendingTitles(pending));
      ClosedAndReachableIsExact(site, root, visited);
    }

    /** Exactly the reachable titles were visited; exactly the reachable list pages
        were processed, each once, with the country some path to it brings; what
        was emitted is what their candidates put forward, each title once. */
    ghost predicate Crawled(root: string)
      reads this
    {
      && visited == AllReachable(site, root)
      && PendingTitles(processed) == PagesIn(AllReachable(site, root))
      && (forall i, j :: 0 <= i < j < |processed| ==> processed[i].title != processed[j].title)
      && (forall p :: p in processed ==> p in Trails(site, root))
      && categoriesVisited == |CategoriesIn(AllReachable(site, root))|
      && Now() == PostedAll(site, processed)
      && NamesOf(output) == AcceptedOnAll(site, processed)
      && Reported(site, Mentions(site, processed), Now())
      && stats.pages == |Readable(site, processed)| && stats.candidates == |Mentions(site, processed)|
    }
  }

  lemma NothingQueued(site: Site, visited: set<string>, queued: set<string>)
    requires Covered(site, {}, visited, queued) && queued == {}
    ensures Closed(site, visited)
  {
  }

  /** Taking a page off the queue and visiting it leaves everything covered. */
  lemma PageCovered(site: Site, title: string, was: set<string>, queued: set<string>, visited: set<string>,
                    left: set<string>)
    requires Covered(site, {}, was, queued) && visited == was + {title} && queued <= left + {title}
    requires title in was || Successors(site, title) <= left
    ensures Covered(site, {}, visited, left)
  {
  }

  lemma PoppedTitle(pending: seq<PendingPage>)
    requires pending != []
    ensures PendingTitles(pending) == {pending[0].title} + PendingTitles(pending[1..])
  {
  }

  lemma QueuedOneMore(pending: seq<PendingPage>, p: PendingPage)
    ensures PendingTitles(pending + [p]) == PendingTitles(pending) + {p.title}
  {
  }
}
