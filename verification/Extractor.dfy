/** pkg/wikipedia/extractor.go: museums, and the places they are filed under,
    read off a list page in one pass. Lines are taken as trimmed. */
module Extractor {
  import Table

  datatype Option<T> = None | Some(value: T)

  type Depth = d: int | d >= 1 witness 1

  datatype Heading = Heading(level: Depth, name: string, linked: bool, skipped: bool)

  datatype ListItem = ListItem(depth: Depth, body: string)

  /** What the regular expressions and word lists make of a piece of text. */
  datatype Markup = Markup(
    heading: string -> Option<Heading>,
    listItem: string -> Option<ListItem>,
    articleLinks: string -> seq<string>,
    entryTitle: string -> string,
    plainText: string -> string,
    content: string -> string,
    columns: Table.Row -> (int, int),
    firstArticleLink: string -> string,
    linkOrText: string -> string,
    included: string -> bool,
    isListTitle: string -> bool,
    isMuseumListTitle: string -> bool)

  datatype Candidate = Candidate(title: string, locality: string)

  datatype Extraction = Extraction(candidates: seq<Candidate>, nestedLists: seq<string>)

  // ------------------------------------------------ the enclosing group header

  /** A list item met in the current section; place is set on a group header. */
  datatype Bullet = Bullet(depth: Depth, place: Option<string>)

  /** Item q is a group header that files the next item of the given depth: it
      is shallower, names a place, and no item since stands at its depth or above. */
  ghost predicate Encloses(bullets: seq<Bullet>, q: nat, depth: Depth) {
    && q < |bullets|
    && bullets[q].depth < depth
    && bullets[q].place.Some? && bullets[q].place.value != ""
    && forall r :: q < r < |bullets| ==> bullets[r].depth > bullets[q].depth
  }

  /** The last item before n that encloses. */
  ghost function LastEnclosing(bullets: seq<Bullet>, n: nat, depth: Depth): (q: Option<nat>)
    ensures match q
            case Some(k) => k < n && Encloses(bullets, k, depth) && forall r :: k < r < n ==> !Encloses(bullets, r, depth)
            case None => forall r :: 0 <= r < n ==> !Encloses(bullets, r, depth)
  {
    if n == 0 then None
    else if Encloses(bullets, n - 1, depth) then Some(n - 1)
    else LastEnclosing(bullets, n - 1, depth)
  }

  /** The nearest enclosing header decides; without one, the section does. */
  ghost function Locality(bullets: seq<Bullet>, depth: Depth, scope: string): string {
    match LastEnclosing(bullets, |bullets|, depth)
    case Some(q) => bullets[q].place.value
    case None => scope
  }

  // ------------------------------------------- the map that finds it in one pass

  /** The header in force at one depth: the last item at that depth or above,
      if it is a header of exactly that depth. */
  function HeaderAt(bullets: seq<Bullet>, d: int): Option<string>
    decreases |bullets|
  {
    if bullets == [] then None
    else
      var last := bullets[|bullets| - 1];
      if last.depth > d then HeaderAt(bullets[..|bullets| - 1], d)
      else if last.depth == d then last.place
      else None
  }

  lemma {:induction false} HeaderAtComesFrom(bullets: seq<Bullet>, d: int) returns (q: nat)
    requires HeaderAt(bullets, d).Some?
    ensures q < |bullets| && bullets[q].depth == d && bullets[q].place == HeaderAt(bullets, d)
    ensures forall r :: q < r < |bullets| ==> bullets[r].depth > d
    decreases |bullets|
  {
    q := |bullets| - 1;
    if bullets[q].depth > d {
      q := HeaderAtComesFrom(bullets[..q], d);
    }
  }

  lemma {:induction false} HeaderStaysInForce(bullets: seq<Bullet>, q: nat)
    requires q < |bullets|
    requires forall r :: q < r < |bullets| ==> bullets[r].depth > bullets[q].depth
    ensures HeaderAt(bullets, bullets[q].depth) == bullets[q].place
    decreases |bullets|
  {
    if q < |bullets| - 1 {
      HeaderStaysInForce(bullets[..|bullets| - 1], q);
    }
  }

  predicate Names(header: Option<string>) {
    header.Some? && header.value != ""
  }

  function ScanOutward(bullets: seq<Bullet>, d: nat, scope: string): string {
    if d == 0 then scope
    else if Names(HeaderAt(bullets, d)) then HeaderAt(bullets, d).value
    else ScanOutward(bullets, d - 1, scope)
  }

  /** Looking outward depth by depth finds the nearest enclosing header. */
  lemma {:induction false} ScanOutwardFindsLocality(bullets: seq<Bullet>, d: nat, depth: Depth, scope: string)
    requires d < depth
    requires forall e :: d < e < depth ==> !Names(HeaderAt(bullets, e))
    ensures ScanOutward(bullets, d, scope) == Locality(bullets, depth, scope)
  {
    forall r | 0 <= r < |bullets| && Encloses(bullets, r, depth) ensures bullets[r].depth <= d {
      HeaderStaysInForce(bullets, r);
    }
    if d > 0 {
      if Names(HeaderAt(bullets, d)) {
        var q := HeaderAtComesFrom(bullets, d);
        assert Encloses(bullets, q, depth);
      } else {
        ScanOutwardFindsLocality(bullets, d - 1, depth, scope);
      }
    }
  }

  /** The map holds exactly the headers in force. */
  ghost predicate Tracks(localities: map<Depth, string>, bullets: seq<Bullet>) {
    forall d: Depth :: (if d in localities then Some(localities[d]) else None) == HeaderAt(bullets, d)
  }

  // ------------------------------------------------------------ what is offered

  datatype Offer = ListLink(title: string) | Entry(title: string, locality: string)

  /** What the reader remembers between lines: the level a skipped section ends
      at (0 outside one), the place a linked heading names, and the list items of
      the section so far. */
  datatype Context = Context(skipTo: nat, scope: string, bullets: seq<Bullet>) {
    function Enter(h: Heading): Context {
      if h.skipped then Context(h.level, "", [])
      else if skipTo > 0 && h.level > skipTo then Context(skipTo, "", [])
      else Context(0, if h.linked then h.name else "", [])
    }

    function Meet(b: Bullet): Context {
      this.(bullets := bullets + [b])
    }
  }

  /** The next list item, past blank lines only, is deeper. */
  function IsGroupHeader(mk: Markup, lines: seq<string>, i: nat, depth: Depth): bool
    requires i < |lines|
    decreases |lines| - i
  {
    if i + 1 == |lines| then false
    else if lines[i + 1] == "" then IsGroupHeader(mk, lines, i + 1, depth)
    else match mk.listItem(lines[i + 1])
         case None => false
         case Some(item) => item.depth > depth
  }

  /** Line j is the first after i that is not blank. */
  predicate FirstText(lines: seq<string>, i: nat, j: int) {
    i < j < |lines| && lines[j] != "" && forall k :: i < k < j ==> lines[k] == ""
  }

  lemma {:induction false} GroupHeaderMeans(mk: Markup, lines: seq<string>, i: nat, depth: Depth)
    requires i < |lines|
    ensures IsGroupHeader(mk, lines, i, depth)
       <==> exists j :: i < j < |lines| && FirstText(lines, i, j)
                        && mk.listItem(lines[j]).Some? && mk.listItem(lines[j]).value.depth > depth
    decreases |lines| - i
  {
    if i + 1 < |lines| {
      if lines[i + 1] == "" {
        GroupHeaderMeans(mk, lines, i + 1, depth);
        forall j ensures FirstText(lines, i, j) <==> FirstText(lines, i + 1, j) {
        }
      } else {
        assert FirstText(lines, i, i + 1);
      }
    }
  }

  method FindGroupHeader(mk: Markup, lines: seq<string>, i: nat, depth: Depth) returns (r: bool)
    requires i < |lines|
    ensures r == IsGroupHeader(mk, lines, i, depth)
    ensures r <==> exists j :: i < j < |lines| && FirstText(lines, i, j)
                               && mk.listItem(lines[j]).Some? && mk.listItem(lines[j]).value.depth > depth
  {
    GroupHeaderMeans(mk, lines, i, depth);
    var j := i + 1;
    while j < |lines|
      invariant i < j <= |lines|
      invariant IsGroupHeader(mk, lines, i, depth) == IsGroupHeader(mk, lines, j - 1, depth)
    {
      if lines[j] != "" {
        match mk.listItem(lines[j]) {
          case None => return false;
          case Some(item) => return item.depth > depth;
        }
      }
      j := j + 1;
    }
    return false;
  }

  function CellAt(row: Table.Row, idx: int): string {
    if 0 <= idx < |row| then row[idx] else ""
  }

  function ListLinks(links: seq<string>): (offers: seq<Offer>) {
    if links == [] then [] else [ListLink(links[0])] + ListLinks(links[1..])
  }

  function RowOffers(mk: Markup, rows: seq<Table.Row>, columns: (int, int), scope: string): seq<Offer> {
    if rows == [] then []
    else
      var title := mk.firstArticleLink(CellAt(rows[0], columns.0));
      var place := mk.linkOrText(CellAt(rows[0], columns.1));
      (if title == "" then [] else [Entry(title, if place == "" then scope else place)])
      + RowOffers(mk, rows[1..], columns, scope)
  }

  /** The row names a museum in its name column, and the place in its place column,
      or the section's when that is empty or there is none. */
  ghost predicate RowNames(mk: Markup, row: Table.Row, columns: (int, int), scope: string, title: string, place: string) {
    && 0 <= columns.0 < |row| && title == mk.firstArticleLink(row[columns.0])
    && (0 <= columns.1 < |row| && mk.linkOrText(row[columns.1]) != "" ==> place == mk.linkOrText(row[columns.1]))
    && (0 <= columns.1 < |row| && mk.linkOrText(row[columns.1]) == "" ==> place == scope)
    && (!(0 <= columns.1 < |row|) ==> place == scope)
  }

  /** What a table offers: the museums its rows name. Nothing is read out of an
      empty cell. */
  lemma {:induction false} RowOffersMean(mk: Markup, rows: seq<Table.Row>, columns: (int, int), scope: string, o: Offer)
    requires mk.firstArticleLink("") == "" && mk.linkOrText("") == ""
    ensures o in RowOffers(mk, rows, columns, scope)
       <==> o.Entry? && o.title != "" && exists k :: 0 <= k < |rows| && RowNames(mk, rows[k], columns, scope, o.title, o.locality)
    decreases |rows|
  {
    if rows != [] {
      RowOffersMean(mk, rows[1..], columns, scope, o);
      var title, place := mk.firstArticleLink(CellAt(rows[0], columns.0)), mk.linkOrText(CellAt(rows[0], columns.1));
      assert title != "" ==> RowNames(mk, rows[0], columns, scope, title, if place == "" then scope else place);
      forall k | 1 <= k < |rows| ensures rows[k] == rows[1..][k - 1] {
      }
    }
  }

  /** The line of the table's closing marker, or the last line when it has none. */
  ghost function TableEnd(lines: seq<string>, start: nat): (end: nat)
    requires start < |lines|
    ensures start <= end < |lines|
  {
    if exists e: nat :: Table.ClosesAt(lines, start, e) then
      var e: nat :| Table.ClosesAt(lines, start, e); e
    else |lines| - 1
  }

  ghost function TableOffers(mk: Markup, lines: seq<string>, start: nat, scope: string): seq<Offer>
    requires start < |lines|
  {
    var closed := Table.ClosesAt(lines, start, TableEnd(lines, start));
    var done := Table.Read(lines, mk.content, start, if closed then TableEnd(lines, start) else |lines|).Flush().done;
    if done == [] then RowOffers(mk, [], mk.columns([]), scope)
    else RowOffers(mk, done[1..], mk.columns(done[0]), scope)
  }

  function ItemPlace(mk: Markup, body: string): string {
    if mk.entryTitle(body) != "" then mk.entryTitle(body) else mk.plainText(body)
  }

  /** What the reader makes of line i: what it offers, where it reads on, and what
      it then remembers. */
  datatype Turn = Turn(offers: seq<Offer>, next: nat, ctx: Context)

  ghost function TurnAt(mk: Markup, lines: seq<string>, i: nat, ctx: Context): (t: Turn)
    requires i < |lines|
    ensures i < t.next <= |lines|
  {
    var line := lines[i];
    if mk.heading(line).Some? then Turn([], i + 1, ctx.Enter(mk.heading(line).value))
    else if ctx.skipTo > 0 then Turn(ListLinks(mk.articleLinks(line)), i + 1, ctx)
    else if Table.HasPrefix(line, "{|") then Turn(TableOffers(mk, lines, i, ctx.scope), TableEnd(lines, i) + 1, ctx)
    else if mk.listItem(line).None? then Turn([], i + 1, ctx)
    else
      var item := mk.listItem(line).value;
      var title := mk.entryTitle(item.body);
      if IsGroupHeader(mk, lines, i, item.depth) then
        Turn([], i + 1, ctx.Meet(Bullet(item.depth, Some(ItemPlace(mk, item.body)))))
      else
        Turn(if title == "" then [] else [Entry(title, Locality(ctx.bullets, item.depth, ctx.scope))],
             i + 1, ctx.Meet(Bullet(item.depth, None)))
  }

  /** Everything the lines from i on offer, in reading order. Every entry's
      locality is looked up in the history of the section, not in a map. */
  ghost function OffersFrom(mk: Markup, lines: seq<string>, i: nat, ctx: Context): seq<Offer>
    decreases |lines| - i
  {
    if i >= |lines| then []
    else
      var t := TurnAt(mk, lines, i, ctx);
      t.offers + OffersFrom(mk, lines, t.next, t.ctx)
  }

  ghost function Offers(mk: Markup, lines: seq<string>): seq<Offer> {
    OffersFrom(mk, lines, 0, Context(0, "", []))
  }

  // -------------------------------------------------------- what is kept of it

  /** The museum list an offer points at, if it is one worth following. */
  function ListOf(mk: Markup, o: Offer): Option<string> {
    if mk.isMuseumListTitle(o.title) && (o.ListLink? || (mk.included(o.title) && mk.isListTitle(o.title)))
    then Some(o.title) else None
  }

  /** The museum an offer names, if it names one. */
  function MuseumOf(mk: Markup, o: Offer): Option<Candidate> {
    if o.Entry? && mk.included(o.title) && !mk.isListTitle(o.title)
    then Some(Candidate(o.title, o.locality)) else None
  }

  function Titles(candidates: seq<Candidate>): set<string> {
    set c | c in candidates :: c.title
  }

  function Accept(mk: Markup, x: Extraction, o: Offer): Extraction {
    var list, museum := ListOf(mk, o), MuseumOf(mk, o);
    if list.Some? && list.value !in x.nestedLists then x.(nestedLists := x.nestedLists + [list.value])
    else if museum.Some? && museum.value.title !in Titles(x.candidates) then
      x.(candidates := x.candidates + [museum.value])
    else x
  }

  function AcceptAll(mk: Markup, x: Extraction, offers: seq<Offer>): Extraction
    decreases |offers|
  {
    if offers == [] then x else AcceptAll(mk, Accept(mk, x, offers[0]), offers[1..])
  }

  lemma {:induction false} AcceptInTurn(mk: Markup, x: Extraction, a: seq<Offer>, b: seq<Offer>)
    ensures AcceptAll(mk, x, a + b) == AcceptAll(mk, AcceptAll(mk, x, a), b)
    decreases |a|
  {
    if a == [] {
      assert a + b == b;
    } else {
      assert (a + b)[1..] == a[1..] + b;
      AcceptInTurn(mk, Accept(mk, x, a[0]), a[1..], b);
    }
  }

  lemma {:induction false} AcceptLast(mk: Markup, x: Extraction, offers: seq<Offer>, o: Offer)
    ensures AcceptAll(mk, x, offers + [o]) == Accept(mk, AcceptAll(mk, x, offers), o)
  {
    AcceptInTurn(mk, x, offers, [o]);
    assert [o][1..] == [];
  }

  /** The result being built, and the titles already in it. */
  class Collector {
    const mk: Markup
    var seen: set<string>
    var seenLists: set<string>
    var candidates: seq<Candidate>
    var nestedLists: seq<string>

    ghost predicate Valid()
      reads this
    {
      seen == Titles(candidates) && seenLists == set t | t in nestedLists
    }

    function Result(): Extraction
      reads this
    {
      Extraction(candidates, nestedLists)
    }

    constructor (mk: Markup)
      ensures Valid() && this.mk == mk && Result() == Extraction([], [])
    {
      this.mk := mk;
      seen, seenLists, candidates, nestedLists := {}, {}, [], [];
    }

    method NoteNestedList(title: string)
      requires Valid()
      modifies this
      ensures Valid() && Result() == Accept(mk, old(Result()), ListLink(title))
    {
      if !mk.isMuseumListTitle(title) || title in seenLists {
        return;
      }
      seenLists := seenLists + {title};
      nestedLists := nestedLists + [title];
    }

    method AddCandidate(title: string, locality: string)
      requires Valid()
      modifies this
      ensures Valid() && Result() == Accept(mk, old(Result()), Entry(title, locality))
    {
      if !mk.included(title) {
        return;
      }
      if mk.isListTitle(title) {
        NoteNestedList(title);
        return;
      }
      if title in seen {
        return;
      }
      seen := seen + {title};
      candidates := candidates + [Candidate(title, locality)];
    }

    method NoteLinks(links: seq<string>)
      requires Valid()
      modifies this
      ensures Valid() && Result() == AcceptAll(mk, old(Result()), ListLinks(links))
    {
      var k := 0;
      while k < |links|
        invariant 0 <= k <= |links| && Valid()
        invariant AcceptAll(mk, old(Result()), ListLinks(links)) == AcceptAll(mk, Result(), ListLinks(links[k..]))
      {
        assert ListLinks(links[k..])[1..] == ListLinks(links[k + 1..]);
        NoteNestedList(links[k]);
        k := k + 1;
      }
    }

    method AddRows(rows: seq<Table.Row>, columns: (int, int), scope: string)
      requires Valid()
      modifies this
      ensures Valid() && Result() == AcceptAll(mk, old(Result()), RowOffers(mk, rows, columns, scope))
    {
      var k := 0;
      while k < |rows|
        invariant 0 <= k <= |rows| && Valid()
        invariant AcceptAll(mk, old(Result()), RowOffers(mk, rows, columns, scope))
               == AcceptAll(mk, Result(), RowOffers(mk, rows[k..], columns, scope))
      {
        var title := mk.firstArticleLink(CellAt(rows[k], columns.0));
        assert rows[k..][1..] == rows[k + 1..];
        if title != "" {
          var locality := mk.linkOrText(CellAt(rows[k], columns.1));
          if locality == "" {
            locality := scope;
          }
          assert RowOffers(mk, rows[k..], columns, scope)[1..] == RowOffers(mk, rows[k + 1..], columns, scope);
          AddCandidate(title, locality);
        } else {
          assert RowOffers(mk, rows[k..], columns, scope) == RowOffers(mk, rows[k + 1..], columns, scope);
        }
        k := k + 1;
      }
    }
  }

  lemma TableEndsWhereParsed(lines: seq<string>, start: nat, end: nat)
    requires start <= end < |lines|
    requires Table.ClosesAt(lines, start, end)
             || (end == |lines| - 1 && forall e: nat :: !Table.ClosesAt(lines, start, e))
    ensures end == TableEnd(lines, start)
  {
  }

  /** A new item closes every header at its depth or deeper, and leaves the rest. */
  lemma TracksNextItem(localities: map<Depth, string>, bullets: seq<Bullet>, b: Bullet)
    requires Tracks(localities, bullets)
    ensures var kept := map d | d in localities && d < b.depth :: localities[d];
            Tracks(if b.place.Some? then kept[b.depth := b.place.value] else kept, bullets + [b])
  {
  }

  /** The extraction still owed: x, and then what the lines from i on offer. */
  ghost function Owed(mk: Markup, lines: seq<string>, i: nat, ctx: Context, x: Extraction): Extraction {
    AcceptAll(mk, x, OffersFrom(mk, lines, i, ctx))
  }

  lemma {:induction false} OwedAfterTurn(mk: Markup, lines: seq<string>, i: nat, ctx: Context, x: Extraction)
    requires i < |lines|
    ensures var t := TurnAt(mk, lines, i, ctx);
            Owed(mk, lines, i, ctx, x) == Owed(mk, lines, t.next, t.ctx, AcceptAll(mk, x, t.offers))
  {
    var t := TurnAt(mk, lines, i, ctx);
    AcceptInTurn(mk, x, t.offers, OffersFrom(mk, lines, t.next, t.ctx));
  }

  method EnterHeading(h: Heading, skipToLevel: nat) returns (skipTo: nat, scope: string)
    ensures forall ctx: Context | ctx.skipTo == skipToLevel :: ctx.Enter(h) == Context(skipTo, scope, [])
  {
    skipTo, scope := skipToLevel, "";
    if h.skipped {
      skipTo := h.level;
    } else if skipToLevel > 0 && h.level <= skipToLevel {
      skipTo := 0;
      if h.linked {
        scope := h.name;
      }
    } else if skipToLevel == 0 {
      if h.linked {
        scope := h.name;
      }
    }
  }

  /** The one-pass reader. Its map of localities stands for the whole history of
      the section, and its output is what that history decides. */
  method Extract(mk: Markup, lines: seq<string>) returns (result: Extraction)
    ensures result == AcceptAll(mk, Extraction([], []), Offers(mk, lines))
  {
    var found := new Collector(mk);
    var skipToLevel: nat := 0;
    var headingScope := "";
    var localities: map<Depth, string> := map[];
    ghost var bullets: seq<Bullet> := [];
    var i := 0;
    while i < |lines|
      invariant 0 <= i <= |lines|
      invariant found.Valid() && fresh(found) && found.mk == mk
      invariant Tracks(localities, bullets)
      invariant Owed(mk, lines, 0, Context(0, "", []), Extraction([], []))
             == Owed(mk, lines, i, Context(skipToLevel, headingScope, bullets), found.Result())
    {
      OwedAfterTurn(mk, lines, i, Context(skipToLevel, headingScope, bullets), found.Result());
      i, skipToLevel, headingScope, localities, bullets :=
        ReadLine(found, lines, i, skipToLevel, headingScope, localities, bullets);
    }
    return found.Result();
  }

  /** One turn: a heading, a line of a skipped section, a table, or a line of a
      list. */
  method ReadLine(found: Collector, lines: seq<string>, i: nat, skipToLevel: nat, headingScope: string,
                  localities: map<Depth, string>, ghost bullets: seq<Bullet>)
    returns (next: nat, skipTo: nat, scope: string, updated: map<Depth, string>, ghost met: seq<Bullet>)
    requires i < |lines| && found.Valid() && Tracks(localities, bullets)
    modifies found
    ensures found.Valid() && Tracks(updated, met)
    ensures var t := TurnAt(found.mk, lines, i, Context(skipToLevel, headingScope, bullets));
            && next == t.next && Context(skipTo, scope, met) == t.ctx
            && found.Result() == AcceptAll(found.mk, old(found.Result()), t.offers)
  {
    next, skipTo, scope, updated, met := i + 1, skipToLevel, headingScope, localities, bullets;
    var line := lines[i];
    var heading := found.mk.heading(line);
    if heading.Some? {
      updated, met := map[], [];
      skipTo, scope := EnterHeading(heading.value, skipToLevel);
    } else if skipToLevel > 0 {
      found.NoteLinks(found.mk.articleLinks(line));
    } else if Table.HasPrefix(line, "{|") {
      var end := TakeTable(found, lines, i, headingScope);
      next := end + 1;
    } else {
      updated, met := ReadItem(found, lines, i, localities, headingScope, bullets);
    }
  }

  /** A line of a list, or of anything else. */
  method ReadItem(found: Collector, lines: seq<string>, i: nat, localities: map<Depth, string>, headingScope: string,
                  ghost bullets: seq<Bullet>)
    returns (updated: map<Depth, string>, ghost met: seq<Bullet>)
    requires i < |lines| && found.Valid() && Tracks(localities, bullets) && Plain(found.mk, lines[i])
    modifies found
    ensures found.Valid() && Tracks(updated, met)
    ensures var t := TurnAt(found.mk, lines, i, Context(0, headingScope, bullets));
            && t.next == i + 1 && t.ctx == Context(0, headingScope, met)
            && found.Result() == AcceptAll(found.mk, old(found.Result()), t.offers)
  {
    updated, met := localities, bullets;
    var item := found.mk.listItem(lines[i]);
    if item.Some? {
      var header := FindGroupHeader(found.mk, lines, i, item.value.depth);
      updated := TakeItem(found, item.value, header, localities, headingScope, bullets);
      met := bullets + [Bullet(item.value.depth, if header then Some(ItemPlace(found.mk, item.value.body)) else None)];
    }
  }

  method TakeTable(found: Collector, lines: seq<string>, start: nat, headingScope: string) returns (end: nat)
    requires start < |lines| && found.Valid()
    modifies found
    ensures found.Valid() && end == TableEnd(lines, start)
    ensures found.Result() == AcceptAll(found.mk, old(found.Result()), TableOffers(found.mk, lines, start, headingScope))
  {
    var rows, headers;
    rows, headers, end := Table.ParseTable(lines, found.mk.content, start);
    TableEndsWhereParsed(lines, start, end);
    found.AddRows(rows, found.mk.columns(headers), headingScope);
  }

  method TakeItem(found: Collector, item: ListItem, header: bool,
                  localities: map<Depth, string>, headingScope: string, ghost bullets: seq<Bullet>)
    returns (updated: map<Depth, string>)
    requires found.Valid() && Tracks(localities, bullets)
    modifies found
    ensures found.Valid()
    ensures var title := found.mk.entryTitle(item.body);
            var place := if header then Some(ItemPlace(found.mk, item.body)) else None;
            && Tracks(updated, bullets + [Bullet(item.depth, place)])
            && found.Result() == AcceptAll(found.mk, old(found.Result()),
                 if header || title == "" then [] else [Entry(title, Locality(bullets, item.depth, headingScope))])
  {
    var depth := item.depth;
    TracksNextItem(localities, bullets, Bullet(depth, if header then Some(ItemPlace(found.mk, item.body)) else None));
    updated := map d | d in localities && d < depth :: localities[d];
    var title := found.mk.entryTitle(item.body);
    if header {
      var place := title;
      if place == "" {
        place := found.mk.plainText(item.body);
      }
      updated := updated[depth := place];
    } else if title != "" {
      var locality := LookOutward(updated, bullets, depth, headingScope);
      found.AddCandidate(title, locality);
    }
  }

  method LookOutward(localities: map<Depth, string>, ghost bullets: seq<Bullet>, depth: Depth, scope: string)
    returns (locality: string)
    requires forall d: Depth :: d < depth ==> (if d in localities then Some(localities[d]) else None) == HeaderAt(bullets, d)
    ensures locality == Locality(bullets, depth, scope)
  {
    ScanOutwardFindsLocality(bullets, depth - 1, depth, scope);
    locality := scope;
    var d := depth - 1;
    while d >= 1
      invariant 0 <= d < depth
      invariant ScanOutward(bullets, depth - 1, scope) == ScanOutward(bullets, d, scope)
      invariant locality == scope
    {
      if d in localities && localities[d] != "" {
        return localities[d];
      }
      d := d - 1;
    }
  }

  // ---------------------------------------------------- sections, and their items

  function Entered(headings: seq<Heading>): Context
    decreases |headings|
  {
    if headings == [] then Context(0, "", [])
    else Entered(headings[..|headings| - 1]).Enter(headings[|headings| - 1])
  }

  /** Heading k is the last to be skipped, and the section it skips has not been
      left: all that followed stands deeper. */
  ghost predicate StillSkips(headings: seq<Heading>, k: int) {
    && 0 <= k < |headings| && headings[k].skipped
    && forall j :: k < j < |headings| ==> !headings[j].skipped && headings[j].level > headings[k].level
  }

  /** After any headings: what follows is passed over exactly when the last skipped
      heading has not been left since, a skipped heading inside a skipped section
      taking its place; and the place is the last heading's own if it is linked. */
  lemma {:induction false} HeadingsMean(headings: seq<Heading>)
    ensures Entered(headings).skipTo > 0 <==> exists k :: StillSkips(headings, k)
    ensures forall k :: StillSkips(headings, k) ==> Entered(headings).skipTo == headings[k].level
    ensures Entered(headings).bullets == []
    ensures Entered(headings).scope
         == if headings == [] || Entered(headings).skipTo > 0 || !headings[|headings| - 1].linked then ""
            else headings[|headings| - 1].name
    decreases |headings|
  {
    if headings != [] {
      var n := |headings| - 1;
      var less, h := headings[..n], headings[n];
      HeadingsMean(less);
      forall k | 0 <= k < n
        ensures StillSkips(headings, k) <==> StillSkips(less, k) && !h.skipped && h.level > headings[k].level
      {
        if StillSkips(headings, k) {
          assert StillSkips(less, k);
        }
      }
      assert StillSkips(headings, n) <==> h.skipped;
      if Entered(less).skipTo > 0 {
        var k :| StillSkips(less, k);
        assert !h.skipped && h.level > headings[k].level ==> StillSkips(headings, k);
      }
    }
  }

  /** The line belongs to a section's list, if to anything. */
  ghost predicate Plain(mk: Markup, line: string) {
    mk.heading(line).None? && !Table.HasPrefix(line, "{|")
  }

  ghost predicate PlainFrom(mk: Markup, lines: seq<string>, from: nat, end: nat) {
    from <= end <= |lines| && forall k :: from <= k < end ==> Plain(mk, lines[k])
  }

  /** How deep an item the line is; 0 when it is none. */
  function DepthOf(mk: Markup, line: string): nat {
    match mk.listItem(line)
    case None => 0
    case Some(item) => item.depth
  }

  /** The place the line would name as a header. */
  function PlaceOf(mk: Markup, line: string): string {
    match mk.listItem(line)
    case None => ""
    case Some(item) => if mk.entryTitle(item.body) == "" then mk.plainText(item.body) else mk.entryTitle(item.body)
  }

  ghost function BulletAt(mk: Markup, lines: seq<string>, i: nat): (b: Bullet)
    requires i < |lines| && DepthOf(mk, lines[i]) > 0
  {
    var item := mk.listItem(lines[i]).value;
    Bullet(item.depth, if IsGroupHeader(mk, lines, i, item.depth) then Some(ItemPlace(mk, item.body)) else None)
  }

  /** The items among those lines. */
  ghost function BulletsOf(mk: Markup, lines: seq<string>, from: nat, end: nat): seq<Bullet>
    requires from <= end <= |lines|
  {
    if end == from then []
    else BulletsOf(mk, lines, from, end - 1) + if DepthOf(mk, lines[end - 1]) > 0 then [BulletAt(mk, lines, end - 1)] else []
  }

  ghost function ContextOf(mk: Markup, lines: seq<string>, from: nat, end: nat, scope: string): Context
    requires from <= end <= |lines|
  {
    Context(0, scope, BulletsOf(mk, lines, from, end))
  }

  /** A plain line is read on its own, and remembered if it is an item. */
  lemma OneMorePlainLine(mk: Markup, lines: seq<string>, from: nat, end: nat, scope: string)
    requires from < end && PlainFrom(mk, lines, from, end)
    ensures var t := TurnAt(mk, lines, end - 1, ContextOf(mk, lines, from, end - 1, scope));
            t.next == end && t.ctx == ContextOf(mk, lines, from, end, scope)
  {
    assert Plain(mk, lines[end - 1]);
    var bullets := BulletsOf(mk, lines, from, end - 1);
    assert bullets + [] == bullets;
  }

  lemma {:induction false} Turned(mk: Markup, lines: seq<string>, i: nat, ctx: Context, offered: seq<Offer>)
    requires i < |lines|
    ensures var t := TurnAt(mk, lines, i, ctx);
            offered + OffersFrom(mk, lines, i, ctx) == offered + t.offers + OffersFrom(mk, lines, t.next, t.ctx)
  {
  }

  lemma {:induction false} OneMoreRemembered(mk: Markup, lines: seq<string>, from: nat, end: nat, scope: string,
                                             all: seq<Offer>, before: seq<Offer>) returns (offered: seq<Offer>)
    requires from < end && PlainFrom(mk, lines, from, end)
    requires all == before + OffersFrom(mk, lines, end - 1, ContextOf(mk, lines, from, end - 1, scope))
    ensures all == offered + OffersFrom(mk, lines, end, ContextOf(mk, lines, from, end, scope))
  {
    OneMorePlainLine(mk, lines, from, end, scope);
    Turned(mk, lines, end - 1, ContextOf(mk, lines, from, end - 1, scope), before);
    offered := before + TurnAt(mk, lines, end - 1, ContextOf(mk, lines, from, end - 1, scope)).offers;
  }

  /** Through plain lines the reader goes one by one, and remembers their items. */
  lemma {:induction false} PlainLinesAreRemembered(mk: Markup, lines: seq<string>, from: nat, end: nat, scope: string)
    returns (offered: seq<Offer>)
    requires PlainFrom(mk, lines, from, end)
    ensures OffersFrom(mk, lines, from, Context(0, scope, []))
         == offered + OffersFrom(mk, lines, end, ContextOf(mk, lines, from, end, scope))
    decreases end
  {
    if end == from {
      offered := [];
    } else {
      var before := PlainLinesAreRemembered(mk, lines, from, end - 1, scope);
      offered := OneMoreRemembered(mk, lines, from, end, scope, OffersFrom(mk, lines, from, Context(0, scope, [])), before);
    }
  }

  predicate LeadsDeeper(mk: Markup, lines: seq<string>, h: nat) {
    h < |lines| && DepthOf(mk, lines[h]) > 0 && IsGroupHeader(mk, lines, h, DepthOf(mk, lines[h]))
  }

  lemma HeaderBullet(mk: Markup, lines: seq<string>, h: nat)
    requires h < |lines| && DepthOf(mk, lines[h]) > 0
    ensures BulletAt(mk, lines, h)
         == Bullet(DepthOf(mk, lines[h]), if LeadsDeeper(mk, lines, h) then Some(PlaceOf(mk, lines[h])) else None)
  {
  }

  /** Line h is a header of depth d still in force before line end: no item since
      stands at its depth or above. */
  ghost predicate InForce(mk: Markup, lines: seq<string>, from: nat, h: nat, end: nat, d: nat) {
    && from <= h < end <= |lines| && DepthOf(mk, lines[h]) == d > 0 && LeadsDeeper(mk, lines, h)
    && forall g :: h < g < end && DepthOf(mk, lines[g]) > 0 ==> DepthOf(mk, lines[g]) > d
  }

  lemma InForceOneLineOn(mk: Markup, lines: seq<string>, from: nat, h: nat, end: nat, d: nat)
    requires from < end <= |lines| && d > 0
    ensures var last := DepthOf(mk, lines[end - 1]);
            InForce(mk, lines, from, h, end, d)
            <==> (h == end - 1 && last == d && LeadsDeeper(mk, lines, h))
                 || (InForce(mk, lines, from, h, end - 1, d) && (last == 0 || last > d))
  {
  }

  lemma {:induction false} HeaderAtIsInForce(mk: Markup, lines: seq<string>, from: nat, end: nat, d: Depth)
    requires from <= end <= |lines|
    ensures var header := HeaderAt(BulletsOf(mk, lines, from, end), d);
            && (header.Some? <==> exists h: nat :: InForce(mk, lines, from, h, end, d))
            && forall h: nat :: InForce(mk, lines, from, h, end, d) ==> header == Some(PlaceOf(mk, lines[h]))
    decreases end
  {
    if from < end {
      HeaderAtIsInForce(mk, lines, from, end - 1, d);
      forall h: nat {
        InForceOneLineOn(mk, lines, from, h, end, d);
      }
      var less := BulletsOf(mk, lines, from, end - 1);
      assert less + [] == less;
      if DepthOf(mk, lines[end - 1]) > 0 {
        HeaderBullet(mk, lines, end - 1);
        var b := BulletAt(mk, lines, end - 1);
        assert (less + [b])[..|less|] == less;
      }
    }
  }

  /** Line h heads line i: an item less deep, still in force there, that names a
      place. */
  ghost predicate Heads(mk: Markup, lines: seq<string>, from: nat, h: nat, i: nat) {
    && from <= h < i < |lines| && DepthOf(mk, lines[h]) < DepthOf(mk, lines[i])
    && InForce(mk, lines, from, h, i, DepthOf(mk, lines[h])) && PlaceOf(mk, lines[h]) != ""
  }

  /** The nearest line heads it, and names that place; or none does, and the place
      is the section's. */
  ghost predicate FiledUnder(mk: Markup, lines: seq<string>, from: nat, i: nat, scope: string, place: string) {
    if exists h: nat :: Heads(mk, lines, from, h, i) then
      exists h: nat :: Heads(mk, lines, from, h, i) && place == PlaceOf(mk, lines[h])
                       && forall g: nat :: Heads(mk, lines, from, g, i) ==> g <= h
    else place == scope
  }

  /** The deepest header that names a place is also the nearest. */
  lemma DeepestIsNearest(mk: Markup, lines: seq<string>, from: nat, h: nat, g: nat, i: nat)
    requires Heads(mk, lines, from, h, i) && Heads(mk, lines, from, g, i)
    requires DepthOf(mk, lines[g]) <= DepthOf(mk, lines[h])
    ensures g <= h
  {
  }

  lemma {:induction false} OutwardIsNearest(mk: Markup, lines: seq<string>, from: nat, i: nat, d: nat, scope: string)
    returns (h: Option<nat>)
    requires from <= i < |lines| && d < DepthOf(mk, lines[i])
    requires forall g: nat :: Heads(mk, lines, from, g, i) ==> DepthOf(mk, lines[g]) <= d
    ensures h.None? ==> (forall g: nat :: !Heads(mk, lines, from, g, i))
    ensures h.Some? ==> Heads(mk, lines, from, h.value, i)
    ensures h.Some? ==> forall g: nat :: Heads(mk, lines, from, g, i) ==> g <= h.value
    ensures ScanOutward(BulletsOf(mk, lines, from, i), d, scope) == if h.Some? then PlaceOf(mk, lines[h.value]) else scope
    decreases d
  {
    h := None;
    if d > 0 {
      var header := HeaderAt(BulletsOf(mk, lines, from, i), d);
      HeaderAtIsInForce(mk, lines, from, i, d);
      if Names(header) {
        var near: nat :| InForce(mk, lines, from, near, i, d);
        h := Some(near);
        forall g: nat | Heads(mk, lines, from, g, i) ensures g <= near {
          DeepestIsNearest(mk, lines, from, near, g, i);
        }
      } else {
        h := OutwardIsNearest(mk, lines, from, i, d - 1, scope);
      }
    }
  }

  /** The place of an item of a list is what the nearest line above that heads it
      names; when none does, the section's. */
  lemma NearestHeaderDecides(mk: Markup, lines: seq<string>, from: nat, i: nat, depth: Depth, scope: string,
                             place: string)
    requires from <= i < |lines| && depth == DepthOf(mk, lines[i])
    requires place == ScanOutward(BulletsOf(mk, lines, from, i), depth - 1, scope)
    ensures FiledUnder(mk, lines, from, i, scope, place)
  {
    var h := OutwardIsNearest(mk, lines, from, i, depth - 1, scope);
  }

  /** In a list without headings or tables, told by its lines alone: an item that
      leads to none deeper and names a title is offered, once the lines before it
      have been, under the place of the nearest line that heads it. */
  lemma ItemsAreFiledByTheirLines(mk: Markup, lines: seq<string>, from: nat, i: nat, scope: string)
    returns (before: seq<Offer>, place: string, after: seq<Offer>)
    requires from <= i < |lines| && PlainFrom(mk, lines, from, i + 1) && DepthOf(mk, lines[i]) > 0
    requires !LeadsDeeper(mk, lines, i) && mk.entryTitle(mk.listItem(lines[i]).value.body) != ""
    ensures OffersFrom(mk, lines, from, Context(0, scope, []))
         == before + [Entry(mk.entryTitle(mk.listItem(lines[i]).value.body), place)] + after
    ensures FiledUnder(mk, lines, from, i, scope, place)
  {
    before := PlainLinesAreRemembered(mk, lines, from, i, scope);
    var depth: Depth := DepthOf(mk, lines[i]);
    var ctx := ContextOf(mk, lines, from, i, scope);
    place := Locality(ctx.bullets, depth, scope);
    ScanOutwardFindsLocality(ctx.bullets, depth - 1, depth, scope);
    NearestHeaderDecides(mk, lines, from, i, depth, scope, place);
    HeaderBullet(mk, lines, i);
    Turned(mk, lines, i, ctx, before);
    var t := TurnAt(mk, lines, i, ctx);
    after := OffersFrom(mk, lines, t.next, t.ctx);
    assert Plain(mk, lines[i]);
  }

  // ------------------------------------------- first occurrences, no duplicates

  /** Offer k is the first to name its museum. */
  ghost predicate FirstOfMuseum(mk: Markup, offers: seq<Offer>, k: nat) {
    && k < |offers| && MuseumOf(mk, offers[k]).Some?
    && forall j :: 0 <= j < k && MuseumOf(mk, offers[j]).Some? ==> offers[j].title != offers[k].title
  }

  /** Offer k is the first to point at its list. */
  ghost predicate FirstOfList(mk: Markup, offers: seq<Offer>, k: nat) {
    && k < |offers| && ListOf(mk, offers[k]).Some?
    && forall j :: 0 <= j < k && ListOf(mk, offers[j]).Some? ==> offers[j].title != offers[k].title
  }

  ghost function FirstMuseums(mk: Markup, offers: seq<Offer>, n: nat): seq<Candidate>
    requires n <= |offers|
  {
    if n == 0 then []
    else FirstMuseums(mk, offers, n - 1)
         + if FirstOfMuseum(mk, offers, n - 1) then [MuseumOf(mk, offers[n - 1]).value] else []
  }

  ghost function FirstLists(mk: Markup, offers: seq<Offer>, n: nat): seq<string>
    requires n <= |offers|
  {
    if n == 0 then []
    else FirstLists(mk, offers, n - 1)
         + if FirstOfList(mk, offers, n - 1) then [offers[n - 1].title] else []
  }

  ghost function MuseumsNamed(mk: Markup, offers: seq<Offer>, n: nat): set<string>
    requires n <= |offers|
  {
    set j | 0 <= j < n && MuseumOf(mk, offers[j]).Some? :: offers[j].title
  }

  ghost function ListsNamed(mk: Markup, offers: seq<Offer>, n: nat): set<string>
    requires n <= |offers|
  {
    set j | 0 <= j < n && ListOf(mk, offers[j]).Some? :: offers[j].title
  }

  lemma TitlesOneMore(c: seq<Candidate>, x: Candidate)
    ensures Titles(c + [x]) == Titles(c) + {x.title}
  {
  }

  lemma {:induction false} FirstMuseumsHoldEveryTitle(mk: Markup, offers: seq<Offer>, n: nat)
    requires n <= |offers|
    ensures Titles(FirstMuseums(mk, offers, n)) == MuseumsNamed(mk, offers, n)
  {
    if n > 0 {
      FirstMuseumsHoldEveryTitle(mk, offers, n - 1);
      var o := offers[n - 1];
      if MuseumOf(mk, o).Some? {
        assert MuseumsNamed(mk, offers, n) == MuseumsNamed(mk, offers, n - 1) + {o.title};
        TitlesOneMore(FirstMuseums(mk, offers, n - 1), MuseumOf(mk, o).value);
      } else {
        assert MuseumsNamed(mk, offers, n) == MuseumsNamed(mk, offers, n - 1);
      }
    }
  }

  lemma {:induction false} FirstListsHoldEveryTitle(mk: Markup, offers: seq<Offer>, n: nat)
    requires n <= |offers|
    ensures (set t | t in FirstLists(mk, offers, n)) == ListsNamed(mk, offers, n)
  {
    if n > 0 {
      FirstListsHoldEveryTitle(mk, offers, n - 1);
      var o := offers[n - 1];
      var l := FirstLists(mk, offers, n - 1);
      if ListOf(mk, o).Some? {
        assert ListsNamed(mk, offers, n) == ListsNamed(mk, offers, n - 1) + {o.title};
        assert (set t | t in l + [o.title]) == (set t | t in l) + {o.title};
      } else {
        assert ListsNamed(mk, offers, n) == ListsNamed(mk, offers, n - 1);
      }
    }
  }

  lemma NextOffer(mk: Markup, offers: seq<Offer>, n: nat)
    requires 0 < n <= |offers|
    ensures Accept(mk, Extraction(FirstMuseums(mk, offers, n - 1), FirstLists(mk, offers, n - 1)), offers[n - 1])
         == Extraction(FirstMuseums(mk, offers, n), FirstLists(mk, offers, n))
  {
    var l := FirstLists(mk, offers, n - 1);
    FirstMuseumsHoldEveryTitle(mk, offers, n - 1);
    FirstListsHoldEveryTitle(mk, offers, n - 1);
    assert offers[n - 1].title in l <==> offers[n - 1].title in (set t | t in l);
    assert FirstOfMuseum(mk, offers, n - 1)
      <==> MuseumOf(mk, offers[n - 1]).Some? && offers[n - 1].title !in MuseumsNamed(mk, offers, n - 1);
    assert FirstOfList(mk, offers, n - 1)
      <==> ListOf(mk, offers[n - 1]).Some? && offers[n - 1].title !in ListsNamed(mk, offers, n - 1);
  }

  /** The result keeps exactly the first offer of every museum and of every list,
      in the order they were met. */
  lemma {:induction false} KeepsFirstOccurrences(mk: Markup, offers: seq<Offer>, n: nat)
    requires n <= |offers|
    ensures AcceptAll(mk, Extraction([], []), offers[..n])
         == Extraction(FirstMuseums(mk, offers, n), FirstLists(mk, offers, n))
  {
    if n > 0 {
      KeepsFirstOccurrences(mk, offers, n - 1);
      NextOffer(mk, offers, n);
      AcceptLast(mk, Extraction([], []), offers[..n - 1], offers[n - 1]);
      assert offers[..n] == offers[..n - 1] + [offers[n - 1]];
    }
  }

  /** No museum is reported twice. */
  lemma {:induction false} NoMuseumTwice(mk: Markup, offers: seq<Offer>, n: nat)
    requires n <= |offers|
    ensures var c := FirstMuseums(mk, offers, n); forall i, j :: 0 <= i < j < |c| ==> c[i].title != c[j].title
  {
    if n > 0 {
      NoMuseumTwice(mk, offers, n - 1);
      FirstMuseumsHoldEveryTitle(mk, offers, n - 1);
      var c := FirstMuseums(mk, offers, n - 1);
      forall i | 0 <= i < |c| ensures c[i].title in MuseumsNamed(mk, offers, n - 1) {
        assert c[i] in c;
      }
    }
  }

  /** No list is reported twice. */
  lemma {:induction false} NoListTwice(mk: Markup, offers: seq<Offer>, n: nat)
    requires n <= |offers|
    ensures var l := FirstLists(mk, offers, n); forall i, j :: 0 <= i < j < |l| ==> l[i] != l[j]
  {
    if n > 0 {
      NoListTwice(mk, offers, n - 1);
      FirstListsHoldEveryTitle(mk, offers, n - 1);
      var l := FirstLists(mk, offers, n - 1);
      forall i | 0 <= i < |l| ensures l[i] in ListsNamed(mk, offers, n - 1) {
        assert l[i] in (set t | t in l);
      }
    }
  }

  /** The whole of it, for every page: what Extract returns, told by the offers. */
  lemma {:induction false} ExtractionCharacterised(mk: Markup, lines: seq<string>)
    ensures var offers := Offers(mk, lines);
            AcceptAll(mk, Extraction([], []), offers)
            == Extraction(FirstMuseums(mk, offers, |offers|), FirstLists(mk, offers, |offers|))
  {
    var offers := Offers(mk, lines);
    KeepsFirstOccurrences(mk, offers, |offers|);
    assert offers[..|offers|] == offers;
  }

  ghost predicate OfferedEntry(offers: seq<Offer>, t: string) {
    exists k :: 0 <= k < |offers| && offers[k].Entry? && offers[k].title == t
  }

  ghost predicate OfferedLink(offers: seq<Offer>, t: string) {
    exists k :: 0 <= k < |offers| && offers[k].ListLink? && offers[k].title == t
  }

  /** The first entry of that title gives that place. */
  ghost predicate FirstPlace(offers: seq<Offer>, t: string, place: string) {
    exists k :: 0 <= k < |offers| && offers[k] == Entry(t, place)
                && forall j :: 0 <= j < k ==> !(offers[j].Entry? && offers[j].title == t)
  }

  /** Told by the offers alone: the museums are the titles offered as entries that
      are included and not a list's, each with the place of the first such offer;
      the lists are the museum lists offered as links, or as entries that are
      included and name a list. */
  lemma {:induction false} ResultMeans(mk: Markup, lines: seq<string>, t: string)
    ensures var offers := Offers(mk, lines);
            var x := AcceptAll(mk, Extraction([], []), offers);
            && (t in Titles(x.candidates) <==> mk.included(t) && !mk.isListTitle(t) && OfferedEntry(offers, t))
            && (forall c :: c in x.candidates ==> FirstPlace(offers, c.title, c.locality))
            && (t in x.nestedLists
                <==> mk.isMuseumListTitle(t)
                     && (OfferedLink(offers, t) || (mk.included(t) && mk.isListTitle(t) && OfferedEntry(offers, t))))
  {
    var offers := Offers(mk, lines);
    var n := |offers|;
    ExtractionCharacterised(mk, lines);
    FirstMuseumsHoldEveryTitle(mk, offers, n);
    FirstListsHoldEveryTitle(mk, offers, n);
    MuseumsAreEntries(mk, offers, t);
    ListsAreLinksOrEntries(mk, offers, t);
    forall c | c in FirstMuseums(mk, offers, n) ensures FirstPlace(offers, c.title, c.locality) {
      var k := MuseumComesFrom(mk, offers, n, c);
      MuseumHasFirstPlace(mk, offers, k);
    }
    assert t in FirstLists(mk, offers, n) <==> t in (set l | l in FirstLists(mk, offers, n));
  }

  lemma MuseumsAreEntries(mk: Markup, offers: seq<Offer>, t: string)
    ensures t in MuseumsNamed(mk, offers, |offers|) <==> mk.included(t) && !mk.isListTitle(t) && OfferedEntry(offers, t)
  {
    forall k | 0 <= k < |offers| && offers[k].title == t
      ensures MuseumOf(mk, offers[k]).Some? <==> offers[k].Entry? && mk.included(t) && !mk.isListTitle(t)
    {
    }
  }

  lemma ListsAreLinksOrEntries(mk: Markup, offers: seq<Offer>, t: string)
    ensures t in ListsNamed(mk, offers, |offers|)
       <==> mk.isMuseumListTitle(t)
            && (OfferedLink(offers, t) || (mk.included(t) && mk.isListTitle(t) && OfferedEntry(offers, t)))
  {
    forall k | 0 <= k < |offers| && offers[k].title == t
      ensures ListOf(mk, offers[k]).Some?
         <==> mk.isMuseumListTitle(t) && (offers[k].ListLink? || (mk.included(t) && mk.isListTitle(t)))
    {
    }
  }

  lemma MuseumHasFirstPlace(mk: Markup, offers: seq<Offer>, k: nat)
    requires FirstOfMuseum(mk, offers, k)
    ensures FirstPlace(offers, offers[k].title, MuseumOf(mk, offers[k]).value.locality)
  {
    assert offers[k] == Entry(offers[k].title, offers[k].locality);
    assert forall j :: 0 <= j < k ==> (MuseumOf(mk, offers[j]).Some? ==> offers[j].title != offers[k].title);
  }

  lemma {:induction false} MuseumComesFrom(mk: Markup, offers: seq<Offer>, n: nat, c: Candidate) returns (k: nat)
    requires n <= |offers| && c in FirstMuseums(mk, offers, n)
    ensures FirstOfMuseum(mk, offers, k) && MuseumOf(mk, offers[k]) == Some(c)
  {
    if c in FirstMuseums(mk, offers, n - 1) {
      k := MuseumComesFrom(mk, offers, n - 1, c);
    } else {
      k := n - 1;
    }
  }
}
