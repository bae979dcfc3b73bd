/** pkg/wikipedia/table.go, from the author's side: tables as they are meant, how
    they are written out, and that reading gives back what was meant. */
module Layout {
  import opened Table
  import Extractor

  // -------------------------------------------------------- markup within a cell

  /** Text with links and templates, which nest. */
  datatype Text = End | Plain(c: char, rest: Text) | Link(body: Text, rest: Text) | Template(body: Text, rest: Text)

  function Written(t: Text): string {
    match t
    case End => ""
    case Plain(c, rest) => [c] + Written(rest)
    case Link(body, rest) => "[[" + Written(body) + "]]" + Written(rest)
    case Template(body, rest) => "{{" + Written(body) + "}}" + Written(rest)
  }

  /** No character is a bracket or a brace. */
  ghost predicate Clean(t: Text) {
    match t
    case End => true
    case Plain(c, rest) => c !in "[]{}" && Clean(rest)
    case Link(body, rest) => Clean(body) && Clean(rest)
    case Template(body, rest) => Clean(body) && Clean(rest)
  }

  /** Outside links and templates the separator's character does not occur. */
  ghost predicate Unsplit(t: Text, sep: char) {
    match t
    case End => true
    case Plain(c, rest) => c != sep && Unsplit(rest, sep)
    case Link(_, rest) => Unsplit(rest, sep)
    case Template(_, rest) => Unsplit(rest, sep)
  }

  /** Taken over as a whole, from wherever it stands. */
  ghost predicate Passes(s: string, tail: string, head: string, link: nat, tmpl: nat, sep: string)
    requires sep != ""
  {
    && Parts(s + tail, head, link, tmpl, sep) == Parts(tail, head + s, link, tmpl, sep)
    && Depths(s + tail, link, tmpl, sep) == Depths(tail, link, tmpl, sep)
  }

  lemma {:induction false} TextPasses(t: Text, tail: string, head: string, link: nat, tmpl: nat, c: char)
    requires Clean(t) && c !in "[]{}" && (link + tmpl > 0 || Unsplit(t, c))
    ensures Passes(Written(t), tail, head, link, tmpl, [c, c])
    decreases t, 0
  {
    var sep, s := [c, c], Written(t);
    match t
    case End =>
      assert s + tail == tail && head + s == head;
    case Plain(x, rest) =>
      assert (s + tail)[0] == x && (s + tail)[1..] == Written(rest) + tail && (s + tail)[..1] == [x];
      assert NextToken(s + tail, link, tmpl, sep) == Token(1, link, tmpl, false);
      TextPasses(rest, tail, head + [x], link, tmpl, c);
      assert head + [x] + Written(rest) == head + s;
    case Link(body, rest) =>
      EnclosedPasses("[[", body, "]]", Written(rest) + tail, head, link, tmpl, c);
      TextPasses(rest, tail, head + ("[[" + Written(body) + "]]"), link, tmpl, c);
      Regrouped(head, "[[" + Written(body) + "]]", Written(rest), tail);
    case Template(body, rest) =>
      EnclosedPasses("{{", body, "}}", Written(rest) + tail, head, link, tmpl, c);
      TextPasses(rest, tail, head + ("{{" + Written(body) + "}}"), link, tmpl, c);
      Regrouped(head, "{{" + Written(body) + "}}", Written(rest), tail);
  }

  lemma Regrouped(head: string, a: string, b: string, tail: string)
    ensures a + b + tail == a + (b + tail) && head + a + b == head + (a + b)
  {
  }

  /** A marker is taken over, and counted. */
  lemma {:induction false} MarkerPasses(two: string, rest: string, head: string, link: nat, tmpl: nat, link': nat, tmpl': nat, c: char)
    requires c !in "[]{}" && Counts(two, link, tmpl, link', tmpl')
    ensures Parts(two + rest, head, link, tmpl, [c, c]) == Parts(rest, head + two, link', tmpl', [c, c])
    ensures Depths(two + rest, link, tmpl, [c, c]) == Depths(rest, link', tmpl', [c, c])
  {
    var s := two + rest;
    assert s[..2] == two && s[2..] == rest;
  }

  predicate Counts(two: string, link: nat, tmpl: nat, link': nat, tmpl': nat) {
    || (two == "[[" && link' == link + 1 && tmpl' == tmpl)
    || (two == "]]" && link == link' + 1 && tmpl' == tmpl)
    || (two == "{{" && link' == link && tmpl' == tmpl + 1)
    || (two == "}}" && link' == link && tmpl == tmpl' + 1)
  }

  lemma Enclosed(opening: string, inside: string, closing: string, tail: string, head: string)
    ensures opening + inside + closing + tail == opening + (inside + (closing + tail))
    ensures head + opening + inside + closing == head + (opening + inside + closing)
  {
  }

  lemma {:induction false} EnclosedPasses(opening: string, body: Text, closing: string, tail: string, head: string,
                                          link: nat, tmpl: nat, c: char)
    requires Clean(body) && c !in "[]{}"
    requires (opening == "[[" && closing == "]]") || (opening == "{{" && closing == "}}")
    ensures Passes(opening + Written(body) + closing, tail, head, link, tmpl, [c, c])
    decreases body, 1
  {
    var inside := Written(body);
    var link', tmpl' := if opening == "[[" then link + 1 else link, if opening == "{{" then tmpl + 1 else tmpl;
    Enclosed(opening, inside, closing, tail, head);
    MarkerPasses(opening, inside + (closing + tail), head, link, tmpl, link', tmpl', c);
    TextPasses(body, closing + tail, head + opening, link', tmpl', c);
    MarkerPasses(closing, tail, head + opening + inside, link', tmpl', link, tmpl, c);
  }

  /** A cell may hold separators inside its links and templates. */
  lemma {:induction false} TextIsACell(t: Text, c: char)
    requires Clean(t) && Unsplit(t, c) && c !in "[]{}"
    ensures Cell(Written(t), c)
  {
    TextPasses(t, "", "", 0, 0, c);
    assert Written(t) + "" == Written(t) && "" + Written(t) == Written(t);
    LastIsNoSeparator(t, c);
  }

  lemma {:induction false} LastIsNoSeparator(t: Text, c: char)
    requires Unsplit(t, c) && c !in "[]{}"
    ensures Written(t) != "" ==> Written(t)[|Written(t)| - 1] != c
  {
    match t
    case End =>
    case Plain(_, rest) => LastIsNoSeparator(rest, c);
    case Link(_, rest) => LastIsNoSeparator(rest, c);
    case Template(_, rest) => LastIsNoSeparator(rest, c);
  }

  function AllWritten(ts: seq<Text>): (cells: seq<string>)
    ensures |cells| == |ts| && forall k :: 0 <= k < |ts| ==> cells[k] == Written(ts[k])
  {
    if ts == [] then [] else [Written(ts[0])] + AllWritten(ts[1..])
  }

  /** Links and templates are kept whole: texts written side by side are split
      between them, and nowhere inside a link or a template. */
  lemma {:induction false} MarkupIsKeptWhole(ts: seq<Text>, c: char)
    requires ts != [] && c !in "[]{}" && forall k :: 0 <= k < |ts| ==> Clean(ts[k]) && Unsplit(ts[k], c)
    ensures Split(Join(AllWritten(ts), [c, c]), [c, c]) == AllWritten(ts)
  {
    forall k | 0 <= k < |ts| ensures Cell(Written(ts[k]), c) {
      TextIsACell(ts[k], c);
    }
    SplitUndoesJoin(AllWritten(ts), c);
  }

  // ------------------------------------------------------------ tables, written out

  /** The lines of a nested table's inside: text, and tables nested further. */
  datatype Inside = Done | Words(line: string, rest: Inside) | Nested(opening: string, body: Inside, closing: string, rest: Inside)

  function InsideLines(n: Inside): seq<string> {
    match n
    case Done => []
    case Words(line, rest) => [line] + InsideLines(rest)
    case Nested(opening, body, closing, rest) => [opening] + InsideLines(body) + [closing] + InsideLines(rest)
  }

  predicate Balanced(n: Inside) {
    match n
    case Done => true
    case Words(line, rest) => !HasPrefix(line, "{|") && !HasPrefix(line, "|}") && Balanced(rest)
    case Nested(opening, body, closing, rest) =>
      HasPrefix(opening, "{|") && HasPrefix(closing, "|}") && Balanced(body) && Balanced(rest)
  }

  /** What may stand below a line of cells: nothing, a caption, more text of the
      last cell, or a whole table in it. */
  datatype Extra = Blank | Caption(line: string) | More(line: string) | Table(opening: string, body: Inside, closing: string)

  predicate IsExtra(e: Extra) {
    match e
    case Blank => true
    case Caption(line) => HasPrefix(line, "|+")
    case More(line) => line != "" && !HasPrefix(line, "{|") && !HasPrefix(line, "|") && !HasPrefix(line, "!")
    case Table(opening, body, closing) => HasPrefix(opening, "{|") && HasPrefix(closing, "|}") && Balanced(body)
  }

  function ExtraLines(e: Extra): seq<string> {
    match e
    case Blank => [""]
    case Caption(line) => [line]
    case More(line) => [line]
    case Table(opening, body, closing) => [opening] + InsideLines(body) + [closing]
  }

  /** What it adds to the text of the cell above. */
  function ExtraText(e: Extra): string {
    match e
    case Blank => ""
    case Caption(_) => ""
    case More(line) => "\n" + line
    case Table(opening, body, closing) => Below(ExtraLines(e))
  }

  function Below(lines: seq<string>): string {
    if lines == [] then "" else "\n" + lines[0] + Below(lines[1..])
  }

  function ExtrasLines(es: seq<Extra>): seq<string> {
    if es == [] then [] else ExtraLines(es[0]) + ExtrasLines(es[1..])
  }

  function ExtrasText(es: seq<Extra>): string {
    if es == [] then "" else ExtraText(es[0]) + ExtrasText(es[1..])
  }

  // ------------------------------------------------------------- reading lines

  /** Where the reader stands: what it has read, how many tables are open, and
      whether the outermost has been open throughout. */
  datatype Stand = Stand(reading: Reading, level: int, open: bool) {
    function Over(line: string, content: string -> string): Stand {
      Stand(reading.Take(line, level, content), After(level, line), open && After(level, line) >= 1)
    }
  }

  function RunOver(lines: seq<string>, s: Stand, content: string -> string): Stand
    decreases |lines|
  {
    if lines == [] then s else RunOver(lines[1..], s.Over(lines[0], content), content)
  }

  lemma {:induction false} RunInTurn(a: seq<string>, b: seq<string>, s: Stand, content: string -> string)
    ensures RunOver(a + b, s, content) == RunOver(b, RunOver(a, s, content), content)
    decreases |a|
  {
    if a == [] {
      assert a + b == b;
    } else {
      assert (a + b)[1..] == a[1..] + b;
      RunInTurn(a[1..], b, s.Over(a[0], content), content);
    }
  }

  lemma {:induction false} RunOne(line: string, s: Stand, content: string -> string)
    ensures RunOver([line], s, content) == s.Over(line, content)
  {
    assert [line][1..] == [];
  }

  /** The row with that text added to its last cell. */
  function Lengthened(row: Row, text: string): Row {
    if row == [] then row else row[|row| - 1 := row[|row| - 1] + text]
  }

  lemma LengthenedTwice(row: Row, a: string, b: string)
    ensures Lengthened(Lengthened(row, a), b) == Lengthened(row, a + b)
    ensures Lengthened(row, "") == row
  {
    if row != [] {
      var last := row[|row| - 1];
      assert last + a + b == last + (a + b) && last + "" == last;
    }
  }

  lemma {:induction false} BelowInTurn(a: seq<string>, b: seq<string>)
    ensures Below(a + b) == Below(a) + Below(b)
  {
    if a == [] {
      assert a + b == b;
    } else {
      assert (a + b)[1..] == a[1..] + b;
      BelowInTurn(a[1..], b);
    }
  }

  /** The same reader, with that text added to the last cell. */
  function Longer(s: Stand, text: string): Stand {
    s.(reading := Reading(s.reading.done, Lengthened(s.reading.current, text)))
  }

  lemma LongerTwice(s: Stand, a: string, b: string)
    ensures Longer(Longer(s, a), b) == Longer(s, a + b)
    ensures Longer(s, "") == s
  {
    LengthenedTwice(s.reading.current, a, b);
  }

  lemma LineBelow(line: string, s: Stand, content: string -> string)
    requires HasPrefix(line, "{|") || HasPrefix(line, "|}") || s.level > 1
    ensures s.Over(line, content).reading == Longer(s, "\n" + line).reading
    ensures Below([line]) == "\n" + line
  {
    assert [line][1..] == [];
    assert Below([line]) == "\n" + line + "";
    if s.reading.current != [] {
      var last := s.reading.current[|s.reading.current| - 1];
      assert last + "\n" + line == last + ("\n" + line);
    }
  }

  /** Inside a nested table every line goes to the cell the table stands in. */
  lemma {:induction false} InsideIsText(n: Inside, s: Stand, content: string -> string)
    requires Balanced(n) && s.level > 1 && s.open
    ensures RunOver(InsideLines(n), s, content) == Longer(s, Below(InsideLines(n)))
    decreases n, 0
  {
    match n
    case Done =>
      LongerTwice(s, "", "");
    case Words(line, rest) =>
      var next := s.Over(line, content);
      RunInTurn([line], InsideLines(rest), s, content);
      RunOne(line, s, content);
      LineBelow(line, s, content);
      InsideIsText(rest, next, content);
      BelowInTurn([line], InsideLines(rest));
      LongerTwice(s, Below([line]), Below(InsideLines(rest)));
    case Nested(opening, body, closing, rest) =>
      var table := [opening] + InsideLines(body) + [closing];
      RunInTurn(table, InsideLines(rest), s, content);
      TableIsText(opening, body, closing, s, content);
      InsideIsText(rest, Longer(s, Below(table)), content);
      BelowInTurn(table, InsideLines(rest));
      LongerTwice(s, Below(table), Below(InsideLines(rest)));
  }

  lemma {:induction false} TableIsText(opening: string, body: Inside, closing: string, s: Stand, content: string -> string)
    requires HasPrefix(opening, "{|") && HasPrefix(closing, "|}") && Balanced(body) && s.level >= 1 && s.open
    ensures var table := [opening] + InsideLines(body) + [closing];
            RunOver(table, s, content) == Longer(s, Below(table))
    decreases body, 1
  {
    var lines := InsideLines(body);
    var inner := s.Over(opening, content);
    RunInTurn([opening] + lines, [closing], s, content);
    RunInTurn([opening], lines, s, content);
    RunOne(opening, s, content);
    LineBelow(opening, s, content);
    InsideIsText(body, inner, content);
    var last := Longer(inner, Below(lines));
    RunOne(closing, last, content);
    LineBelow(closing, last, content);
    LongerTwice(s, Below([opening]), Below(lines));
    LongerTwice(s, Below([opening]) + Below(lines), Below([closing]));
    BelowInTurn([opening], lines);
    BelowInTurn([opening] + lines, [closing]);
  }

  lemma {:induction false} ExtraIsText(e: Extra, s: Stand, content: string -> string)
    requires IsExtra(e) && s.level == 1 && s.open
    ensures RunOver(ExtraLines(e), s, content) == Longer(s, ExtraText(e))
  {
    LongerTwice(s, "", "");
    match e
    case Blank => RunOne("", s, content);
    case Caption(line) => RunOne(line, s, content);
    case More(line) =>
      RunOne(line, s, content);
      MoreIsText(line, s, content);
    case Table(opening, body, closing) => TableIsText(opening, body, closing, s, content);
  }

  lemma MoreIsText(line: string, s: Stand, content: string -> string)
    requires IsExtra(More(line)) && s.level == 1 && s.open
    ensures s.Over(line, content) == Longer(s, "\n" + line)
  {
    assert MarkOf(line) == Other by {
      assert HasPrefix(line, "|}") || HasPrefix(line, "|-") || HasPrefix(line, "|+") ==> HasPrefix(line, "|");
    }
    if s.reading.current != [] {
      var last := s.reading.current[|s.reading.current| - 1];
      assert last + "\n" + line == last + ("\n" + line);
    }
  }

  lemma {:induction false} ExtrasAreText(es: seq<Extra>, s: Stand, content: string -> string)
    requires (forall k :: 0 <= k < |es| ==> IsExtra(es[k])) && s.level == 1 && s.open
    ensures RunOver(ExtrasLines(es), s, content) == Longer(s, ExtrasText(es))
    decreases |es|
  {
    LongerTwice(s, "", "");
    if es != [] {
      RunInTurn(ExtraLines(es[0]), ExtrasLines(es[1..]), s, content);
      ExtraIsText(es[0], s, content);
      ExtrasAreText(es[1..], Longer(s, ExtraText(es[0])), content);
      LongerTwice(s, ExtraText(es[0]), ExtrasText(es[1..]));
    }
  }

  // ---------------------------------------------------------- rows, and the table

  /** A line of cells, and what stands below it. */
  datatype CellLine = CellLine(bang: bool, cells: seq<string>, below: seq<Extra>)

  function MarkChar(d: CellLine): char {
    if d.bang then '!' else '|'
  }

  function PackedCells(d: CellLine): string {
    Join(d.cells, [MarkChar(d), MarkChar(d)])
  }

  /** Its cells can stand side by side, and it does not look like another kind of
      line. */
  ghost predicate IsCellLine(d: CellLine) {
    && d.cells != [] && (forall k :: 0 <= k < |d.cells| ==> Cell(d.cells[k], MarkChar(d)))
    && (forall k :: 0 <= k < |d.below| ==> IsExtra(d.below[k]))
    && (!d.bang && PackedCells(d) != "" ==> PackedCells(d)[0] !in "}-+")
  }

  function CellLines(d: CellLine): seq<string> {
    [[MarkChar(d)] + PackedCells(d)] + ExtrasLines(d.below)
  }

  function Contents(cells: seq<string>, content: string -> string): Row {
    seq(|cells|, k requires 0 <= k < |cells| => content(cells[k]))
  }

  /** The cells it adds to its row: their contents, the last with all that stands
      below. */
  function Added(d: CellLine, content: string -> string): Row {
    Lengthened(Contents(d.cells, content), ExtrasText(d.below))
  }

  lemma BeginsWith(line: string, two: string)
    requires |two| == 2
    ensures HasPrefix(line, two) <==> |line| >= 2 && line[0] == two[0] && line[1] == two[1]
  {
  }

  lemma LooksLikeData(c: char, body: string)
    requires c == '!' || (c == '|' && (body != "" ==> body[0] !in "}-+"))
    ensures MarkOf([c] + body) == Data
  {
    var line := [c] + body;
    BeginsWith(line, "{|");
    BeginsWith(line, "|}");
    BeginsWith(line, "|-");
    BeginsWith(line, "|+");
    assert line[..1] == [c];
  }

  lemma CellsAreContents(d: CellLine, content: string -> string)
    requires IsCellLine(d)
    ensures var line := [MarkChar(d)] + PackedCells(d);
            MarkOf(line) == Data && Cells(line, content) == Contents(d.cells, content)
  {
    var line := [MarkChar(d)] + PackedCells(d);
    LooksLikeData(MarkChar(d), PackedCells(d));
    SplitUndoesJoin(d.cells, MarkChar(d));
    assert line[1..] == PackedCells(d) && line[..1] == [MarkChar(d)];
  }

  function Wider(s: Stand, cells: Row): Stand {
    s.(reading := Reading(s.reading.done, s.reading.current + cells))
  }

  lemma WiderThenLonger(s: Stand, cells: Row, text: string)
    requires cells != []
    ensures Longer(Wider(s, cells), text) == Wider(s, Lengthened(cells, text))
  {
    assert Lengthened(s.reading.current + cells, text) == s.reading.current + Lengthened(cells, text);
  }

  lemma {:induction false} CellLineReads(d: CellLine, s: Stand, content: string -> string)
    requires IsCellLine(d) && s.level == 1 && s.open
    ensures RunOver(CellLines(d), s, content) == Wider(s, Added(d, content))
  {
    var line := [MarkChar(d)] + PackedCells(d);
    RunInTurn([line], ExtrasLines(d.below), s, content);
    RunOne(line, s, content);
    CellsAreContents(d, content);
    ExtrasAreText(d.below, Wider(s, Contents(d.cells, content)), content);
    WiderThenLonger(s, Contents(d.cells, content), ExtrasText(d.below));
  }

  function RowLines(row: seq<CellLine>): seq<string> {
    if row == [] then [] else CellLines(row[0]) + RowLines(row[1..])
  }

  function RowCells(row: seq<CellLine>, content: string -> string): Row {
    if row == [] then [] else Added(row[0], content) + RowCells(row[1..], content)
  }

  lemma WiderTwice(s: Stand, a: Row, b: Row)
    ensures Wider(Wider(s, a), b) == Wider(s, a + b)
    ensures Wider(s, []) == s
  {
    assert s.reading.current + a + b == s.reading.current + (a + b);
    assert s.reading.current + [] == s.reading.current;
  }

  lemma {:induction false} RowReads(row: seq<CellLine>, s: Stand, content: string -> string)
    requires (forall k :: 0 <= k < |row| ==> IsCellLine(row[k])) && s.level == 1 && s.open
    ensures RunOver(RowLines(row), s, content) == Wider(s, RowCells(row, content))
    decreases |row|
  {
    WiderTwice(s, [], []);
    if row != [] {
      RunInTurn(CellLines(row[0]), RowLines(row[1..]), s, content);
      CellLineReads(row[0], s, content);
      RowReads(row[1..], Wider(s, Added(row[0], content)), content);
      WiderTwice(s, Added(row[0], content), RowCells(row[1..], content));
    }
  }

  /** A row; what stands above its first line of cells belongs to no cell. */
  datatype Band = Band(above: seq<Extra>, row: seq<CellLine>)

  ghost predicate IsBand(b: Band) {
    && (forall k :: 0 <= k < |b.above| ==> IsExtra(b.above[k]))
    && (forall k :: 0 <= k < |b.row| ==> IsCellLine(b.row[k]))
  }

  function BandLines(b: Band): seq<string> {
    ExtrasLines(b.above) + RowLines(b.row)
  }

  lemma {:induction false} BandReads(b: Band, s: Stand, content: string -> string)
    requires IsBand(b) && s.level == 1 && s.open && s.reading.current == []
    ensures RunOver(BandLines(b), s, content) == Wider(s, RowCells(b.row, content))
  {
    RunInTurn(ExtrasLines(b.above), RowLines(b.row), s, content);
    ExtrasAreText(b.above, s, content);
    RowReads(b.row, s, content);
  }

  /** Bands, each with the rule that ends it. */
  function RuledLines(bands: seq<Band>, rules: seq<string>): seq<string>
    requires |bands| == |rules|
  {
    if bands == [] then [] else BandLines(bands[0]) + [rules[0]] + RuledLines(bands[1..], rules[1..])
  }

  /** The rows, those without cells left out. */
  function Filled(bands: seq<Band>, content: string -> string): seq<Row> {
    if bands == [] then [] else RowOf(bands[0], content) + Filled(bands[1..], content)
  }

  function RowOf(b: Band, content: string -> string): seq<Row> {
    if b.row == [] then [] else [RowCells(b.row, content)]
  }

  lemma {:induction false} RowHasCells(row: seq<CellLine>, content: string -> string)
    requires row != [] && IsCellLine(row[0])
    ensures RowCells(row, content) != []
  {
  }

  /** The same reader, with those rows finished. */
  function Filed(s: Stand, rows: seq<Row>): Stand {
    s.(reading := Reading(s.reading.done + rows, []))
  }

  lemma FiledTwice(s: Stand, a: seq<Row>, b: seq<Row>)
    ensures Filed(Filed(s, a), b) == Filed(s, a + b)
    ensures s.reading.current == [] ==> Filed(s, []) == s
  {
    assert s.reading.done + a + b == s.reading.done + (a + b);
    assert s.reading.done + [] == s.reading.done;
  }

  lemma {:induction false} RuledBandReads(b: Band, rule: string, s: Stand, content: string -> string)
    requires IsBand(b) && HasPrefix(rule, "|-") && s.level == 1 && s.open && s.reading.current == []
    ensures RunOver(BandLines(b) + [rule], s, content)
         == Filed(s, RowOf(b, content))
  {
    RunInTurn(BandLines(b), [rule], s, content);
    BandReads(b, s, content);
    RunOne(rule, Wider(s, RowCells(b.row, content)), content);
    assert s.reading.current + RowCells(b.row, content) == RowCells(b.row, content);
    if b.row == [] {
      assert s.reading.done + [] == s.reading.done;
    } else {
      RowHasCells(b.row, content);
    }
  }

  lemma {:induction false} RuledBandsRead(bands: seq<Band>, rules: seq<string>, s: Stand, content: string -> string)
    requires |bands| == |rules| && forall k :: 0 <= k < |bands| ==> IsBand(bands[k]) && HasPrefix(rules[k], "|-")
    requires s.level == 1 && s.open && s.reading.current == []
    ensures RunOver(RuledLines(bands, rules), s, content)
         == Filed(s, Filled(bands, content))
    decreases |bands|
  {
    FiledTwice(s, [], []);
    if bands != [] {
      var row := RowOf(bands[0], content);
      RunInTurn(BandLines(bands[0]) + [rules[0]], RuledLines(bands[1..], rules[1..]), s, content);
      RuledBandReads(bands[0], rules[0], s, content);
      RuledBandsRead(bands[1..], rules[1..], Filed(s, row), content);
      FiledTwice(s, row, Filled(bands[1..], content));
    }
  }

  datatype Sheet = Sheet(opening: string, bands: seq<Band>, rules: seq<string>, last: Band, closing: string)

  ghost predicate IsSheet(t: Sheet) {
    && |t.bands| == |t.rules| && (forall k :: 0 <= k < |t.bands| ==> IsBand(t.bands[k]) && HasPrefix(t.rules[k], "|-"))
    && IsBand(t.last) && HasPrefix(t.closing, "|}")
  }

  /** The lines between the opening and the closing one. */
  function Middle(t: Sheet): seq<string>
    requires |t.bands| == |t.rules|
  {
    RuledLines(t.bands, t.rules) + BandLines(t.last)
  }

  function SheetLines(t: Sheet): seq<string>
    requires |t.bands| == |t.rules|
  {
    [t.opening] + Middle(t) + [t.closing]
  }

  const START := Stand(Reading([], []), 1, true)

  lemma MiddleReads(t: Sheet, content: string -> string)
    requires IsSheet(t)
    ensures var s := RunOver(Middle(t), START, content);
            s.level == 1 && s.open && s.reading.Flush().done == Filled(t.bands + [t.last], content)
  {
    RunInTurn(RuledLines(t.bands, t.rules), BandLines(t.last), START, content);
    RuledBandsRead(t.bands, t.rules, START, content);
    assert [] + Filled(t.bands, content) == Filled(t.bands, content);
    var s := Stand(Reading(Filled(t.bands, content), []), 1, true);
    BandReads(t.last, s, content);
    assert [] + RowCells(t.last.row, content) == RowCells(t.last.row, content);
    FilledLast(t.bands, t.last, content);
    if t.last.row == [] {
      assert Filled(t.bands, content) + [] == Filled(t.bands, content);
    } else {
      RowHasCells(t.last.row, content);
    }
  }

  lemma RowsInTurn(a: seq<Row>, b: seq<Row>, c: seq<Row>)
    ensures a + (b + c) == a + b + c && a + [] == a && [] + a == a
  {
  }

  lemma {:induction false} FilledLast(bands: seq<Band>, last: Band, content: string -> string)
    ensures Filled(bands + [last], content) == Filled(bands, content) + RowOf(last, content)
    decreases |bands|
  {
    if bands == [] {
      assert [last][1..] == [] && bands + [last] == [last];
      RowsInTurn(RowOf(last, content), [], []);
    } else {
      assert (bands + [last])[1..] == bands[1..] + [last];
      FilledLast(bands[1..], last, content);
      RowsInTurn(RowOf(bands[0], content), Filled(bands[1..], content), RowOf(last, content));
    }
  }

  lemma OpenOneLineOn(lines: seq<string>, start: nat, i: nat)
    requires start + 1 < i <= |lines|
    ensures StillOpen(lines, start, i) <==> StillOpen(lines, start, i - 1) && Level(lines, start, i) >= 1
    ensures StillOpen(lines, start, start + 1)
  {
  }

  lemma LinesOneMore(lines: seq<string>, start: nat, i: nat)
    requires start + 1 < i <= |lines|
    ensures lines[start + 1..i] == lines[start + 1..i - 1] + [lines[i - 1]]
  {
  }

  ghost function StandAt(lines: seq<string>, content: string -> string, start: nat, i: nat): Stand
    requires start < i <= |lines|
  {
    Stand(Read(lines, content, start, i), Level(lines, start, i), StillOpen(lines, start, i))
  }

  lemma StandsAtStart(lines: seq<string>, content: string -> string, start: nat)
    requires start < |lines|
    ensures StandAt(lines, content, start, start + 1) == START && lines[start + 1..start + 1] == []
  {
    assert StillOpen(lines, start, start + 1);
  }

  lemma StandOneLineOn(lines: seq<string>, content: string -> string, start: nat, i: nat)
    requires start + 1 < i <= |lines|
    ensures StandAt(lines, content, start, i) == StandAt(lines, content, start, i - 1).Over(lines[i - 1], content)
  {
    OpenOneLineOn(lines, start, i);
  }

  lemma {:induction false} RunOneMore(ran: seq<string>, line: string, lines: seq<string>, s: Stand, content: string -> string)
    requires lines == ran + [line]
    ensures RunOver(lines, s, content) == RunOver(ran, s, content).Over(line, content)
  {
    RunInTurn(ran, [line], s, content);
    RunOne(line, RunOver(ran, s, content), content);
  }

  lemma {:induction false} ReadIsRun(lines: seq<string>, content: string -> string, start: nat, i: nat)
    requires start < i <= |lines|
    ensures StandAt(lines, content, start, i) == RunOver(lines[start + 1..i], START, content)
    decreases i
  {
    if i == start + 1 {
      StandsAtStart(lines, content, start);
    } else {
      ReadIsRun(lines, content, start, i - 1);
      StandOneLineOn(lines, content, start, i);
      LinesOneMore(lines, start, i);
      RunOneMore(lines[start + 1..i - 1], lines[i - 1], lines[start + 1..i], START, content);
    }
  }

  lemma SheetIsOpen(t: Sheet, lines: seq<string>, start: nat, end: nat, content: string -> string)
    requires IsSheet(t) && start < end < |lines| && lines[start + 1..end] == Middle(t)
    ensures var s := StandAt(lines, content, start, end);
            s.level == 1 && s.open && s.reading.Flush().done == Filled(t.bands + [t.last], content)
  {
    ReadIsRun(lines, content, start, end);
    MiddleReads(t, content);
  }

  lemma Placed<T>(above: seq<T>, opening: T, middle: seq<T>, closing: T, below: seq<T>, all: seq<T>)
    requires all == above + ([opening] + middle + [closing]) + below
    ensures var start, end := |above|, |above| + |middle| + 1;
            end < |all| && all[start + 1..end] == middle && all[end] == closing
  {
    assert all == above + [opening] + middle + [closing] + below;
  }

  /** A table written out among other lines reads as it was meant: it closes at its
      own last line, and its rows hold their cells' contents, each with the text
      and the tables below it. */
  lemma {:induction false} SheetReadsBack(t: Sheet, above: seq<string>, below: seq<string>, lines: seq<string>, start: nat, end: nat,
                       content: string -> string)
    requires IsSheet(t) && lines == above + SheetLines(t) + below && start == |above| && end == start + |SheetLines(t)| - 1
    ensures ClosesAt(lines, start, end)
    ensures Read(lines, content, start, end).Flush().done == Filled(t.bands + [t.last], content)
  {
    Placed(above, t.opening, Middle(t), t.closing, below, lines);
    SheetIsOpen(t, lines, start, end, content);
    ClosingLine(lines, start, end);
  }

  lemma {:induction false} ClosingLine(lines: seq<string>, start: nat, end: nat)
    requires start < end < |lines| && StillOpen(lines, start, end) && Level(lines, start, end) == 1
    requires HasPrefix(lines[end], "|}")
    ensures ClosesAt(lines, start, end)
  {
    BeginsWith(lines[end], "{|");
    BeginsWith(lines[end], "|}");
  }

  lemma {:induction false} ParsedWhereItCloses(lines: seq<string>, content: string -> string, start: nat, e: nat,
                                               rows: seq<Row>, headers: Row, end: nat)
    requires ClosesAt(lines, start, e)
    ensures Parsed(lines, content, start, rows, headers, end)
       <==> end == e && Yields(Read(lines, content, start, e), headers, rows)
  {
    if Parsed(lines, content, start, rows, headers, end) {
      ClosesOnce(lines, start, end, e);
    }
  }

  lemma YieldsRows(read: Reading, headers: Row, rows: seq<Row>, filled: seq<Row>)
    requires read.Flush().done == filled
    ensures Yields(read, headers, rows)
       <==> if filled == [] then headers == [] && rows == [] else [headers] + rows == filled
  {
    if filled != [] {
      assert [filled[0]] + filled[1..] == filled;
      assert ([headers] + rows)[1..] == rows;
    }
  }

  /** So ParseTable, by what it promises, gives back exactly what was meant: the
      first row that has cells is the header, the others are the rows. */
  lemma {:induction false} ParsedAsMeant(t: Sheet, above: seq<string>, below: seq<string>, lines: seq<string>,
                                         content: string -> string, rows: seq<Row>, headers: Row, end: nat)
    requires IsSheet(t) && lines == above + SheetLines(t) + below
    ensures var filled := Filled(t.bands + [t.last], content);
            Parsed(lines, content, |above|, rows, headers, end)
            <==> && end == |above| + |SheetLines(t)| - 1
                 && if filled == [] then headers == [] && rows == [] else [headers] + rows == filled
  {
    var e := |above| + |SheetLines(t)| - 1;
    SheetReadsBack(t, above, below, lines, |above|, e, content);
    ParsedWhereItCloses(lines, content, |above|, e, rows, headers, end);
    YieldsRows(Read(lines, content, |above|, e), headers, rows, Filled(t.bands + [t.last], content));
  }

  /** So a page's table offers what was meant: the first row that has cells says
      which columns to look in, and each row after it is looked up there. */
  lemma {:induction false} SheetIsOffered(mk: Extractor.Markup, t: Sheet, above: seq<string>, below: seq<string>,
                                          lines: seq<string>, scope: string)
    requires IsSheet(t) && lines == above + SheetLines(t) + below
    ensures Extractor.TableEnd(lines, |above|) == |above| + |SheetLines(t)| - 1
    ensures var filled := Filled(t.bands + [t.last], mk.content);
            filled != [] ==> Extractor.TableOffers(mk, lines, |above|, scope)
                             == Extractor.RowOffers(mk, filled[1..], mk.columns(filled[0]), scope)
    ensures Filled(t.bands + [t.last], mk.content) == [] ==> Extractor.TableOffers(mk, lines, |above|, scope) == []
  {
    var e := |above| + |SheetLines(t)| - 1;
    SheetReadsBack(t, above, below, lines, |above|, e, mk.content);
    Extractor.TableEndsWhereParsed(lines, |above|, e);
  }
}
