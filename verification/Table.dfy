/** pkg/wikipedia/table.go: splitting cells outside markup, and reading a
    wikitable whose cells may themselves hold tables. */
module Table {

  predicate HasPrefix(s: string, prefix: string) {
    |prefix| <= |s| && s[..|prefix|] == prefix
  }

  function Join(parts: seq<string>, sep: string): string {
    if |parts| == 0 then ""
    else if |parts| == 1 then parts[0]
    else parts[0] + sep + Join(parts[1..], sep)
  }

  // ------------------------------------------------------ splitOutsideMarkup

  /** One step over s, inside link links and tmpl templates: how many characters
      it takes, the depths after it, and whether it is a separator. */
  datatype Token = Token(width: nat, link: nat, tmpl: nat, cut: bool)

  function NextToken(s: string, link: nat, tmpl: nat, sep: string): (t: Token)
    requires s != "" && sep != ""
    ensures 0 < t.width <= |s|
  {
    if HasPrefix(s, "[[") then Token(2, link + 1, tmpl, false)
    else if HasPrefix(s, "]]") && link > 0 then Token(2, link - 1, tmpl, false)
    else if HasPrefix(s, "{{") then Token(2, link, tmpl + 1, false)
    else if HasPrefix(s, "}}") && tmpl > 0 then Token(2, link, tmpl - 1, false)
    else if link == 0 && tmpl == 0 && HasPrefix(s, sep) then Token(|sep|, 0, 0, true)
    else Token(1, link, tmpl, false)
  }

  /** The parts of s, the first of which already holds head. */
  function Parts(s: string, head: string, link: nat, tmpl: nat, sep: string): (parts: seq<string>)
    requires sep != ""
    ensures parts != []
    decreases |s|
  {
    if s == "" then [head]
    else
      var t := NextToken(s, link, tmpl, sep);
      if t.cut then [head] + Parts(s[t.width..], "", 0, 0, sep)
      else Parts(s[t.width..], head + s[..t.width], t.link, t.tmpl, sep)
  }

  function Split(s: string, sep: string): seq<string>
    requires sep != ""
  {
    Parts(s, "", 0, 0, sep)
  }

  /** What is still to come when the scan stands at i and the current part began
      at last. */
  ghost function Ahead(s: string, last: nat, i: nat, link: nat, tmpl: nat, sep: string): seq<string>
    requires sep != "" && last <= i <= |s|
  {
    Parts(s[i..], s[last..i], link, tmpl, sep)
  }

  lemma AheadStep(s: string, last: nat, i: nat, link: nat, tmpl: nat, sep: string)
    requires sep != "" && last <= i < |s|
    ensures var t := NextToken(s[i..], link, tmpl, sep);
            var next := i + t.width;
            && next <= |s|
            && Ahead(s, last, i, link, tmpl, sep)
            == if t.cut then [s[last..i]] + Ahead(s, next, next, t.link, t.tmpl, sep)
               else Ahead(s, last, next, t.link, t.tmpl, sep)
  {
    var rest, t := s[i..], NextToken(s[i..], link, tmpl, sep);
    var next := i + t.width;
    assert rest[t.width..] == s[next..];
    assert s[last..i] + rest[..t.width] == s[last..next];
    assert s[next..next] == "";
  }

  method SplitOutsideMarkup(s: string, sep: string) returns (parts: seq<string>)
    requires sep != ""
    ensures parts == Split(s, sep)
  {
    parts := [];
    var last, link, tmpl, i := 0, 0, 0, 0;
    assert s[0..] == s;
    while i < |s|
      invariant 0 <= last <= i <= |s|
      invariant link >= 0 && tmpl >= 0
      invariant Split(s, sep) == parts + Ahead(s, last, i, link, tmpl, sep)
    {
      AheadStep(s, last, i, link, tmpl, sep);
      ghost var t, was := NextToken(s[i..], link, tmpl, sep), i;
      var rest := s[i..];
      if HasPrefix(rest, "[[") {
        link := link + 1;
        i := i + 1;
      } else if HasPrefix(rest, "]]") && link > 0 {
        link := link - 1;
        i := i + 1;
      } else if HasPrefix(rest, "{{") {
        tmpl := tmpl + 1;
        i := i + 1;
      } else if HasPrefix(rest, "}}") && tmpl > 0 {
        tmpl := tmpl - 1;
        i := i + 1;
      } else if link == 0 && tmpl == 0 && HasPrefix(rest, sep) {
        parts := parts + [s[last..i]];
        i := i + |sep| - 1;
        last := i + 1;
      }
      i := i + 1;
      assert (i, link, tmpl) == (was + t.width, t.link, t.tmpl);
    }
    assert s[i..] == "" && s[last..i] == s[last..];
    parts := parts + [s[last..]];
  }

  lemma {:induction false} JoinPrepends(first: string, parts: seq<string>, sep: string)
    requires parts != []
    ensures Join([first] + parts, sep) == first + sep + Join(parts, sep)
  {
  }

  /** Nothing is lost: the parts joined by the separator are the input. */
  lemma {:induction false} JoinUndoesParts(s: string, head: string, link: nat, tmpl: nat, sep: string)
    requires sep != ""
    ensures Join(Parts(s, head, link, tmpl, sep), sep) == head + s
    decreases |s|
  {
    if s != "" {
      var t := NextToken(s, link, tmpl, sep);
      var took, rest := s[..t.width], s[t.width..];
      TakeThenRest(head, s, t.width);
      if t.cut {
        JoinUndoesParts(rest, "", 0, 0, sep);
        JoinPrepends(head, Parts(rest, "", 0, 0, sep), sep);
        TakeThenRest("", rest, 0);
      } else {
        JoinUndoesParts(rest, head + took, t.link, t.tmpl, sep);
      }
    } else {
      assert head + s == head;
    }
  }

  lemma TakeThenRest(head: string, s: string, n: nat)
    requires n <= |s|
    ensures head + s[..n] + s[n..] == head + s
    ensures "" + s == s
  {
  }

  lemma {:induction false} SplitLosesNothing(s: string, sep: string)
    requires sep != ""
    ensures Join(Split(s, sep), sep) == s
  {
    JoinUndoesParts(s, "", 0, 0, sep);
    assert "" + s == s;
  }

  /** What is carried in only ever lands at the front of the first part. */
  lemma {:induction false} HeadIsCarried(s: string, head: string, link: nat, tmpl: nat, sep: string)
    requires sep != ""
    ensures Parts(s, head, link, tmpl, sep)
         == [head + Parts(s, "", link, tmpl, sep)[0]] + Parts(s, "", link, tmpl, sep)[1..]
    decreases |s|
  {
    if s != "" {
      var t := NextToken(s, link, tmpl, sep);
      if t.cut {
        assert head + "" == head;
      } else {
        var rest, took := s[t.width..], s[..t.width];
        HeadIsCarried(rest, head + took, t.link, t.tmpl, sep);
        HeadIsCarried(rest, "" + took, t.link, t.tmpl, sep);
        var first := Parts(rest, "", t.link, t.tmpl, sep)[0];
        assert head + took + first == head + ("" + took + first);
      }
    } else {
      assert head + "" == head;
    }
  }

  /** The first part, read again from the same depths, holds no separator. */
  lemma {:induction false} FirstPartIsWhole(s: string, link: nat, tmpl: nat, sep: string)
    requires sep != ""
    ensures var p := Parts(s, "", link, tmpl, sep)[0];
            |p| <= |s| && p == s[..|p|] && Parts(p, "", link, tmpl, sep) == [p]
    decreases |s|
  {
    if s != "" {
      var t := NextToken(s, link, tmpl, sep);
      var p := Parts(s, "", link, tmpl, sep)[0];
      if !t.cut {
        var rest, took := s[t.width..], s[..t.width];
        HeadIsCarried(rest, took, t.link, t.tmpl, sep);
        FirstPartIsWhole(rest, t.link, t.tmpl, sep);
        var q := Parts(rest, "", t.link, t.tmpl, sep)[0];
        assert "" + took == took;
        assert p == took + q;
        assert p == s[..|p|] by { assert s == took + rest; }
        assert NextToken(p, link, tmpl, sep) == t by { SameTokenInPrefix(s, |p|, link, tmpl, sep); }
        assert p[t.width..] == q && p[..t.width] == took;
        HeadIsCarried(q, took, t.link, t.tmpl, sep);
      }
    }
  }

  lemma SameTokenInPrefix(s: string, n: nat, link: nat, tmpl: nat, sep: string)
    requires s != "" && sep != "" && n <= |s|
    requires var t := NextToken(s, link, tmpl, sep); t.width <= n && !t.cut
    ensures NextToken(s[..n], link, tmpl, sep) == NextToken(s, link, tmpl, sep)
  {
  }

  /** Every part, split on its own, is one part: no separator was missed. */
  lemma {:induction false} PartsSplitNoFurther(s: string, sep: string, k: nat)
    requires sep != "" && k < |Split(s, sep)|
    ensures Split(Split(s, sep)[k], sep) == [Split(s, sep)[k]]
    decreases k
  {
    FirstPartIsWhole(s, 0, 0, sep);
    if k > 0 {
      var rest := AfterFirstCut(s, "", 0, 0, sep);
      PartsSplitNoFurther(rest, sep, k - 1);
    }
  }

  /** The text behind the first separator is what the other parts come from. */
  lemma {:induction false} AfterFirstCut(s: string, head: string, link: nat, tmpl: nat, sep: string)
    returns (rest: string)
    requires sep != "" && |Parts(s, head, link, tmpl, sep)| > 1
    ensures Parts(s, head, link, tmpl, sep)[1..] == Split(rest, sep)
    decreases |s|
  {
    var t := NextToken(s, link, tmpl, sep);
    if t.cut {
      rest := s[t.width..];
    } else {
      rest := AfterFirstCut(s[t.width..], head + s[..t.width], t.link, t.tmpl, sep);
    }
  }

  // -------------------------------------------- cells put together and split

  /** The depths of open links and templates at the end of s. */
  function Depths(s: string, link: nat, tmpl: nat, sep: string): (nat, nat)
    requires sep != ""
    decreases |s|
  {
    if s == "" then (link, tmpl)
    else var t := NextToken(s, link, tmpl, sep); Depths(s[t.width..], t.link, t.tmpl, sep)
  }

  /** A cell that can stand between separators: its own markup is closed, it
      holds no separator outside markup, and it does not end in the separator's
      character. */
  ghost predicate Cell(p: string, c: char) {
    var sep := [c, c];
    && Parts(p, "", 0, 0, sep) == [p]
    && Depths(p, 0, 0, sep) == (0, 0)
    && (p != "" ==> p[|p| - 1] != c)
  }

  lemma {:induction false} CellThenSeparator(p: string, tail: string, head: string, link: nat, tmpl: nat, c: char)
    requires c !in "[]{}"
    requires |Parts(p, head, link, tmpl, [c, c])| == 1
    requires Depths(p, link, tmpl, [c, c]) == (0, 0)
    requires p != "" ==> p[|p| - 1] != c
    ensures Parts(p + [c, c] + tail, head, link, tmpl, [c, c]) == [head + p] + Split(tail, [c, c])
    decreases |p|
  {
    var sep := [c, c];
    var s := p + sep + tail;
    if p == "" {
      assert s == sep + tail;
      assert s[0] == c && s[1] == c && s[..2] == sep && s[2..] == tail;
      assert head + p == head;
    } else {
      var t := NextToken(p, link, tmpl, sep);
      assert NextToken(s, link, tmpl, sep) == t by {
        assert p == s[..|p|];
        LookaheadStopsAtSeparator(p, s, "[[");
        LookaheadStopsAtSeparator(p, s, "]]");
        LookaheadStopsAtSeparator(p, s, "{{");
        LookaheadStopsAtSeparator(p, s, "}}");
        LookaheadStopsAtSeparator(p, s, sep);
      }
      assert !t.cut;
      assert s[t.width..] == p[t.width..] + sep + tail;
      assert s[..t.width] == p[..t.width];
      CellThenSeparator(p[t.width..], tail, head + p[..t.width], t.link, t.tmpl, c);
      assert head + p[..t.width] + p[t.width..] == head + p;
    }
  }

  lemma LookaheadStopsAtSeparator(p: string, s: string, two: string)
    requires 0 < |p| < |s| && p == s[..|p|] && |two| == 2 && two[0] == two[1]
    requires p[|p| - 1] == two[0] ==> s[|p|] != two[0]
    ensures HasPrefix(s, two) == HasPrefix(p, two)
  {
  }

  /** Round trip: cells joined into a line come back as the same cells. */
  lemma {:induction false} SplitUndoesJoin(cells: seq<string>, c: char)
    requires c !in "[]{}"
    requires cells != [] && forall k :: 0 <= k < |cells| ==> Cell(cells[k], c)
    ensures Split(Join(cells, [c, c]), [c, c]) == cells
    decreases |cells|
  {
    if |cells| > 1 {
      SplitUndoesJoin(cells[1..], c);
      CellThenSeparator(cells[0], Join(cells[1..], [c, c]), "", 0, 0, c);
      assert "" + cells[0] == cells[0];
      assert [cells[0]] + cells[1..] == cells;
    }
  }

  // -------------------------------------------------------------- parseTable

  type Row = seq<string>

  datatype Mark = Open | Close | Break | Caption | Data | Blank | Other

  function MarkOf(line: string): Mark {
    if HasPrefix(line, "{|") then Open
    else if HasPrefix(line, "|}") then Close
    else if HasPrefix(line, "|-") then Break
    else if HasPrefix(line, "|+") then Caption
    else if HasPrefix(line, "|") || HasPrefix(line, "!") then Data
    else if line == "" then Blank
    else Other
  }

  /** The cells packed on one line; content strips a cell's HTML attributes. */
  function Cells(line: string, content: string -> string): Row
    requires line != ""
  {
    var sep := if HasPrefix(line, "!") then "!!" else "||";
    var raw := Split(line[1..], sep);
    seq(|raw|, k requires 0 <= k < |raw| => content(raw[k]))
  }

  function After(level: int, line: string): int {
    match MarkOf(line)
    case Open => level + 1
    case Close => level - 1
    case _ => level
  }

  /** How many tables are open when line i of the table at start is read. */
  function Level(lines: seq<string>, start: nat, i: nat): int
    requires start < i <= |lines|
    decreases i
  {
    if i == start + 1 then 1 else After(Level(lines, start, i - 1), lines[i - 1])
  }

  /** Line e holds the marker that closes the table opened at start. */
  ghost predicate ClosesAt(lines: seq<string>, start: nat, e: nat) {
    && start < e < |lines|
    && Level(lines, start, e + 1) == 0
    && StillOpen(lines, start, e)
  }

  /** No line before i closes the table. */
  ghost predicate StillOpen(lines: seq<string>, start: nat, i: nat)
    requires start < i <= |lines|
  {
    forall j :: start < j <= i ==> Level(lines, start, j) >= 1
  }

  lemma NeverCloses(lines: seq<string>, start: nat)
    requires start < |lines| && StillOpen(lines, start, |lines|)
    ensures forall e: nat :: !ClosesAt(lines, start, e)
  {
  }

  lemma ClosesOnce(lines: seq<string>, start: nat, e: nat, f: nat)
    requires ClosesAt(lines, start, e) && ClosesAt(lines, start, f)
    ensures e == f
  {
  }

  /** A line that continues the cell above it, if there is one. */
  function Continued(row: Row, line: string): Row {
    if row == [] then row else row[|row| - 1 := row[|row| - 1] + "\n" + line]
  }

  /** The rows finished so far, and the row being filled. */
  datatype Reading = Reading(done: seq<Row>, current: Row) {
    function Flush(): Reading {
      if current == [] then this else Reading(done + [current], [])
    }

    function Take(line: string, level: int, content: string -> string): Reading {
      if MarkOf(line).Open? || MarkOf(line).Close? || level > 1 then Reading(done, Continued(current, line))
      else if MarkOf(line).Break? then Flush()
      else if MarkOf(line).Data? then Reading(done, current + Cells(line, content))
      else if MarkOf(line).Other? then Reading(done, Continued(current, line))
      else this
    }

    /** The same line, seen by a reader that looks at the outermost table only. */
    function TakeOutline(line: string, level: int, content: string -> string): Reading {
      if level > 1 then this
      else if MarkOf(line).Break? then Flush()
      else if MarkOf(line).Data? then Reading(done, current + Cells(line, content))
      else this
    }
  }

  /** What the lines between start and i read as. */
  function Read(lines: seq<string>, content: string -> string, start: nat, i: nat): Reading
    requires start < i <= |lines|
    decreases i
  {
    if i == start + 1 then Reading([], [])
    else Read(lines, content, start, i - 1).Take(lines[i - 1], Level(lines, start, i - 1), content)
  }

  /** The headers and rows a reading comes to. */
  predicate Yields(read: Reading, headers: Row, rows: seq<Row>) {
    var done := read.Flush().done;
    if done == [] then headers == [] && rows == [] else headers == done[0] && rows == done[1..]
  }

  /** The table put together so far: the header row, once there is one, and the
      data rows. */
  function Finished(headerDone: bool, headers: Row, rows: seq<Row>): seq<Row> {
    if headerDone then [headers] + rows else []
  }

  /** Files the current row: the first one filed is the header row. */
  method FlushRow(headerDone: bool, headers: Row, rows: seq<Row>, current: Row)
    returns (headerDone': bool, headers': Row, rows': seq<Row>, current': Row)
    requires !headerDone ==> headers == [] && rows == []
    ensures !headerDone' ==> headers' == [] && rows' == []
    ensures Reading(Finished(headerDone', headers', rows'), current')
         == Reading(Finished(headerDone, headers, rows), current).Flush()
  {
    headerDone', headers', rows', current' := headerDone, headers, rows, [];
    if |current| == 0 {
      return;
    }
    if !headerDone {
      headers' := current;
      headerDone' := true;
      assert rows' == [];
    } else {
      rows' := rows + [current];
    }
  }

  /** The table runs to its closing line, or to the last line when it has none, and
      the headers and rows are what the lines up to there come to. */
  ghost predicate Parsed(lines: seq<string>, content: string -> string, start: nat, rows: seq<Row>, headers: Row, end: nat) {
    && start <= end < |lines|
    && (ClosesAt(lines, start, end) || (end == |lines| - 1 && forall e: nat :: !ClosesAt(lines, start, e)))
    && Yields(Read(lines, content, start, if ClosesAt(lines, start, end) then end else |lines|), headers, rows)
  }

  method ParseTable(lines: seq<string>, content: string -> string, start: nat)
    returns (rows: seq<Row>, headers: Row, end: nat)
    requires start < |lines|
    ensures Parsed(lines, content, start, rows, headers, end)
  {
    rows, headers := [], [];
    var current: Row := [];
    var headerDone := false;
    var depth := 1;
    var i := start + 1;
    while i < |lines|
      invariant start < i <= |lines|
      invariant depth == Level(lines, start, i)
      invariant StillOpen(lines, start, i)
      invariant Read(lines, content, start, i) == Reading(Finished(headerDone, headers, rows), current)
      invariant !headerDone ==> headers == [] && rows == []
    {
      var line := lines[i];
      ghost var was := Read(lines, content, start, i);
      ghost var next := was.Take(line, depth, content);
      assert Level(lines, start, i + 1) == After(depth, line) && Read(lines, content, start, i + 1) == next;
      if HasPrefix(line, "{|") {
        depth := depth + 1;
        current := Continued(current, line);
      } else if HasPrefix(line, "|}") {
        depth := depth - 1;
        if depth == 0 {
          headerDone, headers, rows, current := FlushRow(headerDone, headers, rows, current);
          assert ClosesAt(lines, start, i);
          return rows, headers, i;
        }
        current := Continued(current, line);
      } else if depth > 1 {
        current := Continued(current, line);
      } else if HasPrefix(line, "|-") {
        headerDone, headers, rows, current := FlushRow(headerDone, headers, rows, current);
      } else if HasPrefix(line, "|+") {
      } else if HasPrefix(line, "|") || HasPrefix(line, "!") {
        var cells := Cells(line, content);
        current := current + cells;
      } else if line == "" {
      } else {
        current := Continued(current, line);
      }
      i := i + 1;
    }
    NeverCloses(lines, start);
    headerDone, headers, rows, current := FlushRow(headerDone, headers, rows, current);
    end := |lines| - 1;
  }

  /** The rows as the outermost table alone lays them out: nested tables and
      continuation lines are not looked at. */
  function Outline(lines: seq<string>, content: string -> string, start: nat, i: nat): Reading
    requires start < i <= |lines|
    decreases i
  {
    if i == start + 1 then Reading([], [])
    else Outline(lines, content, start, i - 1).TakeOutline(lines[i - 1], Level(lines, start, i - 1), content)
  }

  ghost predicate RowExtends(row: Row, outline: Row) {
    |row| == |outline| && forall c :: 0 <= c < |row| ==> HasPrefix(row[c], outline[c])
  }

  ghost predicate Extends(r: Reading, outline: Reading) {
    && RowExtends(r.current, outline.current)
    && |r.done| == |outline.done|
    && forall k :: 0 <= k < |r.done| ==> RowExtends(r.done[k], outline.done[k])
  }

  lemma TakeExtends(r: Reading, o: Reading, line: string, level: int, content: string -> string)
    requires Extends(r, o) && level >= 1
    requires MarkOf(line).Close? ==> After(level, line) >= 1
    ensures Extends(r.Take(line, level, content), o.TakeOutline(line, level, content))
    ensures Extends(r.Flush(), o.Flush())
  {
  }

  /** A nested table never makes a row or a cell of its own: the table read has
      exactly the rows and cells of the outline, each cell only ever longer. */
  lemma {:induction false} NestedTablesStayInTheirCell(lines: seq<string>, content: string -> string, start: nat,
                                                       i: nat)
    requires start < i <= |lines|
    requires StillOpen(lines, start, i)
    ensures Extends(Read(lines, content, start, i), Outline(lines, content, start, i))
    ensures Extends(Read(lines, content, start, i).Flush(), Outline(lines, content, start, i).Flush())
    decreases i
  {
    if i > start + 1 {
      NestedTablesStayInTheirCell(lines, content, start, i - 1);
      var r, o := Read(lines, content, start, i - 1), Outline(lines, content, start, i - 1);
      assert Level(lines, start, i) >= 1;
      TakeExtends(r, o, lines[i - 1], Level(lines, start, i - 1), content);
    }
    TakeExtends(Read(lines, content, start, i), Outline(lines, content, start, i), "", 1, content);
  }
}
