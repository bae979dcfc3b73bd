/** pkg/wikipedia/wikitext.go: removal of nested templates from wikitext. */
module Wikitext {

  predicate OpensTemplate(s: string) {
    |s| >= 2 && s[0] == '{' && s[1] == '{'
  }

  predicate ClosesTemplate(s: string) {
    |s| >= 2 && s[0] == '}' && s[1] == '}'
  }

  /** What one scan of s leaves behind when it starts inside depth templates,
      and how many templates are still open at the end. */
  datatype Residue = Residue(open: nat, text: string)

  function Scan(s: string, depth: nat): Residue
    decreases |s|
  {
    if s == "" then Residue(depth, "")
    else if OpensTemplate(s) then Scan(s[2..], depth + 1)
    else if ClosesTemplate(s) && depth > 0 then Scan(s[2..], depth - 1)
    else if depth == 0 then
      var rest := Scan(s[1..], 0);
      Residue(rest.open, [s[0]] + rest.text)
    else Scan(s[1..], depth)
  }

  predicate Balanced(s: string) {
    Scan(s, 0).open == 0
  }

  function Stripped(s: string): string {
    if Balanced(s) then Scan(s, 0).text else s
  }

  /** The scanner: one pass with an index, a depth counter and a buffer. */
  method StripTemplates(s: string) returns (r: string)
    ensures r == Stripped(s)
  {
    var b := "";
    var depth := 0;
    var i := 0;
    while i < |s|
      invariant 0 <= i <= |s|
      invariant depth >= 0
      invariant Scan(s, 0) == Residue(Scan(s[i..], depth).open, b + Scan(s[i..], depth).text)
    {
      ghost var rest := s[i..];
      assert rest[1..] == s[i + 1..];
      assert |rest| >= 2 ==> rest[2..] == s[i + 2..];
      if i + 1 < |s| && s[i] == '{' && s[i + 1] == '{' {
        depth := depth + 1;
        i := i + 1;
      } else if i + 1 < |s| && s[i] == '}' && s[i + 1] == '}' && depth > 0 {
        depth := depth - 1;
        i := i + 1;
      } else if depth == 0 {
        b := b + [s[i]];
      }
      i := i + 1;
    }
    if depth != 0 {
      return s;
    }
    return b;
  }

  // ---------------------------------------------------------------- meaning

  /** No template opener anywhere in s. */
  ghost predicate FreeOfTemplates(s: string) {
    forall i :: 0 <= i < |s| ==> !OpensTemplate(s[i..])
  }

  ghost predicate Subsequence(a: string, b: string)
    decreases |b|
  {
    a == "" || (b != "" && (Subsequence(a, b[1..]) || (a[0] == b[0] && Subsequence(a[1..], b[1..]))))
  }

  lemma {:induction false} ScanLeavesNoOpener(s: string, depth: nat)
    ensures FreeOfTemplates(Scan(s, depth).text)
    decreases |s|
  {
    if s == "" {
    } else if OpensTemplate(s) {
      ScanLeavesNoOpener(s[2..], depth + 1);
    } else if ClosesTemplate(s) && depth > 0 {
      ScanLeavesNoOpener(s[2..], depth - 1);
    } else if depth == 0 {
      ScanLeavesNoOpener(s[1..], 0);
      var rest := Scan(s[1..], 0).text;
      var out := [s[0]] + rest;
      forall i | 0 <= i < |out| ensures !OpensTemplate(out[i..]) {
        if i > 0 {
          assert out[i..] == rest[i - 1..];
        }
      }
    } else {
      ScanLeavesNoOpener(s[1..], depth);
    }
  }

  lemma {:induction false} ScanIsSubsequence(s: string, depth: nat)
    ensures Subsequence(Scan(s, depth).text, s)
    decreases |s|
  {
    if s == "" {
    } else if OpensTemplate(s) {
      ScanIsSubsequence(s[2..], depth + 1);
      assert s[1..][1..] == s[2..];
    } else if ClosesTemplate(s) && depth > 0 {
      ScanIsSubsequence(s[2..], depth - 1);
      assert s[1..][1..] == s[2..];
    } else if depth == 0 {
      ScanIsSubsequence(s[1..], 0);
      var out := Scan(s, 0).text;
      assert out[1..] == Scan(s[1..], 0).text;
    } else {
      ScanIsSubsequence(s[1..], depth);
    }
  }

  lemma {:induction false} WithoutOpenersNothingGoes(s: string)
    requires FreeOfTemplates(s)
    ensures Scan(s, 0) == Residue(0, s)
  {
    if s != "" {
      assert s[0..] == s;
      forall i | 0 <= i < |s[1..]| ensures !OpensTemplate(s[1..][i..]) {
        assert s[1..][i..] == s[i + 1..];
      }
      WithoutOpenersNothingGoes(s[1..]);
      assert [s[0]] + s[1..] == s;
    }
  }

  /** Stripping twice is stripping once, and only ever deletes characters. */
  lemma {:induction false} StripIsIdempotent(s: string)
    ensures Stripped(Stripped(s)) == Stripped(s)
    ensures Subsequence(Stripped(s), s)
  {
    if Balanced(s) {
      ScanLeavesNoOpener(s, 0);
      WithoutOpenersNothingGoes(Stripped(s));
      ScanIsSubsequence(s, 0);
    } else {
      SubsequenceOfItself(s);
    }
  }

  lemma {:induction false} SubsequenceOfItself(s: string)
    ensures Subsequence(s, s)
  {
    if s != "" {
      SubsequenceOfItself(s[1..]);
    }
  }

  /** The output is free of template openers exactly when the braces balanced;
      when they did not, the page comes back untouched. */
  lemma StripRemovesAllOrNothing(s: string)
    ensures FreeOfTemplates(Stripped(s)) <==> Balanced(s)
    ensures !Balanced(s) ==> Stripped(s) == s
  {
    if Balanced(s) {
      ScanLeavesNoOpener(s, 0);
    } else if FreeOfTemplates(s) {
      WithoutOpenersNothingGoes(s);
    }
  }

  // ------------------------------------------------- nesting, as a document

  /** A page as its author meant it: characters and templates, which nest. */
  datatype Doc = End | Character(c: char, rest: Doc) | Template(body: Doc, rest: Doc)

  function Render(d: Doc): string {
    match d
    case End => ""
    case Character(c, rest) => [c] + Render(rest)
    case Template(body, rest) => "{{" + Render(body) + "}}" + Render(rest)
  }

  /** The page with every template cut out whole. */
  function Prose(d: Doc): string {
    match d
    case End => ""
    case Character(c, rest) => [c] + Prose(rest)
    case Template(_, rest) => Prose(rest)
  }

  /** Inside a template the text carries no braces of its own. */
  ghost predicate BraceFree(d: Doc) {
    match d
    case End => true
    case Character(c, rest) => c != '{' && c != '}' && BraceFree(rest)
    case Template(body, rest) => BraceFree(body) && BraceFree(rest)
  }

  /** At top level any character may appear, table syntax included, as long as
      it does not pair up with a neighbour into a template opener. */
  ghost predicate Unambiguous(d: Doc) {
    match d
    case End => true
    case Character(c, rest) =>
      !(c == '{' && |Render(rest)| > 0 && Render(rest)[0] == '{') && Unambiguous(rest)
    case Template(body, rest) => BraceFree(body) && Unambiguous(rest)
  }

  /** A brace-free stretch inside depth templates is skipped as a whole. */
  lemma {:induction false} NestedTextVanishes(d: Doc, tail: string, depth: nat)
    requires BraceFree(d) && depth > 0
    requires tail != "" && tail[0] == '}'
    ensures Scan(Render(d) + tail, depth) == Scan(tail, depth)
    decreases d, 0
  {
    var s := Render(d) + tail;
    match d
    case End =>
      assert s == tail;
    case Character(c, rest) =>
      assert s[1..] == Render(rest) + tail;
      NestedTextVanishes(rest, tail, depth);
    case Template(body, rest) =>
      TemplateVanishes(body, Render(rest) + tail, depth);
      assert s == "{{" + Render(body) + "}}" + (Render(rest) + tail);
      NestedTextVanishes(rest, tail, depth);
  }

  lemma {:induction false} TemplateVanishes(body: Doc, after: string, depth: nat)
    requires BraceFree(body)
    ensures Scan("{{" + Render(body) + "}}" + after, depth) == Scan(after, depth)
    decreases body, 1
  {
    var s := "{{" + Render(body) + "}}" + after;
    var closing := "}}" + after;
    var inner := Render(body) + closing;
    assert s == "{{" + inner;
    assert s[2..] == inner && OpensTemplate(s);
    NestedTextVanishes(body, closing, depth + 1);
    assert closing[2..] == after && ClosesTemplate(closing);
  }

  /** Whatever the nesting, what is left of a well-formed page is its prose. */
  lemma {:induction false} StripCutsTemplatesWhole(d: Doc)
    requires Unambiguous(d)
    ensures Scan(Render(d), 0) == Residue(0, Prose(d))
    ensures Stripped(Render(d)) == Prose(d)
  {
    match d
    case End =>
    case Character(c, rest) =>
      assert Render(d)[1..] == Render(rest);
      StripCutsTemplatesWhole(rest);
    case Template(body, rest) =>
      TemplateVanishes(body, Render(rest), 0);
      StripCutsTemplatesWhole(rest);
  }

  // ---------------------------------------------- when the braces balance

  /** The page reads as its author meant it, with tail after it and depth templates
      around it: no character pairs up with what follows it into a marker. */
  ghost predicate Reads(d: Doc, tail: string, depth: nat) {
    match d
    case End => true
    case Character(c, rest) =>
      && !OpensTemplate([c] + Render(rest) + tail)
      && (depth > 0 ==> !ClosesTemplate([c] + Render(rest) + tail))
      && Reads(rest, tail, depth)
    case Template(body, rest) =>
      Reads(body, "}}" + Render(rest) + tail, depth + 1) && Reads(rest, tail, depth)
  }

  lemma {:induction false} ScanReads(d: Doc, tail: string, depth: nat)
    requires Reads(d, tail, depth)
    ensures var after := Scan(tail, depth);
            Scan(Render(d) + tail, depth) == if depth > 0 then after else Residue(after.open, Prose(d) + after.text)
    decreases d, 0
  {
    var s := Render(d) + tail;
    match d
    case End =>
      assert s == tail;
      assert Prose(d) + Scan(tail, depth).text == Scan(tail, depth).text;
    case Character(c, rest) =>
      assert s == [c] + Render(rest) + tail && s[1..] == Render(rest) + tail;
      ScanReads(rest, tail, depth);
      assert Prose(d) + Scan(tail, depth).text == [c] + (Prose(rest) + Scan(tail, depth).text);
    case Template(body, rest) =>
      var after := Render(rest) + tail;
      Concatenated("}}", Render(rest), tail);
      TemplateReads(body, after, depth);
      assert s == "{{" + Render(body) + "}}" + after;
      ScanReads(rest, tail, depth);
  }

  lemma {:induction false} TemplateReads(body: Doc, after: string, depth: nat)
    requires Reads(body, "}}" + after, depth + 1)
    ensures Scan("{{" + Render(body) + "}}" + after, depth) == Scan(after, depth)
    decreases body, 1
  {
    var s := "{{" + Render(body) + "}}" + after;
    var closing := "}}" + after;
    var inner := Render(body) + closing;
    assert s == "{{" + inner;
    assert s[2..] == inner && OpensTemplate(s);
    ScanReads(body, closing, depth + 1);
    assert closing[2..] == after && ClosesTemplate(closing);
  }

  /** Text read from within templates: what comes before the innermost one closes,
      and then what is outside it. */
  datatype Nest = Outermost(doc: Doc) | Inside(doc: Doc, outer: Nest)

  function DepthOf(n: Nest): nat {
    if n.Outermost? then 0 else 1 + DepthOf(n.outer)
  }

  function Rest(n: Nest): string
    decreases n, 0
  {
    if n.Outermost? then "" else "}}" + Written(n.outer)
  }

  function Written(n: Nest): string
    decreases n, 1
  {
    Render(n.doc) + Rest(n)
  }

  ghost predicate ReadsAll(n: Nest) {
    Reads(n.doc, Rest(n), DepthOf(n)) && (n.Inside? ==> ReadsAll(n.outer))
  }

  lemma Concatenated(a: string, b: string, c: string)
    ensures a + b + c == a + (b + c)
  {
  }

  /** Text that closes all it opens, and depth templates more, can be read. */
  lemma {:induction false} Parse(s: string, depth: nat) returns (n: Nest)
    requires Scan(s, depth).open == 0
    ensures DepthOf(n) == depth && ReadsAll(n) && Written(n) == s
    decreases |s|
  {
    if s == "" {
      n := Outermost(End);
    } else if OpensTemplate(s) {
      var m := Parse(s[2..], depth + 1);
      n := Opened(m);
      assert s == "{{" + s[2..];
    } else if ClosesTemplate(s) && depth > 0 {
      var m := Parse(s[2..], depth - 1);
      n := Inside(End, m);
      assert s == "}}" + s[2..];
    } else {
      var m := Parse(s[1..], depth);
      assert s == [s[0]] + s[1..];
      n := Preceded(s[0], m);
    }
  }

  lemma Opened(m: Nest) returns (n: Nest)
    requires m.Inside? && ReadsAll(m)
    ensures DepthOf(n) == DepthOf(m) - 1 && ReadsAll(n) && Written(n) == "{{" + Written(m)
  {
    var o := m.outer;
    var d := Template(m.doc, o.doc);
    n := if o.Outermost? then Outermost(d) else Inside(d, o.outer);
    assert Rest(n) == Rest(o);
    Concatenated("}}", Render(o.doc), Rest(o));
    assert "{{" + (Render(m.doc) + Rest(m)) == "{{" + Render(m.doc) + "}}" + Render(o.doc) + Rest(n);
  }

  lemma Preceded(c: char, m: Nest) returns (n: Nest)
    requires ReadsAll(m) && !OpensTemplate([c] + Written(m)) && (DepthOf(m) > 0 ==> !ClosesTemplate([c] + Written(m)))
    ensures DepthOf(n) == DepthOf(m) && ReadsAll(n) && Written(n) == [c] + Written(m)
  {
    n := m.(doc := Character(c, m.doc));
    assert Rest(n) == Rest(m);
    Concatenated([c], Render(m.doc), Rest(m));
  }

  /** The braces balance exactly when the text is some page, written out; and then
      what stripping leaves is the prose of that page. When it is the text of none,
      it is given back as it came. */
  lemma {:induction false} BalancedMeans(s: string)
    ensures Balanced(s) <==> exists d :: Reads(d, "", 0) && Render(d) == s
    ensures forall d :: Reads(d, "", 0) && Render(d) == s ==> Stripped(s) == Prose(d)
    ensures (forall d :: Reads(d, "", 0) ==> Render(d) != s) ==> Stripped(s) == s
  {
    if Balanced(s) {
      var n := Parse(s, 0);
      assert Reads(n.doc, "", 0) && Render(n.doc) + "" == Render(n.doc) == s;
    }
    forall d | Reads(d, "", 0) && Render(d) == s ensures Scan(s, 0) == Residue(0, Prose(d)) {
      ScanReads(d, "", 0);
      assert Render(d) + "" == s && Prose(d) + "" == Prose(d);
    }
  }
}
