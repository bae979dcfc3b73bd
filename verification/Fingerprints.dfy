/** internal/sweep/runner.go, Fingerprint: whether a read found anything different
    from the last one. The digest, and how a date is written, are inputs. */
module Fingerprints {
  import opened Listings
  import opened Schedule
  import Strings

  function Join(parts: seq<string>, sep: char): string {
    if parts == [] then ""
    else if |parts| == 1 then parts[0]
    else parts[0] + [sep] + Join(parts[1..], sep)
  }

  /** How a date is written. */
  function DateText(date: int -> string, d: Option<int>): string {
    if d.Some? then date(d.value) else ""
  }

  function Permanence(f: Found): string {
    if f.permanent then "true" else "false"
  }

  function Fields(date: int -> string, f: Found): seq<string> {
    [f.url, f.title, DateText(date, f.starts), DateText(date, f.ends), Permanence(f)]
  }

  function LineOf(date: int -> string, f: Found): string {
    Join(Fields(date, f), '\0')
  }

  function Lines(date: int -> string, found: seq<Found>): seq<string> {
    seq(|found|, i requires 0 <= i < |found| => LineOf(date, found[i]))
  }

  function FingerprintOf(digest: string -> string, date: int -> string, found: seq<Found>): string {
    digest(Join(Strings.Sorted(Lines(date, found)), '\n'))
  }

  // ------------------------------------------------------------------- exactness

  /** What a listing's line is made from. */
  datatype Entry = Entry(url: string, title: string, starts: Option<int>, ends: Option<int>, permanent: bool)

  function EntryOf(f: Found): Entry {
    Entry(f.url, f.title, f.starts, f.ends, f.permanent)
  }

  function Entries(found: seq<Found>): seq<Entry> {
    seq(|found|, i requires 0 <= i < |found| => EntryOf(found[i]))
  }

  predicate Plain(s: string) {
    '\0' !in s && '\n' !in s
  }

  /** What the scraper yields: a URL that went through a parser which takes no
      control character, and a title on one line. */
  predicate Scrapable(f: Found) {
    Plain(f.url) && '\n' !in f.title
  }

  /** Different dates are written differently, none as nothing, and no date holds a
      separator. */
  ghost predicate Readable(date: int -> string) {
    && (forall d: Option<int>, e: Option<int> :: DateText(date, d) == DateText(date, e) ==> d == e)
    && (forall d: Option<int> :: Plain(DateText(date, d)))
  }

  ghost predicate Injective(digest: string -> string) {
    forall a, b :: digest(a) == digest(b) ==> a == b
  }

  ghost predicate FreeOf(parts: seq<string>, sep: char) {
    forall k :: 0 <= k < |parts| ==> sep !in parts[k]
  }

  lemma HeadsAgree(a: string, b: string, sep: char, r: string, s: string)
    requires sep !in a && sep !in b && a + [sep] + r == b + [sep] + s
    ensures a == b && r == s
  {
    var whole := a + [sep] + r;
    assert whole[|a|] == sep && whole[|b|] == sep;
    assert forall i :: 0 <= i < |a| ==> whole[i] == a[i];
    assert forall i :: 0 <= i < |b| ==> whole[i] == b[i];
    assert a == whole[..|a|] && b == whole[..|b|];
    assert r == whole[|a| + 1..] && s == whole[|b| + 1..];
  }

  lemma {:induction false} JoinHolds(parts: seq<string>, sep: char)
    requires |parts| > 1
    ensures sep in Join(parts, sep)
  {
  }

  /** Joined text determines its parts, when none holds the separator. */
  lemma {:induction false} JoinIsInjective(xs: seq<string>, ys: seq<string>, sep: char)
    requires xs != [] && ys != [] && FreeOf(xs, sep) && FreeOf(ys, sep) && Join(xs, sep) == Join(ys, sep)
    ensures xs == ys
    decreases |xs|
  {
    if |xs| > 1 {
      JoinHolds(xs, sep);
    }
    if |ys| > 1 {
      JoinHolds(ys, sep);
    }
    if |xs| > 1 && |ys| > 1 {
      HeadsAgree(xs[0], ys[0], sep, Join(xs[1..], sep), Join(ys[1..], sep));
      JoinIsInjective(xs[1..], ys[1..], sep);
      assert xs == [xs[0]] + xs[1..] && ys == [ys[0]] + ys[1..];
    }
  }

  lemma TailsAgree(a: string, b: string, sep: char, r: string, s: string)
    requires sep !in r && sep !in s && a + [sep] + r == b + [sep] + s
    ensures a == b && r == s
  {
    var whole := a + [sep] + r;
    assert whole[|a|] == sep && whole[|b|] == sep;
    assert forall j :: |a| < j < |whole| ==> whole[j] == r[j - |a| - 1];
    assert forall j :: |b| < j < |whole| ==> whole[j] == s[j - |b| - 1];
    assert a == whole[..|a|] && b == whole[..|b|];
    assert r == whole[|a| + 1..] && s == whole[|b| + 1..];
  }

  /** A line is its URL, and behind it the title with the other fields after it. */
  lemma LineOfFields(date: int -> string, f: Found)
    ensures LineOf(date, f) == f.url + ['\0'] + Described(date, f)
  {
    var all := Fields(date, f);
    JoinFirst(all);
    JoinFirst(all[1..]);
    JoinFirst(all[2..]);
    JoinFirst(all[3..]);
    assert all[1..][1..] == all[2..] && all[2..][1..] == all[3..] && all[3..][1..] == [all[4]];
    Regrouped(f.title, all[2], all[3], all[4]);
  }

  lemma {:induction false} JoinFirst(parts: seq<string>)
    requires |parts| > 1
    ensures Join(parts, '\0') == parts[0] + ['\0'] + Join(parts[1..], '\0')
  {
  }

  lemma Regrouped(title: string, starts: string, ends: string, permanent: string)
    ensures title + ['\0'] + (starts + ['\0'] + (ends + ['\0'] + permanent))
         == title + ['\0'] + starts + ['\0'] + ends + ['\0'] + permanent
  {
  }

  function Described(date: int -> string, f: Found): string {
    f.title + ['\0'] + DateText(date, f.starts) + ['\0'] + DateText(date, f.ends) + ['\0'] + Permanence(f)
  }

  /** Whatever the title holds, the fields are read off the line from both ends. */
  lemma LineSaysTheEntry(date: int -> string, f: Found, g: Found)
    requires Readable(date) && Scrapable(f) && Scrapable(g)
    ensures LineOf(date, f) == LineOf(date, g) <==> EntryOf(f) == EntryOf(g)
  {
    LineOfFields(date, f);
    LineOfFields(date, g);
    if LineOf(date, f) == LineOf(date, g) {
      HeadsAgree(f.url, g.url, '\0', Described(date, f), Described(date, g));
      DescriptionSaysTheRest(date, f, g);
    }
  }

  lemma DescriptionSaysTheRest(date: int -> string, f: Found, g: Found)
    requires Readable(date) && Described(date, f) == Described(date, g)
    ensures f.title == g.title && f.starts == g.starts && f.ends == g.ends && f.permanent == g.permanent
  {
    var fs, gs := DateText(date, f.starts), DateText(date, g.starts);
    var fe, ge := DateText(date, f.ends), DateText(date, g.ends);
    assert Plain(fs) && Plain(gs) && Plain(fe) && Plain(ge);
    TailsAgree(f.title + ['\0'] + fs + ['\0'] + fe, g.title + ['\0'] + gs + ['\0'] + ge, '\0', Permanence(f), Permanence(g));
    TailsAgree(f.title + ['\0'] + fs, g.title + ['\0'] + gs, '\0', fe, ge);
    TailsAgree(f.title, g.title, '\0', fs, gs);
    assert |"true"| != |"false"|;
  }

  lemma {:induction false} JoinIsPlain(parts: seq<string>, sep: char, c: char)
    requires c != sep && FreeOf(parts, c)
    ensures c !in Join(parts, sep)
  {
    if |parts| > 1 {
      JoinIsPlain(parts[1..], sep, c);
    }
  }

  lemma LinesAreSeparable(date: int -> string, found: seq<Found>)
    requires Readable(date) && forall k :: 0 <= k < |found| ==> Scrapable(found[k])
    ensures FreeOf(Lines(date, found), '\n') && "" !in Lines(date, found)
  {
    forall k | 0 <= k < |found| ensures '\n' !in Lines(date, found)[k] && Lines(date, found)[k] != "" {
      var f := found[k];
      assert Plain(DateText(date, f.starts)) && Plain(DateText(date, f.ends));
      JoinIsPlain(Fields(date, f), '\0', '\n');
      LineOfFields(date, f);
    }
  }

  function Without<T>(all: seq<T>, k: nat): (rest: seq<T>)
    requires k < |all|
    ensures |rest| == |all| - 1
    ensures forall i :: 0 <= i < |rest| ==> rest[i] == all[if i < k then i else i + 1]
  {
    all[..k] + all[k + 1..]
  }

  lemma TakenOut<T>(all: seq<T>, k: nat)
    requires k < |all|
    ensures multiset(all) == multiset(Without(all, k)) + multiset{all[k]}
  {
    assert all == all[..k] + [all[k]] + all[k + 1..];
  }

  ghost predicate Alike<A(!new), B(!new)>(a: seq<A>, a': seq<A>, b: seq<B>, b': seq<B>) {
    && |a| == |b| && |a'| == |b'|
    && forall i, j :: 0 <= i < |a| && 0 <= j < |a'| ==> (a[i] == a'[j] <==> b[i] == b'[j])
  }

  lemma WithoutAlike<A(!new), B(!new)>(a: seq<A>, a': seq<A>, b: seq<B>, b': seq<B>, j: nat)
    requires Alike(a, a', b, b') && a != [] && j < |a'|
    ensures Alike(Without(a, 0), Without(a', j), Without(b, 0), Without(b', j))
  {
  }

  /** Two pairs of sequences whose elements agree alike hold the same elements
      alike. */
  lemma {:induction false} AgreeAlike<A(!new), B(!new)>(a: seq<A>, a': seq<A>, b: seq<B>, b': seq<B>)
    requires Alike(a, a', b, b')
    ensures multiset(a) == multiset(a') <==> multiset(b) == multiset(b')
    decreases |a|
  {
    if a == [] {
      assert |multiset(a')| == |a'| && |multiset(b')| == |b'|;
    } else if exists j :: 0 <= j < |a'| && a[0] == a'[j] {
      var j :| 0 <= j < |a'| && a[0] == a'[j];
      WithoutAlike(a, a', b, b', j);
      AgreeAlike(Without(a, 0), Without(a', j), Without(b, 0), Without(b', j));
      SameButOne(a, a', j);
      SameButOne(b, b', j);
    } else {
      NotAmong(a, a');
      NotAmong(b, b');
    }
  }

  lemma SameButOne<T>(a: seq<T>, a': seq<T>, j: nat)
    requires a != [] && j < |a'| && a[0] == a'[j]
    ensures multiset(a) == multiset(a') <==> multiset(Without(a, 0)) == multiset(Without(a', j))
  {
    TakenOut(a, 0);
    TakenOut(a', j);
    AddedToBoth(multiset(Without(a, 0)), multiset(Without(a', j)), a[0]);
  }

  lemma AddedToBoth<T>(m: multiset<T>, n: multiset<T>, x: T)
    ensures m + multiset{x} == n + multiset{x} <==> m == n
  {
    assert m == (m + multiset{x}) - multiset{x};
    assert n == (n + multiset{x}) - multiset{x};
  }

  lemma NotAmong<T>(a: seq<T>, a': seq<T>)
    requires a != [] && forall j :: 0 <= j < |a'| ==> a[0] != a'[j]
    ensures multiset(a) != multiset(a')
  {
    assert a[0] in multiset(a) && a[0] !in multiset(a');
  }

  lemma LinesSayTheEntries(date: int -> string, xs: seq<Found>, ys: seq<Found>)
    requires Readable(date)
    requires forall k :: 0 <= k < |xs| ==> Scrapable(xs[k])
    requires forall k :: 0 <= k < |ys| ==> Scrapable(ys[k])
    ensures multiset(Lines(date, xs)) == multiset(Lines(date, ys)) <==> multiset(Entries(xs)) == multiset(Entries(ys))
  {
    forall i, j | 0 <= i < |xs| && 0 <= j < |ys|
      ensures Lines(date, xs)[i] == Lines(date, ys)[j] <==> Entries(xs)[i] == Entries(ys)[j]
    {
      LineSaysTheEntry(date, xs[i], ys[j]);
    }
    AgreeAlike(Lines(date, xs), Lines(date, ys), Entries(xs), Entries(ys));
  }

  /** The order of the page is not a change. */
  lemma OrderIsNoChange(digest: string -> string, date: int -> string, xs: seq<Found>, ys: seq<Found>)
    requires multiset(Lines(date, xs)) == multiset(Lines(date, ys))
    ensures FingerprintOf(digest, date, xs) == FingerprintOf(digest, date, ys)
  {
    Strings.SortedIgnoresOrder(Lines(date, xs), Lines(date, ys));
  }

  /** Whether anything changed is an exact question: short of a collision of the
      digest, two reads of what the scraper yields have one fingerprint exactly when
      they found the same listings the same number of times, whatever the order. */
  lemma FingerprintIsExact(digest: string -> string, date: int -> string, xs: seq<Found>, ys: seq<Found>)
    requires Injective(digest) && Readable(date)
    requires forall k :: 0 <= k < |xs| ==> Scrapable(xs[k])
    requires forall k :: 0 <= k < |ys| ==> Scrapable(ys[k])
    ensures FingerprintOf(digest, date, xs) == FingerprintOf(digest, date, ys) <==> multiset(Entries(xs)) == multiset(Entries(ys))
  {
    var ls, ms := Lines(date, xs), Lines(date, ys);
    LinesSayTheEntries(date, xs, ys);
    if multiset(ls) == multiset(ms) {
      OrderIsNoChange(digest, date, xs, ys);
    } else if FingerprintOf(digest, date, xs) == FingerprintOf(digest, date, ys) {
      LinesAreSeparable(date, xs);
      LinesAreSeparable(date, ys);
      SameTextSameLines(ls, ms);
    }
  }

  /** Lines that join to the same text, sorted, are the same lines. */
  lemma {:induction false} SameTextSameLines(ls: seq<string>, ms: seq<string>)
    requires FreeOf(ls, '\n') && FreeOf(ms, '\n') && "" !in ls && "" !in ms
    requires Join(Strings.Sorted(ls), '\n') == Join(Strings.Sorted(ms), '\n')
    ensures multiset(ls) == multiset(ms)
  {
    var a, b := Strings.Sorted(ls), Strings.Sorted(ms);
    Strings.SortedKeepsMembers(ls);
    Strings.SortedKeepsMembers(ms);
    forall k | 0 <= k < |a| ensures '\n' !in a[k] && a[k] != "" {
      assert a[k] in ls;
    }
    forall k | 0 <= k < |b| ensures '\n' !in b[k] && b[k] != "" {
      assert b[k] in ms;
    }
    JoinIsEmptyIff(a);
    JoinIsEmptyIff(b);
    if a != [] && b != [] {
      JoinIsInjective(a, b, '\n');
    }
  }

  lemma {:induction false} JoinIsEmptyIff(parts: seq<string>)
    requires "" !in parts
    ensures Join(parts, '\n') == "" <==> parts == []
  {
  }
}
