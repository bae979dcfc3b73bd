/** The exhibitions table as the sweep writes it: internal/postgres/postgres.go,
    SaveExhibitions, and internal/postgres/sweeps.go. A statement is one step on
    the table. Instants are nanoseconds; a date is the instant its day begins. */
module Listings {
  import opened Schedule

  /** Where a row came from; a scrape leaves the column to its default. */
  datatype Source = Scraped | Submitted

  datatype Row = Row(title: string, site: string, source: Source, starts: Option<int>, ends: Option<int>,
                     permanent: bool,
                     firstSeen: int, lastSeen: int, retired: Option<int>)

  /** What a read found; key stands for the host rule that names a page's site. */
  datatype Found = Found(url: string, title: string, sourcePage: string, starts: Option<int>, ends: Option<int>,
                         permanent: bool, at: int)

  /** Listings by their URL. */
  type Table = map<string, Row>

  predicate IsSpace(c: char) {
    || '\t' <= c <= '\r' || c == ' ' || c == '\U{0085}' || c == '\U{00A0}' || c == '\U{1680}'
    || '\U{2000}' <= c <= '\U{200A}' || c == '\U{2028}' || c == '\U{2029}' || c == '\U{202F}' || c == '\U{205F}' || c == '\U{3000}'
  }

  predicate Blank(s: string) {
    forall i :: 0 <= i < |s| ==> IsSpace(s[i])
  }

  function SiteOf(key: string -> string, f: Found): string {
    if key(f.sourcePage) != "" then key(f.sourcePage) else key(f.url)
  }

  function Upserted(key: string -> string, t: Table, f: Found): Table {
    var row :=
      if f.url in t then
        var was := t[f.url];
        Row(f.title, SiteOf(key, f), was.source, f.starts, f.ends, f.permanent,
            Least(was.firstSeen, f.at), Greatest(was.lastSeen, f.at), None)
      else
        Row(f.title, SiteOf(key, f), Scraped, f.starts, f.ends, f.permanent, f.at, f.at, None);
    t[f.url := row]
  }

  /** The rows sent: those whose URL is not blank. */
  function Sent(found: seq<Found>): seq<Found> {
    if found == [] then []
    else
      var last := found[|found| - 1];
      Sent(found[..|found| - 1]) + if Blank(last.url) then [] else [last]
  }

  /** The rows written one after another, but for those the database rejects. */
  function Saved(key: string -> string, t: Table, rows: seq<Found>, rejected: set<nat>): Table {
    if rows == [] then t
    else
      var n := |rows| - 1;
      var before := Saved(key, t, rows[..n], rejected);
      if n in rejected then before else Upserted(key, before, rows[n])
  }

  /** The places of the rows the database takes. */
  function AcceptedRows(rows: seq<Found>, rejected: set<nat>): set<nat> {
    set k: nat | k < |rows| && k !in rejected
  }

  predicate Unseen(row: Row, site: string, from: int) {
    row.site == site && row.source == Scraped && row.retired == None && row.lastSeen < from
  }

  function Retired(t: Table, site: string, from: int): Table {
    map u | u in t :: if Unseen(t[u], site, from) then t[u].(retired := Some(from)) else t[u]
  }

  function Touched(t: Table, site: string, now: int): Table {
    map u | u in t :: if t[u].site == site && t[u].retired == None then t[u].(lastSeen := now) else t[u]
  }

  /** A live, dated listing of the site closes at that instant. */
  ghost predicate EndsAt(t: Table, site: string, at: int) {
    exists u :: u in t && ClosingRow(t[u], site) && t[u].ends == Some(at)
  }

  predicate ClosingRow(row: Row, site: string) {
    row.site == site && row.retired == None && !row.permanent && row.ends.Some?
  }

  ghost predicate IsSoonest(t: Table, site: string, at: int) {
    EndsAt(t, site, at) && forall u :: u in t && ClosingRow(t[u], site) ==> at <= t[u].ends.value
  }

  ghost function Soonest(t: Table, site: string): Option<int> {
    if exists at :: IsSoonest(t, site, at) then
      var at :| IsSoonest(t, site, at);
      Some(at)
    else None
  }

  class ListingTable {
    const key: string -> string
    var rows: Table

    constructor (key: string -> string)
      ensures this.key == key && rows == map[]
    {
      this.key := key;
      rows := map[];
    }

    /** The rows go as one transaction; when that fails they are sent again, one by
        one, and those refused are left out. */
    method SaveExhibitions(found: seq<Found>, batchFails: bool, rejected: set<nat>) returns (written: nat)
      modifies this`rows
      ensures rows == Saved(key, old(rows), Sent(found), if batchFails then rejected else {})
      ensures written == |AcceptedRows(Sent(found), if batchFails then rejected else {})|
    {
      var queries: seq<Found> := [];
      for i := 0 to |found|
        invariant queries == Sent(found[..i])
      {
        assert found[..i + 1][..i] == found[..i];
        if !Blank(found[i].url) {
          queries := queries + [found[i]];
        }
      }
      assert found[..|found|] == found;
      if queries == [] {
        return 0;
      }

      var trial := WriteRows(queries, {});
      if !batchFails {
        rows := trial;
        written := Accepted(queries, {});
        return;
      }
      rows := WriteRows(queries, rejected);
      written := Accepted(queries, rejected);
    }

    method WriteRows(queries: seq<Found>, rejected: set<nat>) returns (t: Table)
      ensures t == Saved(key, rows, queries, rejected)
    {
      t := rows;
      for i := 0 to |queries|
        invariant t == Saved(key, rows, queries[..i], rejected)
      {
        assert queries[..i + 1][..i] == queries[..i];
        if i !in rejected {
          t := Upserted(key, t, queries[i]);
        }
      }
      assert queries[..|queries|] == queries;
    }

    method Accepted(queries: seq<Found>, rejected: set<nat>) returns (n: nat)
      ensures n == |AcceptedRows(queries, rejected)|
    {
      n := 0;
      for i := 0 to |queries|
        invariant n == |AcceptedRows(queries[..i], rejected)|
      {
        var before, after := AcceptedRows(queries[..i], rejected), AcceptedRows(queries[..i + 1], rejected);
        assert after == if i in rejected then before else before + {i};
        if i !in rejected {
          n := n + 1;
        }
      }
      assert queries[..|queries|] == queries;
    }

    method RetireUnseen(site: string, from: int) returns (gone: nat)
      modifies this`rows
      ensures rows == Retired(old(rows), site, from)
      ensures rows.Keys == old(rows).Keys
      ensures forall u :: u in rows ==> rows[u] == old(rows)[u].(retired := rows[u].retired)
      ensures forall u :: u in rows ==>
                var was := old(rows)[u];
                rows[u].retired == if was.site == site && was.source == Scraped && was.retired == None && was.lastSeen < from
                                   then Some(from) else was.retired
      ensures gone == |set u | u in old(rows) && Unseen(old(rows)[u], site, from)|
    {
      gone := |set u | u in rows && Unseen(rows[u], site, from)|;
      rows := Retired(rows, site, from);
    }

    method TouchSite(site: string, now: int) returns (touched: nat)
      modifies this`rows
      ensures rows == Touched(old(rows), site, now)
      ensures rows.Keys == old(rows).Keys
      ensures forall u :: u in rows ==> rows[u] == old(rows)[u].(lastSeen := rows[u].lastSeen)
      ensures forall u :: u in rows && rows[u].site == site && rows[u].retired == None ==> rows[u].lastSeen == now
      ensures forall u :: u in rows && !(rows[u].site == site && rows[u].retired == None) ==> rows[u] == old(rows)[u]
      ensures touched == |set u | u in old(rows) && old(rows)[u].site == site && old(rows)[u].retired == None|
    {
      touched := |set u | u in rows && rows[u].site == site && rows[u].retired == None|;
      rows := Touched(rows, site, now);
    }

    method SoonestClose(site: string) returns (soonest: Option<int>)
      ensures soonest == Soonest(rows, site)
      ensures soonest == None <==>
                forall u :: u in rows && rows[u].site == site && rows[u].retired == None && !rows[u].permanent ==> rows[u].ends == None
      ensures soonest.Some? ==>
                && (exists u :: u in rows && rows[u].site == site && rows[u].retired == None && !rows[u].permanent
                                && rows[u].ends == soonest)
                && (forall u :: u in rows && rows[u].site == site && rows[u].retired == None && !rows[u].permanent && rows[u].ends.Some?
                      ==> soonest.value <= rows[u].ends.value)
    {
      soonest := None;
      var left := rows.Keys;
      while left != {}
        invariant left <= rows.Keys
        invariant soonest.Some? ==> EndsAt(rows, site, soonest.value)
        invariant forall u :: u in rows && u !in left && ClosingRow(rows[u], site) ==>
                    soonest.Some? && soonest.value <= rows[u].ends.value
      {
        var u :| u in left;
        left := left - {u};
        if ClosingRow(rows[u], site) && (soonest == None || rows[u].ends.value < soonest.value) {
          soonest := rows[u].ends;
        }
      }
      SoonestIs(rows, site, soonest);
    }
  }

  /** The minimum is found and is the only one. */
  lemma SoonestIs(t: Table, site: string, s: Option<int>)
    requires s.Some? ==> IsSoonest(t, site, s.value)
    requires s == None ==> forall u :: u in t ==> !ClosingRow(t[u], site)
    ensures s == Soonest(t, site)
    ensures s == None <==> forall u :: u in t ==> !ClosingRow(t[u], site)
  {
  }

  // ----------------------------------------------------------- what a save leaves

  /** The k-th row reaches the table, under the URL. */
  predicate Writing(rows: seq<Found>, rejected: set<nat>, u: string, k: int) {
    0 <= k < |rows| && k !in rejected && rows[k].url == u
  }

  ghost predicate Written(rows: seq<Found>, rejected: set<nat>, u: string) {
    exists k :: Writing(rows, rejected, u, k)
  }

  /** The row is live and says what the k-th says, the last of its writings; where
      it came from is as it was. */
  ghost predicate LastWritten(key: string -> string, t: Table, row: Row, rows: seq<Found>, rejected: set<nat>,
                              u: string, k: int) {
    && Writing(rows, rejected, u, k)
    && (forall j :: j > k ==> !Writing(rows, rejected, u, j))
    && row == Row(rows[k].title, if key(rows[k].sourcePage) != "" then key(rows[k].sourcePage) else key(rows[k].url),
                  if u in t then t[u].source else Scraped, rows[k].starts, rows[k].ends, rows[k].permanent,
                  row.firstSeen, row.lastSeen, None)
  }

  /** The instant is that of a writing, or the one the row had. */
  ghost predicate Attained(rows: seq<Found>, rejected: set<nat>, u: string, at: int, was: Option<int>) {
    was == Some(at) || exists k :: Writing(rows, rejected, u, k) && rows[k].at == at
  }

  /** First seen is the least, last seen the greatest, of the dates it had and the
      dates of its writings. */
  ghost predicate SpansWritings(t: Table, row: Row, rows: seq<Found>, rejected: set<nat>, u: string) {
    && (forall k :: Writing(rows, rejected, u, k) ==> row.firstSeen <= rows[k].at <= row.lastSeen)
    && (u in t ==> row.firstSeen <= t[u].firstSeen && t[u].lastSeen <= row.lastSeen)
    && Attained(rows, rejected, u, row.firstSeen, if u in t then Some(t[u].firstSeen) else None)
    && Attained(rows, rejected, u, row.lastSeen, if u in t then Some(t[u].lastSeen) else None)
  }

  lemma WritingPrefix(rows: seq<Found>, rejected: set<nat>, u: string, k: int)
    requires rows != []
    ensures Writing(rows, rejected, u, k) <==>
              Writing(rows[..|rows| - 1], rejected, u, k)
              || (k == |rows| - 1 && k !in rejected && rows[|rows| - 1].url == u)
  {
  }

  lemma {:induction false} SavedLeavesAlone(key: string -> string, t: Table, rows: seq<Found>, rejected: set<nat>,
                                            u: string)
    requires !Written(rows, rejected, u)
    ensures u in Saved(key, t, rows, rejected) <==> u in t
    ensures u in t ==> Saved(key, t, rows, rejected)[u] == t[u]
  {
    if rows != [] {
      var n := |rows| - 1;
      forall k ensures !Writing(rows[..n], rejected, u, k) {
        WritingPrefix(rows, rejected, u, k);
      }
      assert !Writing(rows, rejected, u, n);
      SavedLeavesAlone(key, t, rows[..n], rejected, u);
    }
  }

  lemma {:induction false} SavedWrites(key: string -> string, t: Table, rows: seq<Found>, rejected: set<nat>,
                                       u: string) returns (k: int)
    requires Written(rows, rejected, u)
    ensures u in Saved(key, t, rows, rejected)
    ensures LastWritten(key, t, Saved(key, t, rows, rejected)[u], rows, rejected, u, k)
    ensures SpansWritings(t, Saved(key, t, rows, rejected)[u], rows, rejected, u)
  {
    var n := |rows| - 1;
    var front := rows[..n];
    var before, after := Saved(key, t, front, rejected), Saved(key, t, rows, rejected);
    forall j ensures Writing(rows, rejected, u, j) <==> Writing(front, rejected, u, j) || (j == n && Writing(rows, rejected, u, n)) {
      WritingPrefix(rows, rejected, u, j);
    }
    if Written(front, rejected, u) {
      k := SavedWrites(key, t, front, rejected, u);
      AttainedEarlier(front, rows, rejected, u, before[u].firstSeen, if u in t then Some(t[u].firstSeen) else None);
      AttainedEarlier(front, rows, rejected, u, before[u].lastSeen, if u in t then Some(t[u].lastSeen) else None);
    } else {
      SavedLeavesAlone(key, t, front, rejected, u);
    }
    if Writing(rows, rejected, u, n) {
      k := n;
    }
  }

  lemma AttainedEarlier(front: seq<Found>, rows: seq<Found>, rejected: set<nat>, u: string, at: int, was: Option<int>)
    requires front <= rows && Attained(front, rejected, u, at, was)
    ensures Attained(rows, rejected, u, at, was)
  {
  }

  /** What is sent is what was found under a URL that is not blank, in order. */
  lemma {:induction false} SentFound(found: seq<Found>, f: Found)
    ensures f in Sent(found) <==> f in found && !Blank(f.url)
  {
    if found != [] {
      var n := |found| - 1;
      SentFound(found[..n], f);
      assert found == found[..n] + [found[n]];
    }
  }

  // -------------------------------------------------------------------- the dates

  /** Every row was first seen no later than last, and last before the instant. */
  ghost predicate Sound(t: Table, now: int) {
    forall u :: u in t ==> t[u].firstSeen <= t[u].lastSeen <= now
  }

  lemma {:induction false} SavedIsSound(key: string -> string, t: Table, rows: seq<Found>, rejected: set<nat>, now: int)
    requires Sound(t, now) && forall k :: 0 <= k < |rows| ==> rows[k].at <= now
    ensures Sound(Saved(key, t, rows, rejected), now)
  {
    var t' := Saved(key, t, rows, rejected);
    forall u | u in t' ensures t'[u].firstSeen <= t'[u].lastSeen <= now {
      if Written(rows, rejected, u) {
        var k := SavedWrites(key, t, rows, rejected, u);
      } else {
        SavedLeavesAlone(key, t, rows, rejected, u);
      }
    }
  }

  /** Marking a site current keeps every row's two dates in order exactly when no
      live row of it was first seen later: a read that overlaps one that finds
      something new, and began before it, puts them out of order. */
  lemma TouchKeepsOrderIff(t: Table, site: string, now: int)
    requires forall u :: u in t ==> t[u].firstSeen <= t[u].lastSeen
    ensures (forall u :: u in Touched(t, site, now) ==> Touched(t, site, now)[u].firstSeen <= Touched(t, site, now)[u].lastSeen)
            <==> forall u :: u in t && t[u].site == site && t[u].retired == None ==> t[u].firstSeen <= now
  {
    var t' := Touched(t, site, now);
    forall u | u in t ensures u in t' && t'[u].firstSeen == t[u].firstSeen {
    }
  }
}
