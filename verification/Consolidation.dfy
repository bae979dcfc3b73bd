/** What a stored museum of internal/collect/merge.go holds: the records filed
    under it, summed up field by field, whatever order they came in. */
module Consolidation {
  import opened Merge
  import opened Clustering
  import Strings

  /** The cleaned records filed under museum i, in order. */
  ghost function Cluster(txt: Text, inputs: seq<Museum>, i: nat): seq<Museum>
    decreases |inputs|
  {
    if inputs == [] then []
    else
      var n := |inputs| - 1;
      Cluster(txt, inputs[..n], i)
      + if Place(txt, After(txt, inputs[..n]), Cleaned(txt, inputs[n])) == i then [Cleaned(txt, inputs[n])] else []
  }

  function Fold(records: seq<Museum>): Museum
    requires records != []
    decreases |records|
  {
    if |records| == 1 then records[0] else Merged(Fold(records[..|records| - 1]), records[|records| - 1])
  }

  lemma {:induction false} FoldOneMore(records: seq<Museum>, m: Museum)
    ensures Fold(records + [m]) == if records == [] then m else Merged(Fold(records), m)
  {
  }

  ghost predicate HoldsFold(ix: Index, i: nat, records: seq<Museum>) {
    if i < |ix.museums| then records != [] && ix.museums[i] == Fold(records) else records == []
  }

  lemma PutKeepsFold(ix: Index, idx: nat, m: Museum, i: nat, records: seq<Museum>)
    requires HoldsFold(ix, i, records) && idx <= |ix.museums|
    ensures HoldsFold(PutAt(ix, idx, Stored(ix, idx, m)), i, records + if idx == i then [m] else [])
  {
    if idx == i {
      FoldOneMore(records, m);
    } else {
      NothingAppended(records);
    }
  }

  /** A stored museum is the fold of the records filed under it, and every stored
      museum has some. */
  lemma {:induction false} StoredIsFold(txt: Text, inputs: seq<Museum>, i: nat)
    ensures HoldsFold(After(txt, inputs), i, Cluster(txt, inputs, i))
    decreases |inputs|
  {
    if inputs != [] {
      var n := |inputs| - 1;
      StoredIsFold(txt, inputs[..n], i);
      var ix, m := After(txt, inputs[..n]), Cleaned(txt, inputs[n]);
      AddedIsValid(txt, ix, m);
      PutKeepsFold(ix, Place(txt, ix, m), m, i, Cluster(txt, inputs[..n], i));
    }
  }

  // ------------------------------------------------------------- field by field

  function NameSet(m: Museum): set<string> {
    (set n | n in m.alsoKnownAs && n != "") + if m.name == "" then {} else {m.name}
  }

  function SourceSet(m: Museum): set<string> {
    set s | s in m.sources
  }

  function ClassSet(m: Museum): set<string> {
    set c | c in m.classes && c != ""
  }

  lemma {:induction false} AddMissingHas(have: seq<string>, extra: seq<string>, skip: set<string>)
    ensures forall x :: x in AddMissing(have, extra, skip) <==> x in have || (x in extra && x !in skip)
    decreases |extra|
  {
    if extra != [] {
      AddMissingHas(have, extra[..|extra| - 1], skip);
      SplitLast(extra);
    }
  }

  lemma MergedNames(d: Museum, s: Museum)
    ensures NameSet(Merged(d, s)) == NameSet(d) + NameSet(s)
  {
    var name := Fill(d.name, s.name);
    var skip := {"", name};
    var all := AddMissing(d.alsoKnownAs, [s.name] + s.alsoKnownAs, skip);
    AddMissingHas(d.alsoKnownAs, [s.name] + s.alsoKnownAs, skip);
    Strings.SortedKeepsMembers(all);
    UnionOfNames(d, s, all, Strings.Sorted(all));
  }

  lemma UnionOfNames(d: Museum, s: Museum, all: seq<string>, sorted: seq<string>)
    requires forall x :: x in all <==> x in d.alsoKnownAs || (x in [s.name] + s.alsoKnownAs && x !in {"", Fill(d.name, s.name)})
    requires forall x :: x in sorted <==> x in all
    ensures (set n | n in sorted && n != "") + (if Fill(d.name, s.name) == "" then {} else {Fill(d.name, s.name)})
         == NameSet(d) + NameSet(s)
  {
  }

  lemma MergedSourcesAndClasses(d: Museum, s: Museum)
    ensures SourceSet(Merged(d, s)) == SourceSet(d) + SourceSet(s)
    ensures ClassSet(Merged(d, s)) == ClassSet(d) + ClassSet(s)
  {
    AddMissingHas(d.sources, s.sources, {});
    Strings.SortedKeepsMembers(AddMissing(d.sources, s.sources, {}));
    AddMissingHas(d.classes, s.classes, {""});
    Strings.SortedKeepsMembers(AddMissing(d.classes, s.classes, {""}));
  }

  /** Everything some record says of a field. */
  ghost function Union(records: seq<Museum>, field: Museum -> set<string>): set<string> {
    set m, x | m in records && x in field(m) :: x
  }

  lemma UnionOneMore(records: seq<Museum>, field: Museum -> set<string>)
    requires records != []
    ensures Union(records, field) == Union(records[..|records| - 1], field) + field(records[|records| - 1])
  {
  }

  /** What a museum says of names, sources and classes is what its records said. */
  lemma {:induction false} FoldUnions(records: seq<Museum>)
    requires records != []
    ensures NameSet(Fold(records)) == Union(records, NameSet)
    ensures SourceSet(Fold(records)) == Union(records, SourceSet)
    ensures ClassSet(Fold(records)) == Union(records, ClassSet)
    decreases |records|
  {
    UnionOneMore(records, NameSet);
    UnionOneMore(records, SourceSet);
    UnionOneMore(records, ClassSet);
    if |records| > 1 {
      var less, last := records[..|records| - 1], records[|records| - 1];
      FoldUnions(less);
      MergedNames(Fold(less), last);
      MergedSourcesAndClasses(Fold(less), last);
    }
  }

  lemma {:induction false} FoldSteps(records: seq<Museum>)
    requires |records| > 1
    ensures var less, last := Fold(records[..|records| - 1]), records[|records| - 1];
            && Fold(records).verified == (less.verified || last.verified)
            && Fold(records).sitelinks == (if last.sitelinks > less.sitelinks then last.sitelinks else less.sitelinks)
  {
  }

  function AnyVerified(records: seq<Museum>): (any: bool)
    ensures any <==> exists k :: 0 <= k < |records| && records[k].verified
    decreases |records|
  {
    records != [] && (records[|records| - 1].verified || AnyVerified(records[..|records| - 1]))
  }

  function MostSitelinks(records: seq<Museum>): (most: int)
    requires records != []
    ensures forall k :: 0 <= k < |records| ==> records[k].sitelinks <= most
    ensures exists k :: 0 <= k < |records| && records[k].sitelinks == most
    decreases |records|
  {
    var last := records[|records| - 1].sitelinks;
    if |records| == 1 then last
    else
      var rest := MostSitelinks(records[..|records| - 1]);
      if last > rest then last else rest
  }

  /** A museum is verified if any record was, and as prominent as the most
      prominent record. */
  lemma {:induction false} FoldVerifiedAndSitelinks(records: seq<Museum>)
    requires records != []
    ensures Fold(records).verified == AnyVerified(records)
    ensures Fold(records).sitelinks == MostSitelinks(records)
    decreases |records|
  {
    if |records| > 1 {
      FoldSteps(records);
      FoldVerifiedAndSitelinks(records[..|records| - 1]);
    }
  }

  /** The country stated last by the source that states countries outright. */
  function LastAuthoritative(records: seq<Museum>): Option<string>
    decreases |records|
  {
    if records == [] then None
    else
      var m := records[|records| - 1];
      if Known(m.country) && "wikidata" in m.sources then Some(m.country)
      else LastAuthoritative(records[..|records| - 1])
  }

  /** The first real country any source gave. */
  function FirstKnown(records: seq<Museum>): Option<string>
    decreases |records|
  {
    if records == [] then None
    else if FirstKnown(records[..|records| - 1]).Some? then FirstKnown(records[..|records| - 1])
    else if Known(records[|records| - 1].country) then Some(records[|records| - 1].country)
    else None
  }

  lemma {:induction false} FoldCountry(records: seq<Museum>)
    requires records != []
    ensures Fold(records).country
         == match LastAuthoritative(records)
            case Some(c) => c
            case None => (match FirstKnown(records) case Some(c) => c case None => records[0].country)
    ensures Known(Fold(records).country) <==> FirstKnown(records).Some?
    ensures LastAuthoritative(records).Some? ==> FirstKnown(records).Some?
    decreases |records|
  {
    if |records| == 1 {
      assert records[..0] == [];
    } else {
      FoldCountry(records[..|records| - 1]);
    }
  }

  /** The fields that only ever have a gap filled. */
  function Said(m: Museum): seq<string> {
    [m.name, m.locality, m.description, m.wikipediaURL, m.wikidataID, m.website, m.sourcePage]
  }

  /** What the first record with anything to say of the field says. */
  ghost function FirstSaid(records: seq<Museum>, f: nat): (said: string)
    requires f < 7
    ensures said == "" <==> forall k :: 0 <= k < |records| ==> Said(records[k])[f] == ""
    ensures said != "" ==> exists k :: 0 <= k < |records| && Said(records[k])[f] == said
                                       && forall j :: 0 <= j < k ==> Said(records[j])[f] == ""
    decreases |records|
  {
    if records == [] then ""
    else
      var n := |records| - 1;
      var before := FirstSaid(records[..n], f);
      if before != "" then
        var k :| 0 <= k < n && Said(records[..n][k])[f] == before && forall j :: 0 <= j < k ==> Said(records[..n][j])[f] == "";
        assert Said(records[k])[f] == before && forall j :: 0 <= j < k ==> records[j] == records[..n][j];
        before
      else
        assert forall j :: 0 <= j < n ==> records[j] == records[..n][j];
        Said(records[n])[f]
  }

  lemma SaidOnceMerged(d: Museum, s: Museum, f: nat)
    requires f < 7
    ensures Said(Merged(d, s))[f] == if Said(d)[f] == "" then Said(s)[f] else Said(d)[f]
  {
  }

  /** A museum keeps the first answer any record gave to each of these. */
  lemma {:induction false} FoldKeepsFirst(records: seq<Museum>, f: nat)
    requires records != [] && f < 7
    ensures Said(Fold(records))[f] == FirstSaid(records, f)
    decreases |records|
  {
    var n := |records| - 1;
    if n == 0 {
      assert records[..0] == [];
    } else {
      FoldKeepsFirst(records[..n], f);
      SaidOnceMerged(Fold(records[..n]), records[n], f);
    }
  }

  function FirstPage(records: seq<Museum>): int {
    if records == [] then 0 else if records[0].pageID != 0 then records[0].pageID else FirstPage(records[1..])
  }

  /** The position of the first record that has one; neither coordinate is ever taken
      without the other. */
  function FirstPosition(records: seq<Museum>): (real, real) {
    if records == [] then (0.0, 0.0)
    else if records[0].latitude != 0.0 || records[0].longitude != 0.0 then (records[0].latitude, records[0].longitude)
    else FirstPosition(records[1..])
  }

  lemma {:induction false} FirstOfMore(records: seq<Museum>, m: Museum)
    ensures FirstPage(records + [m]) == if FirstPage(records) != 0 then FirstPage(records) else m.pageID
    ensures FirstPosition(records + [m])
         == if FirstPosition(records) != (0.0, 0.0) then FirstPosition(records) else (m.latitude, m.longitude)
  {
    if records == [] {
      assert records + [m] == [m] && [m][1..] == [];
    } else {
      assert (records + [m])[1..] == records[1..] + [m];
      FirstOfMore(records[1..], m);
    }
  }

  lemma PlacedOnceMerged(d: Museum, s: Museum)
    ensures Merged(d, s).pageID == if d.pageID != 0 then d.pageID else s.pageID
    ensures var m := Merged(d, s);
            (m.latitude, m.longitude)
            == if (d.latitude, d.longitude) != (0.0, 0.0) then (d.latitude, d.longitude) else (s.latitude, s.longitude)
  {
  }

  lemma {:induction false} FoldKeepsFirstPlace(records: seq<Museum>)
    requires records != []
    ensures Fold(records).pageID == FirstPage(records)
    ensures (Fold(records).latitude, Fold(records).longitude) == FirstPosition(records)
    decreases |records|
  {
    var n := |records| - 1;
    SplitLast(records);
    FirstOfMore(records[..n], records[n]);
    if n == 0 {
      assert records[..0] == [];
    } else {
      FoldKeepsFirstPlace(records[..n]);
      PlacedOnceMerged(Fold(records[..n]), records[n]);
    }
  }

  lemma CleanedNames(txt: Text, m: Museum, n: string)
    ensures n in NameSet(Cleaned(txt, m))
       <==> n != "" && exists raw :: raw in [m.name] + m.alsoKnownAs && txt.clean(raw) == n
  {
    var c := Cleaned(txt, m);
    if n in c.alsoKnownAs {
      var k :| 0 <= k < |c.alsoKnownAs| && c.alsoKnownAs[k] == n;
      assert m.alsoKnownAs[k] in [m.name] + m.alsoKnownAs;
    }
    if n == c.name {
      assert m.name in [m.name] + m.alsoKnownAs;
    }
    if exists raw :: raw in [m.name] + m.alsoKnownAs && txt.clean(raw) == n {
      var raw :| raw in [m.name] + m.alsoKnownAs && txt.clean(raw) == n;
      if raw in m.alsoKnownAs {
        var k :| 0 <= k < |m.alsoKnownAs| && m.alsoKnownAs[k] == raw;
        assert c.alsoKnownAs[k] == n;
      }
    }
  }

  /** A stored museum goes by exactly the names, cleaned, that the records filed under
      it came with. */
  lemma {:induction false} StoredNamesAreCleaned(txt: Text, inputs: seq<Museum>, i: nat, n: string)
    requires i < |After(txt, inputs).museums|
    ensures n in NameSet(After(txt, inputs).museums[i])
       <==> n != "" && exists k, raw :: 0 <= k < |inputs| && Places(txt, inputs)[k] == i
                                        && raw in [inputs[k].name] + inputs[k].alsoKnownAs && txt.clean(raw) == n
  {
    var records := Cluster(txt, inputs, i);
    StoredIsFold(txt, inputs, i);
    FoldUnions(records);
    if n in Union(records, NameSet) {
      var r :| r in records && n in NameSet(r);
      ClusterMembers(txt, inputs, i, r);
      var k :| 0 <= k < |inputs| && Cleaned(txt, inputs[k]) == r && Places(txt, inputs)[k] == i;
      CleanedNames(txt, inputs[k], n);
    }
    forall k, raw | n != "" && 0 <= k < |inputs| && Places(txt, inputs)[k] == i
                    && raw in [inputs[k].name] + inputs[k].alsoKnownAs && txt.clean(raw) == n
      ensures n in Union(records, NameSet)
    {
      CleanedNames(txt, inputs[k], n);
      ClusterHolds(txt, inputs, k);
    }
  }

  // -------------------------------------------------- arrival order, with ids

  ghost predicate AllHaveIds(inputs: seq<Museum>) {
    forall k :: 0 <= k < |inputs| ==> inputs[k].wikidataID != ""
  }

  /** With ids everywhere, a museum's records are those that carry its id. */
  lemma {:induction false} ClusterIsById(txt: Text, inputs: seq<Museum>, i: nat, r: Museum)
    requires AllHaveIds(inputs) && i < |After(txt, inputs).museums|
    ensures After(txt, inputs).museums[i].wikidataID != ""
    ensures r in Cluster(txt, inputs, i)
       <==> exists k :: 0 <= k < |inputs| && Cleaned(txt, inputs[k]) == r && r.wikidataID == After(txt, inputs).museums[i].wikidataID
  {
    ClusterMembers(txt, inputs, i, r);
    IdsStayIndexed(txt, inputs);
    RecordsStayFiled(txt, inputs);
    StoredHasRecord(txt, inputs, i);
    var ix, places := After(txt, inputs), Places(txt, inputs);
    forall k | 0 <= k < |inputs|
      ensures places[k] == i <==> inputs[k].wikidataID == ix.museums[i].wikidataID
    {
      assert places[k] < |ix.museums| && ix.museums[places[k]].wikidataID == inputs[k].wikidataID;
    }
  }

  lemma {:induction false} StoredHasRecord(txt: Text, inputs: seq<Museum>, i: nat)
    requires AllHaveIds(inputs) && i < |After(txt, inputs).museums|
    ensures After(txt, inputs).museums[i].wikidataID != ""
  {
    StoredIsFold(txt, inputs, i);
    var r := Cluster(txt, inputs, i)[0];
    assert r in Cluster(txt, inputs, i);
    ClusterMembers(txt, inputs, i, r);
    RecordsStayFiled(txt, inputs);
    var k :| 0 <= k < |inputs| && Cleaned(txt, inputs[k]) == r && Places(txt, inputs)[k] == i;
    assert inputs[k].wikidataID != "";
  }

  lemma {:induction false} ClusterMembers(txt: Text, inputs: seq<Museum>, i: nat, r: Museum)
    ensures r in Cluster(txt, inputs, i)
       <==> exists k :: 0 <= k < |inputs| && Cleaned(txt, inputs[k]) == r && Places(txt, inputs)[k] == i
  {
    if r in Cluster(txt, inputs, i) {
      var k := ClusterComesFrom(txt, inputs, i, r);
    }
    forall k | 0 <= k < |inputs| && Places(txt, inputs)[k] == i ensures Cleaned(txt, inputs[k]) in Cluster(txt, inputs, i) {
      ClusterHolds(txt, inputs, k);
    }
  }

  lemma {:induction false} ClusterComesFrom(txt: Text, inputs: seq<Museum>, i: nat, r: Museum) returns (k: nat)
    requires r in Cluster(txt, inputs, i)
    ensures k < |inputs| && Cleaned(txt, inputs[k]) == r && Places(txt, inputs)[k] == i
    decreases |inputs|
  {
    var less, m, place := LastRecord(txt, inputs);
    if place == i && r == m {
      k := |inputs| - 1;
    } else {
      k := ClusterComesFrom(txt, less, i, r);
    }
  }

  lemma {:induction false} ClusterHolds(txt: Text, inputs: seq<Museum>, k: nat)
    requires k < |inputs|
    ensures Cleaned(txt, inputs[k]) in Cluster(txt, inputs, Places(txt, inputs)[k])
    decreases |inputs|
  {
    var less, m, place := LastRecord(txt, inputs);
    if k < |less| {
      ClusterHolds(txt, less, k);
      assert less[k] == inputs[k] && Places(txt, less)[k] == Places(txt, inputs)[k];
    }
  }

  ghost predicate SameRecords(a: seq<Museum>, b: seq<Museum>) {
    forall m :: m in a <==> m in b
  }

  /** The same records, each with an id, in any order and however often: the same
      ids are stored, and the museum stored for an id says the same. */
  lemma {:induction false} ArrivalOrderDoesNotMatter(txt: Text, a: seq<Museum>, b: seq<Museum>, id: string)
    requires AllHaveIds(a) && AllHaveIds(b) && SameRecords(a, b)
    ensures id in After(txt, a).byWikidata <==> id in After(txt, b).byWikidata
    ensures id in After(txt, a).byWikidata && id in After(txt, b).byWikidata ==>
              var p := After(txt, a).museums[After(txt, a).byWikidata[id]];
              var q := After(txt, b).museums[After(txt, b).byWikidata[id]];
              && NameSet(p) == NameSet(q) && SourceSet(p) == SourceSet(q) && ClassSet(p) == ClassSet(q)
              && p.verified == q.verified && p.sitelinks == q.sitelinks
  {
    IdsStayIndexed(txt, a);
    IdsStayIndexed(txt, b);
    if id in After(txt, a).byWikidata {
      IdIsStored(txt, a, b, id);
    }
    if id in After(txt, b).byWikidata {
      IdIsStored(txt, b, a, id);
    }
    if id in After(txt, a).byWikidata && id in After(txt, b).byWikidata {
      var i, j := After(txt, a).byWikidata[id], After(txt, b).byWikidata[id];
      StoredIsFold(txt, a, i);
      StoredIsFold(txt, b, j);
      forall r ensures r in Cluster(txt, a, i) <==> r in Cluster(txt, b, j) {
        SameMembers(txt, a, b, i, j, r);
        SameMembers(txt, b, a, j, i, r);
      }
      SameFold(Cluster(txt, a, i), Cluster(txt, b, j));
    }
  }

  lemma {:induction false} SameMembers(txt: Text, a: seq<Museum>, b: seq<Museum>, i: nat, j: nat, r: Museum)
    requires AllHaveIds(a) && AllHaveIds(b) && SameRecords(a, b)
    requires i < |After(txt, a).museums| && j < |After(txt, b).museums|
    requires After(txt, a).museums[i].wikidataID == After(txt, b).museums[j].wikidataID
    ensures r in Cluster(txt, a, i) ==> r in Cluster(txt, b, j)
  {
    ClusterIsById(txt, a, i, r);
    ClusterIsById(txt, b, j, r);
    if r in Cluster(txt, a, i) {
      var k :| 0 <= k < |a| && Cleaned(txt, a[k]) == r;
      assert a[k] in b;
      var l :| 0 <= l < |b| && b[l] == a[k];
      assert Cleaned(txt, b[l]) == r;
    }
  }

  lemma {:induction false} IdIsStored(txt: Text, a: seq<Museum>, b: seq<Museum>, id: string)
    requires AllHaveIds(a) && AllHaveIds(b) && SameRecords(a, b)
    requires id in After(txt, a).byWikidata
    ensures id in After(txt, b).byWikidata
  {
    IdsStayIndexed(txt, a);
    IdsStayIndexed(txt, b);
    RecordsStayFiled(txt, b);
    var i := After(txt, a).byWikidata[id];
    StoredIsFold(txt, a, i);
    var r := Cluster(txt, a, i)[0];
    ClusterIsById(txt, a, i, r);
    assert r in Cluster(txt, a, i);
    var k :| 0 <= k < |a| && Cleaned(txt, a[k]) == r && r.wikidataID == id;
    assert a[k] in b;
    var l :| 0 <= l < |b| && b[l] == a[k];
    assert b[l].wikidataID == id && Places(txt, b)[l] < |After(txt, b).museums|;
  }

  lemma {:induction false} SameFold(c: seq<Museum>, d: seq<Museum>)
    requires c != [] && d != [] && forall r :: r in c <==> r in d
    ensures NameSet(Fold(c)) == NameSet(Fold(d)) && SourceSet(Fold(c)) == SourceSet(Fold(d)) && ClassSet(Fold(c)) == ClassSet(Fold(d))
    ensures Fold(c).verified == Fold(d).verified && Fold(c).sitelinks == Fold(d).sitelinks
  {
    FoldUnions(c);
    FoldUnions(d);
    SameUnion(c, d, NameSet);
    SameUnion(c, d, SourceSet);
    SameUnion(c, d, ClassSet);
    FoldVerifiedAndSitelinks(c);
    FoldVerifiedAndSitelinks(d);
    NoLessSaid(c, d);
    NoLessSaid(d, c);
  }

  lemma SameUnion(c: seq<Museum>, d: seq<Museum>, field: Museum -> set<string>)
    requires forall r :: r in c <==> r in d
    ensures Union(c, field) == Union(d, field)
  {
  }

  lemma {:induction false} NoLessSaid(c: seq<Museum>, d: seq<Museum>)
    requires c != [] && d != [] && forall r :: r in c ==> r in d
    ensures AnyVerified(c) ==> AnyVerified(d)
    ensures MostSitelinks(c) <= MostSitelinks(d)
  {
    if AnyVerified(c) {
      var k :| 0 <= k < |c| && c[k].verified;
      assert c[k] in d;
    }
    var most :| 0 <= most < |c| && c[most].sitelinks == MostSitelinks(c);
    assert c[most] in d;
  }

  lemma {:induction false} AllDifferent(ids: seq<string>)
    requires forall i, j :: 0 <= i < j < |ids| ==> ids[i] != ids[j]
    ensures |(set id | id in ids)| == |ids|
    decreases |ids|
  {
    if ids != [] {
      var less, last := ids[..|ids| - 1], ids[|ids| - 1];
      AllDifferent(less);
      assert ids == less + [last];
      assert (set id | id in ids) == (set id | id in less) + {last};
    }
  }

  /** ... and as many museums are stored: one for each id. */
  lemma {:induction false} OneMuseumPerId(txt: Text, inputs: seq<Museum>)
    requires AllHaveIds(inputs)
    ensures |After(txt, inputs).museums| == |After(txt, inputs).byWikidata.Keys|
  {
    var ix := After(txt, inputs);
    IdsStayIndexed(txt, inputs);
    forall i | 0 <= i < |ix.museums| ensures ix.museums[i].wikidataID != "" {
      StoredHasRecord(txt, inputs, i);
    }
    IdsCountMuseums(ix);
  }

  lemma IdsCountMuseums(ix: Index)
    requires Valid(ix) && IdsIndexed(ix)
    requires forall i :: 0 <= i < |ix.museums| ==> ix.museums[i].wikidataID != ""
    ensures |ix.museums| == |ix.byWikidata.Keys|
  {
    var ids := seq(|ix.museums|, i requires 0 <= i < |ix.museums| => ix.museums[i].wikidataID);
    AllDifferent(ids);
    forall id ensures id in ids <==> id in ix.byWikidata {
      if id in ix.byWikidata {
        assert ids[ix.byWikidata[id]] == id;
      }
    }
    assert (set id | id in ids) == ix.byWikidata.Keys;
  }

  lemma {:induction false} ArrivalOrderKeepsTheCount(txt: Text, a: seq<Museum>, b: seq<Museum>)
    requires AllHaveIds(a) && AllHaveIds(b) && SameRecords(a, b)
    ensures |After(txt, a).museums| == |After(txt, b).museums|
  {
    OneMuseumPerId(txt, a);
    OneMuseumPerId(txt, b);
    assert After(txt, a).byWikidata.Keys == After(txt, b).byWikidata.Keys by {
      forall id ensures id in After(txt, a).byWikidata <==> id in After(txt, b).byWikidata {
        ArrivalOrderDoesNotMatter(txt, a, b, id);
      }
    }
  }
}
