/** internal/collect/merge.go: records from several catalogues folded into one
    set of museums, by identity first and by unambiguous name second. */
module Merge {
  import Strings

  datatype Option<T> = None | Some(value: T)

  /** What the text normalisers make of a string: the cleaned form, and the
      letters and digits left for matching. */
  datatype Text = Text(clean: string -> string, normalize: string -> string)

  datatype Museum = Museum(
    name: string, country: string, locality: string, description: string,
    wikipediaURL: string, wikidataID: string, website: string, sourcePage: string,
    pageID: int, sitelinks: int, latitude: real, longitude: real, verified: bool,
    alsoKnownAs: seq<string>, sources: seq<string>, classes: seq<string>)
  {
    predicate HasCoordinates() {
      latitude != 0.0 || longitude != 0.0
    }
  }

  /** A normalised name paired with a normalised country. */
  datatype Key = Key(name: string, country: string)

  const COUNTRY_AUTHORITY := "wikidata"

  /** Case-insensitive equality with "unknown"; the Kelvin sign folds to k. */
  predicate FoldsToUnknown(s: string) {
    && |s| == 7
    && s[0] in "uU" && s[1] in "nN" && s[2] in "kK\U{212A}" && s[3] in "nN"
    && s[4] in "oO" && s[5] in "wW" && s[6] in "nN"
  }

  predicate Known(country: string) {
    country != "" && !FoldsToUnknown(country)
  }

  function Cleaned(txt: Text, m: Museum): Museum {
    m.(name := txt.clean(m.name),
       alsoKnownAs := seq(|m.alsoKnownAs|, k requires 0 <= k < |m.alsoKnownAs| => txt.clean(m.alsoKnownAs[k])))
  }

  // ------------------------------------------------------------------ nameKeys

  function KeysOf(txt: Text, country: string, names: seq<string>): seq<Key>
    decreases |names|
  {
    if names == [] then []
    else
      var less := KeysOf(txt, country, names[..|names| - 1]);
      var key := Key(txt.normalize(names[|names| - 1]), country);
      if key.name == "" || key in less then less else less + [key]
  }

  function NameKeys(txt: Text, m: Museum): seq<Key> {
    if !Known(m.country) then []
    else KeysOf(txt, txt.normalize(m.country), [m.name] + m.alsoKnownAs)
  }

  method ComputeNameKeys(txt: Text, m: Museum) returns (keys: seq<Key>)
    ensures keys == NameKeys(txt, m)
  {
    keys := [];
    if !Known(m.country) {
      return;
    }
    var country := txt.normalize(m.country);
    var seen: set<Key> := {};
    var names := [m.name] + m.alsoKnownAs;
    var i := 0;
    while i < |names|
      invariant 0 <= i <= |names|
      invariant keys == KeysOf(txt, country, names[..i])
      invariant seen == set k | k in keys
    {
      assert names[..i + 1][..i] == names[..i];
      var normalized := txt.normalize(names[i]);
      i := i + 1;
      if normalized == "" {
        continue;
      }
      var key := Key(normalized, country);
      if key in seen {
        continue;
      }
      seen := seen + {key};
      keys := keys + [key];
    }
    assert names[..i] == names;
  }

  /** The keys are exactly the non-empty normalised names, each once. */
  lemma {:induction false} KeysOfMeaning(txt: Text, country: string, names: seq<string>)
    ensures forall k :: k in KeysOf(txt, country, names)
                   <==> k.country == country && k.name != "" && exists n :: n in names && txt.normalize(n) == k.name
    ensures forall i, j :: 0 <= i < j < |KeysOf(txt, country, names)| ==>
              KeysOf(txt, country, names)[i] != KeysOf(txt, country, names)[j]
    decreases |names|
  {
    if names != [] {
      var n := |names| - 1;
      KeysOfMeaning(txt, country, names[..n]);
      assert names == names[..n] + [names[n]];
    }
  }

  /** What a museum can be recognised by: nothing unless its country is a real one,
      and then each of its names that has letters or digits left, with that country. */
  lemma NameKeysMeaning(txt: Text, m: Museum)
    ensures forall k :: k in NameKeys(txt, m)
                   <==> && Known(m.country) && k.country == txt.normalize(m.country) && k.name != ""
                        && (k.name == txt.normalize(m.name) || exists n :: n in m.alsoKnownAs && txt.normalize(n) == k.name)
  {
    KeysOfMeaning(txt, txt.normalize(m.country), [m.name] + m.alsoKnownAs);
    forall k: Key ensures (exists n :: n in [m.name] + m.alsoKnownAs && txt.normalize(n) == k.name)
                     <==> (k.name == txt.normalize(m.name) || exists n :: n in m.alsoKnownAs && txt.normalize(n) == k.name)
    {
      if k.name == txt.normalize(m.name) {
        assert m.name in [m.name] + m.alsoKnownAs;
      } else if exists n :: n in m.alsoKnownAs && txt.normalize(n) == k.name {
        var n :| n in m.alsoKnownAs && txt.normalize(n) == k.name;
        assert n in [m.name] + m.alsoKnownAs;
      }
    }
  }

  /** The lower-case letter a letter of the alphabet folds to. */
  function Lower(c: char): char {
    if 'A' <= c <= 'Z' then (c as int + 32) as char else if c == '\U{212A}' then 'k' else c
  }

  function Lowered(s: string): string {
    seq(|s|, i requires 0 <= i < |s| => Lower(s[i]))
  }

  /** A country is known unless it is empty or reads "unknown", whatever its case. */
  lemma KnownMeans(country: string)
    ensures Known(country) <==> country != "" && Lowered(country) != "unknown"
  {
    var low := Lowered(country);
    if |country| == 7 {
      assert low == "unknown" <==> low[0] == 'u' && low[1] == 'n' && low[2] == 'k' && low[3] == 'n' && low[4] == 'o'
                                   && low[5] == 'w' && low[6] == 'n';
    }
  }

  // ----------------------------------------------------------------- mergeInto

  function Fill(target: string, value: string): string {
    if target == "" then value else target
  }

  /** have, and the strings of extra it lacks, none of them in skip. */
  function AddMissing(have: seq<string>, extra: seq<string>, skip: set<string>): seq<string>
    decreases |extra|
  {
    if extra == [] then have
    else
      var n := |extra| - 1;
      var got := AddMissing(have, extra[..n], skip);
      if extra[n] in skip || extra[n] in got then got else got + [extra[n]]
  }

  method AppendMissing(have: seq<string>, extra: seq<string>, skip: set<string>) returns (got: seq<string>)
    ensures got == AddMissing(have, extra, skip)
  {
    got := have;
    var i := 0;
    while i < |extra|
      invariant 0 <= i <= |extra|
      invariant got == AddMissing(have, extra[..i], skip)
    {
      assert extra[..i + 1][..i] == extra[..i];
      if extra[i] !in skip && extra[i] !in got {
        got := got + [extra[i]];
      }
      i := i + 1;
    }
    assert extra[..i] == extra;
  }

  predicate Authoritative(m: Museum) {
    COUNTRY_AUTHORITY in m.sources
  }

  function Merged(dst: Museum, src: Museum): Museum {
    var name := Fill(dst.name, src.name);
    var located := !dst.HasCoordinates() && src.HasCoordinates();
    Museum(
      name,
      if Known(src.country) && (!Known(dst.country) || Authoritative(src)) then src.country else dst.country,
      Fill(dst.locality, src.locality),
      Fill(dst.description, src.description),
      Fill(dst.wikipediaURL, src.wikipediaURL),
      Fill(dst.wikidataID, src.wikidataID),
      Fill(dst.website, src.website),
      Fill(dst.sourcePage, src.sourcePage),
      if dst.pageID == 0 then src.pageID else dst.pageID,
      if src.sitelinks > dst.sitelinks then src.sitelinks else dst.sitelinks,
      if located then src.latitude else dst.latitude,
      if located then src.longitude else dst.longitude,
      dst.verified || src.verified,
      Strings.Sorted(AddMissing(dst.alsoKnownAs, [src.name] + src.alsoKnownAs, {"", name})),
      Strings.Sorted(AddMissing(dst.sources, src.sources, {})),
      Strings.Sorted(AddMissing(dst.classes, src.classes, {""})))
  }

  method MergeInto(dst: Museum, src: Museum) returns (out: Museum)
    ensures out == Merged(dst, src)
  {
    var name := Fill(dst.name, src.name);
    var country := dst.country;
    if Known(src.country) && (!Known(dst.country) || Authoritative(src)) {
      country := src.country;
    }
    var pageID := dst.pageID;
    if pageID == 0 {
      pageID := src.pageID;
    }
    var sitelinks := dst.sitelinks;
    if src.sitelinks > sitelinks {
      sitelinks := src.sitelinks;
    }
    var latitude, longitude := dst.latitude, dst.longitude;
    if !dst.HasCoordinates() && src.HasCoordinates() {
      latitude, longitude := src.latitude, src.longitude;
    }
    var aliases := AppendMissing(dst.alsoKnownAs, [src.name] + src.alsoKnownAs, {"", name});
    var sources := AppendMissing(dst.sources, src.sources, {});
    var classes := AppendMissing(dst.classes, src.classes, {""});
    out := Museum(name, country, Fill(dst.locality, src.locality), Fill(dst.description, src.description),
                  Fill(dst.wikipediaURL, src.wikipediaURL), Fill(dst.wikidataID, src.wikidataID),
                  Fill(dst.website, src.website), Fill(dst.sourcePage, src.sourcePage),
                  pageID, sitelinks, latitude, longitude, dst.verified || src.verified,
                  Strings.Sorted(aliases), Strings.Sorted(sources), Strings.Sorted(classes));
  }

  // -------------------------------------------------------------------- the index

  datatype Index = Index(byWikidata: map<string, nat>, byName: map<Key, nat>, ambiguous: set<Key>,
                         museums: seq<Museum>, merged: nat)

  const EMPTY := Index(map[], map[], {}, [], 0)

  ghost predicate Valid(ix: Index) {
    && (forall id :: id in ix.byWikidata ==> ix.byWikidata[id] < |ix.museums|)
    && (forall key :: key in ix.byName ==> ix.byName[key] < |ix.museums|)
  }

  /** A name identifies nobody once two museums answer to it, and never overrides
      two ids that disagree. */
  predicate MatchesByName(ix: Index, m: Museum, key: Key)
    requires Valid(ix)
  {
    && key !in ix.ambiguous && key in ix.byName
    && var existing := ix.museums[ix.byName[key]];
       existing.wikidataID == "" || m.wikidataID == "" || existing.wikidataID == m.wikidataID
  }

  function LookupName(ix: Index, m: Museum, keys: seq<Key>): Option<nat>
    requires Valid(ix)
  {
    if keys == [] then None
    else if MatchesByName(ix, m, keys[0]) then Some(ix.byName[keys[0]])
    else LookupName(ix, m, keys[1..])
  }

  function Lookup(ix: Index, m: Museum, keys: seq<Key>): (r: Option<nat>)
    requires Valid(ix)
  {
    if m.wikidataID != "" && m.wikidataID in ix.byWikidata then Some(ix.byWikidata[m.wikidataID])
    else LookupName(ix, m, keys)
  }

  /** Museum idx claims one more key. */
  function Claim(ix: Index, idx: nat, key: Key): Index {
    if key !in ix.byName then ix.(byName := ix.byName[key := idx])
    else if ix.byName[key] != idx then ix.(ambiguous := ix.ambiguous + {key})
    else ix
  }

  function ClaimAll(ix: Index, idx: nat, keys: seq<Key>): Index
    decreases |keys|
  {
    if keys == [] then ix else Claim(ClaimAll(ix, idx, keys[..|keys| - 1]), idx, keys[|keys| - 1])
  }

  function Indexed(txt: Text, ix: Index, idx: nat, m: Museum, keys: seq<Key>): Index {
    var named := if m.wikidataID != "" then ix.(byWikidata := ix.byWikidata[m.wikidataID := idx]) else ix;
    ClaimAll(named, idx, keys + NameKeys(txt, m))
  }

  /** Where a cleaned record goes: an existing museum, or a place of its own. */
  ghost function Place(txt: Text, ix: Index, m: Museum): nat
    requires Valid(ix)
  {
    match Lookup(ix, m, NameKeys(txt, m))
    case Some(idx) => idx
    case None => |ix.museums|
  }

  lemma {:induction false} LookupInRange(ix: Index, m: Museum, keys: seq<Key>)
    requires Valid(ix)
    ensures LookupName(ix, m, keys).Some? ==> LookupName(ix, m, keys).value < |ix.museums|
  {
    if keys != [] {
      LookupInRange(ix, m, keys[1..]);
    }
  }

  /** The record a museum stands for once m has been added to it. */
  function Stored(ix: Index, idx: nat, m: Museum): Museum
    requires idx <= |ix.museums|
  {
    if idx < |ix.museums| then Merged(ix.museums[idx], m) else m
  }

  function PutAt(ix: Index, idx: nat, stored: Museum): Index
    requires idx <= |ix.museums|
  {
    if idx < |ix.museums| then ix.(museums := ix.museums[idx := stored], merged := ix.merged + 1)
    else ix.(museums := ix.museums + [stored])
  }

  ghost function AddCleaned(txt: Text, ix: Index, m: Museum): Index
    requires Valid(ix)
  {
    LookupInRange(ix, m, NameKeys(txt, m));
    var idx := Place(txt, ix, m);
    Indexed(txt, PutAt(ix, idx, Stored(ix, idx, m)), idx, Stored(ix, idx, m), NameKeys(txt, m))
  }

  ghost function Added(txt: Text, ix: Index, m: Museum): Index
    requires Valid(ix)
  {
    AddCleaned(txt, ix, Cleaned(txt, m))
  }

  lemma {:induction false} ClaimsTouchOnlyNames(ix: Index, idx: nat, keys: seq<Key>)
    ensures var c := ClaimAll(ix, idx, keys);
            && c.byWikidata == ix.byWikidata && c.museums == ix.museums && c.merged == ix.merged
            && (forall key :: key in c.byName ==> (key in ix.byName && c.byName[key] == ix.byName[key]) || c.byName[key] == idx)
    decreases |keys|
  {
    if keys != [] {
      ClaimsTouchOnlyNames(ix, idx, keys[..|keys| - 1]);
    }
  }

  lemma IndexedTouchesOnlyKeys(txt: Text, ix: Index, idx: nat, stored: Museum, keys: seq<Key>)
    requires Valid(ix) && idx < |ix.museums|
    ensures var done := Indexed(txt, ix, idx, stored, keys);
            && Valid(done) && done.museums == ix.museums && done.merged == ix.merged
            && done.byWikidata == if stored.wikidataID != "" then ix.byWikidata[stored.wikidataID := idx] else ix.byWikidata
  {
    var named := if stored.wikidataID != "" then ix.(byWikidata := ix.byWikidata[stored.wikidataID := idx]) else ix;
    ClaimsTouchOnlyNames(named, idx, keys + NameKeys(txt, stored));
  }

  lemma AddedIsValid(txt: Text, ix: Index, m: Museum)
    requires Valid(ix)
    ensures Place(txt, ix, m) <= |ix.museums|
    ensures var idx := Place(txt, ix, m);
            var stored := Stored(ix, idx, m);
            var done := AddCleaned(txt, ix, m);
            && Valid(done)
            && done.museums == PutAt(ix, idx, stored).museums
            && done.merged == PutAt(ix, idx, stored).merged
            && done.byWikidata == if stored.wikidataID != "" then ix.byWikidata[stored.wikidataID := idx] else ix.byWikidata
  {
    LookupInRange(ix, m, NameKeys(txt, m));
    var idx := Place(txt, ix, m);
    IndexedTouchesOnlyKeys(txt, PutAt(ix, idx, Stored(ix, idx, m)), idx, Stored(ix, idx, m), NameKeys(txt, m));
  }

  class Merger {
    const txt: Text
    var byWikidata: map<string, nat>
    var byName: map<Key, nat>
    var ambiguous: set<Key>
    var museums: seq<Museum>
    var merged: nat

    function Now(): Index
      reads this
    {
      Index(byWikidata, byName, ambiguous, museums, merged)
    }

    constructor (txt: Text)
      ensures this.txt == txt && Now() == EMPTY
    {
      this.txt := txt;
      byWikidata, byName, ambiguous, museums, merged := map[], map[], {}, [], 0;
    }

    method Add(museum: Museum)
      requires Valid(Now())
      modifies this
      ensures Now() == Added(txt, old(Now()), museum) && Valid(Now())
    {
      AddedIsValid(txt, Now(), Cleaned(txt, museum));
      var m := Cleaned(txt, museum);
      var keys := ComputeNameKeys(txt, m);
      LookupInRange(Now(), m, keys);
      var found := Find(m, keys);
      if found.Some? {
        FoldIn(found.value, m, keys);
        return;
      }
      Append(m, keys);
    }

    method FoldIn(idx: nat, m: Museum, keys: seq<Key>)
      requires Valid(Now()) && idx < |museums|
      modifies this
      ensures var stored := Stored(old(Now()), idx, m);
              Now() == Indexed(txt, PutAt(old(Now()), idx, stored), idx, stored, keys)
    {
      var out := MergeInto(museums[idx], m);
      museums := museums[idx := out];
      merged := merged + 1;
      Record(idx, out, keys);
    }

    method Append(m: Museum, keys: seq<Key>)
      requires Valid(Now())
      modifies this
      ensures Now() == Indexed(txt, PutAt(old(Now()), |old(museums)|, m), |old(museums)|, m, keys)
    {
      museums := museums + [m];
      Record(|museums| - 1, m, keys);
    }

    method Find(m: Museum, keys: seq<Key>) returns (r: Option<nat>)
      requires Valid(Now())
      ensures r == Lookup(Now(), m, keys)
    {
      if m.wikidataID != "" {
        if m.wikidataID in byWikidata {
          return Some(byWikidata[m.wikidataID]);
        }
      }
      var i := 0;
      while i < |keys|
        invariant 0 <= i <= |keys|
        invariant LookupName(Now(), m, keys) == LookupName(Now(), m, keys[i..])
      {
        var key := keys[i];
        i := i + 1;
        if key in ambiguous || key !in byName {
          continue;
        }
        var existing := museums[byName[key]];
        if existing.wikidataID == "" || m.wikidataID == "" || existing.wikidataID == m.wikidataID {
          return Some(byName[key]);
        }
      }
      return None;
    }

    /** Records the keys pointing at a stored museum. */
    method Record(idx: nat, m: Museum, keys: seq<Key>)
      modifies this`byWikidata, this`byName, this`ambiguous
      ensures Now() == Indexed(txt, old(Now()), idx, m, keys)
    {
      if m.wikidataID != "" {
        byWikidata := byWikidata[m.wikidataID := idx];
      }
      ghost var named := Now();
      var own := ComputeNameKeys(txt, m);
      var all := keys + own;
      var i := 0;
      while i < |all|
        invariant 0 <= i <= |all|
        invariant Now() == ClaimAll(named, idx, all[..i])
      {
        assert all[..i + 1][..i] == all[..i];
        var key := all[i];
        if key !in byName {
          byName := byName[key := idx];
        } else if byName[key] != idx {
          ambiguous := ambiguous + {key};
        }
        i := i + 1;
      }
      assert all[..i] == all;
    }
  }
}
