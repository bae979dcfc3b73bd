/** What the merger of internal/collect/merge.go keeps over every sequence of
    records: identity is never confused, a name is used only while it is evidence,
    and every museum is the sum of the records filed under it. */
module Clustering {
  import opened Merge
  import Strings

  // -------------------------------------------------------------------- runs

  ghost function After(txt: Text, inputs: seq<Museum>): (ix: Index)
    ensures Valid(ix)
    decreases |inputs|
  {
    if inputs == [] then EMPTY
    else
      var n := |inputs| - 1;
      AddedIsValid(txt, After(txt, inputs[..n]), Cleaned(txt, inputs[n]));
      Added(txt, After(txt, inputs[..n]), inputs[n])
  }

  /** Which museum each record was filed under. */
  ghost function Places(txt: Text, inputs: seq<Museum>): (places: seq<nat>)
    ensures |places| == |inputs|
    decreases |inputs|
  {
    if inputs == [] then []
    else
      var n := |inputs| - 1;
      Places(txt, inputs[..n]) + [Place(txt, After(txt, inputs[..n]), Cleaned(txt, inputs[n]))]
  }

  // ---------------------------------------------------------------- identity

  /** The id index is exactly the inverse of the stored ids. */
  ghost predicate IdsIndexed(ix: Index)
    requires Valid(ix)
  {
    && (forall i :: 0 <= i < |ix.museums| && ix.museums[i].wikidataID != "" ==>
          ix.museums[i].wikidataID in ix.byWikidata && ix.byWikidata[ix.museums[i].wikidataID] == i)
    && (forall id :: id in ix.byWikidata ==> id != "" && ix.museums[ix.byWikidata[id]].wikidataID == id)
  }

  lemma {:induction false} NameFound(ix: Index, m: Museum, keys: seq<Key>) returns (key: Key)
    requires Valid(ix) && LookupName(ix, m, keys).Some?
    ensures key in keys && MatchesByName(ix, m, key) && LookupName(ix, m, keys).value == ix.byName[key]
  {
    if MatchesByName(ix, m, keys[0]) {
      key := keys[0];
    } else {
      key := NameFound(ix, m, keys[1..]);
    }
  }

  /** A record is filed only where its id, if any, is or may become the museum's. */
  lemma PlaceAgrees(txt: Text, ix: Index, m: Museum)
    requires Valid(ix) && IdsIndexed(ix)
    ensures Place(txt, ix, m) <= |ix.museums|
    ensures m.wikidataID in ix.byWikidata ==> Place(txt, ix, m) == ix.byWikidata[m.wikidataID]
    ensures Place(txt, ix, m) < |ix.museums| ==>
              var id := ix.museums[Place(txt, ix, m)].wikidataID;
              id == "" || m.wikidataID == "" || id == m.wikidataID
  {
    var keys := NameKeys(txt, m);
    LookupInRange(ix, m, keys);
    if !(m.wikidataID in ix.byWikidata) && LookupName(ix, m, keys).Some? {
      var key := NameFound(ix, m, keys);
    }
  }

  /** Museums are only ever added, and a stored id is kept. */
  ghost predicate Extends(ix: Index, done: Index) {
    && |ix.museums| <= |done.museums|
    && forall i :: 0 <= i < |ix.museums| && ix.museums[i].wikidataID != "" ==>
         done.museums[i].wikidataID == ix.museums[i].wikidataID
  }

  lemma IdentityStep(txt: Text, ix: Index, m: Museum)
    requires Valid(ix) && IdsIndexed(ix)
    ensures Valid(AddCleaned(txt, ix, m)) && IdsIndexed(AddCleaned(txt, ix, m)) && Extends(ix, AddCleaned(txt, ix, m))
    ensures Place(txt, ix, m) < |AddCleaned(txt, ix, m).museums|
    ensures m.wikidataID != "" ==> AddCleaned(txt, ix, m).museums[Place(txt, ix, m)].wikidataID == m.wikidataID
  {
    AddedIsValid(txt, ix, m);
    PlaceAgrees(txt, ix, m);
    var idx := Place(txt, ix, m);
    var stored := Stored(ix, idx, m);
    assert stored.wikidataID == if idx < |ix.museums| then Fill(ix.museums[idx].wikidataID, m.wikidataID) else m.wikidataID;
    IdsIndexedAfterPut(ix, AddCleaned(txt, ix, m), idx, stored);
  }

  lemma IdsIndexedAfterPut(ix: Index, done: Index, idx: nat, stored: Museum)
    requires Valid(ix) && IdsIndexed(ix) && Valid(done) && idx <= |ix.museums|
    requires done.museums == PutAt(ix, idx, stored).museums
    requires done.byWikidata == if stored.wikidataID != "" then ix.byWikidata[stored.wikidataID := idx] else ix.byWikidata
    requires stored.wikidataID in ix.byWikidata ==> idx == ix.byWikidata[stored.wikidataID]
    requires idx < |ix.museums| && ix.museums[idx].wikidataID != "" ==> stored.wikidataID == ix.museums[idx].wikidataID
    ensures IdsIndexed(done) && Extends(ix, done)
  {
    var id := stored.wikidataID;
    forall i | 0 <= i < |done.museums| && done.museums[i].wikidataID != ""
      ensures done.museums[i].wikidataID in done.byWikidata && done.byWikidata[done.museums[i].wikidataID] == i
    {
      if i != idx {
        assert done.museums[i] == ix.museums[i];
      }
    }
  }

  /** Each record sits where its id says. */
  ghost predicate Filed(ix: Index, inputs: seq<Museum>, places: seq<nat>)
    requires |places| == |inputs|
  {
    forall k :: 0 <= k < |inputs| ==>
      && places[k] < |ix.museums|
      && (inputs[k].wikidataID != "" ==> ix.museums[places[k]].wikidataID == inputs[k].wikidataID)
  }

  lemma FiledOneMore(ix: Index, done: Index, inputs: seq<Museum>, places: seq<nat>, m: Museum, place: nat)
    requires |places| == |inputs| && Filed(ix, inputs, places) && Extends(ix, done)
    requires place < |done.museums| && (m.wikidataID != "" ==> done.museums[place].wikidataID == m.wikidataID)
    ensures Filed(done, inputs + [m], places + [place])
  {
  }

  lemma {:induction false} IdsStayIndexed(txt: Text, inputs: seq<Museum>)
    ensures IdsIndexed(After(txt, inputs))
    decreases |inputs|
  {
    if inputs != [] {
      var n := |inputs| - 1;
      IdsStayIndexed(txt, inputs[..n]);
      IdentityStep(txt, After(txt, inputs[..n]), Cleaned(txt, inputs[n]));
    }
  }

  lemma SplitLast<T>(xs: seq<T>)
    requires xs != []
    ensures xs == xs[..|xs| - 1] + [xs[|xs| - 1]]
  {
  }

  /** The last record of a run, filed after the others. */
  lemma LastRecord(txt: Text, inputs: seq<Museum>) returns (less: seq<Museum>, m: Museum, place: nat)
    requires inputs != []
    ensures less == inputs[..|inputs| - 1] && m == Cleaned(txt, inputs[|inputs| - 1])
    ensures m.wikidataID == inputs[|inputs| - 1].wikidataID
    ensures After(txt, inputs) == AddCleaned(txt, After(txt, less), m)
    ensures place == Place(txt, After(txt, less), m)
    ensures Places(txt, inputs) == Places(txt, less) + [place]
    ensures inputs == less + [inputs[|inputs| - 1]]
  {
    less, m := inputs[..|inputs| - 1], Cleaned(txt, inputs[|inputs| - 1]);
    place := Place(txt, After(txt, less), m);
    SplitLast(inputs);
  }

  lemma {:induction false} RecordsStayFiled(txt: Text, inputs: seq<Museum>)
    ensures Filed(After(txt, inputs), inputs, Places(txt, inputs))
    decreases |inputs|
  {
    if inputs != [] {
      var less, m, place := LastRecord(txt, inputs);
      RecordsStayFiled(txt, less);
      IdsStayIndexed(txt, less);
      IdentityStep(txt, After(txt, less), m);
      FiledOneMore(After(txt, less), After(txt, inputs), less, Places(txt, less), inputs[|inputs| - 1], place);
    }
  }

  /** Over every sequence of records: two that carry ids end in the same museum
      exactly when the ids are the same. */
  lemma {:induction false} SameIdIffSameMuseum(txt: Text, inputs: seq<Museum>, j: nat, k: nat)
    requires j < |inputs| && k < |inputs|
    requires inputs[j].wikidataID != "" && inputs[k].wikidataID != ""
    ensures Places(txt, inputs)[j] == Places(txt, inputs)[k] <==> inputs[j].wikidataID == inputs[k].wikidataID
  {
    IdsStayIndexed(txt, inputs);
    RecordsStayFiled(txt, inputs);
  }

  /** An id, once stored, stays for good. */
  lemma {:induction false} StoredIdNeverChanges(txt: Text, inputs: seq<Museum>, n: nat, i: nat)
    requires n <= |inputs| && i < |After(txt, inputs[..n]).museums|
    requires After(txt, inputs[..n]).museums[i].wikidataID != ""
    ensures i < |After(txt, inputs).museums|
    ensures After(txt, inputs).museums[i].wikidataID == After(txt, inputs[..n]).museums[i].wikidataID
    decreases |inputs|
  {
    if n == |inputs| {
      assert inputs[..n] == inputs;
    } else {
      var less := inputs[..|inputs| - 1];
      assert less[..n] == inputs[..n];
      StoredIdNeverChanges(txt, less, n, i);
      IdsStayIndexed(txt, less);
      IdentityStep(txt, After(txt, less), Cleaned(txt, inputs[|inputs| - 1]));
    }
  }

  /** Every record is either a museum of its own or folded into one. */
  lemma {:induction false} NothingIsLost(txt: Text, inputs: seq<Museum>)
    ensures |After(txt, inputs).museums| + After(txt, inputs).merged == |inputs|
    decreases |inputs|
  {
    if inputs != [] {
      var n := |inputs| - 1;
      NothingIsLost(txt, inputs[..n]);
      AddedIsValid(txt, After(txt, inputs[..n]), Cleaned(txt, inputs[n]));
    }
  }

  // ------------------------------------------------------- names as evidence

  /** A museum answering to a name. */
  datatype Answer = Answer(key: Key, idx: nat)

  function Answers(idx: nat, keys: seq<Key>): seq<Answer>
    decreases |keys|
  {
    if keys == [] then [] else Answers(idx, keys[..|keys| - 1]) + [Answer(keys[|keys| - 1], idx)]
  }

  /** Every answer ever given, in order: a record's keys, and those of the museum
      it went into, are answered to by that museum. */
  ghost function Log(txt: Text, inputs: seq<Museum>): seq<Answer>
    decreases |inputs|
  {
    if inputs == [] then []
    else
      var n := |inputs| - 1;
      var ix, m := After(txt, inputs[..n]), Cleaned(txt, inputs[n]);
      LookupInRange(ix, m, NameKeys(txt, m));
      var idx := Place(txt, ix, m);
      Log(txt, inputs[..n]) + Answers(idx, NameKeys(txt, m) + NameKeys(txt, Stored(ix, idx, m)))
  }

  ghost function First(log: seq<Answer>, key: Key): Option<nat>
    decreases |log|
  {
    if log == [] then None
    else
      var less, last := log[..|log| - 1], log[|log| - 1];
      if First(log[..|log| - 1], key).Some? || last.key != key then First(less, key) else Some(last.idx)
  }

  /** The museums that have answered to a name. */
  ghost function Claimants(log: seq<Answer>, key: Key): set<nat> {
    set a | a in log && a.key == key :: a.idx
  }

  /** The name index holds the first museum to answer to each name, and the
      ambiguous names are exactly those that two museums have answered to. */
  ghost predicate NamesIndexed(ix: Index, log: seq<Answer>) {
    && (forall key :: First(log, key) == if key in ix.byName then Some(ix.byName[key]) else None)
    && (forall key :: key in ix.ambiguous <==> exists i, j :: i in Claimants(log, key) && j in Claimants(log, key) && i != j)
  }

  lemma ClaimantsOneMore(log: seq<Answer>, a: Answer, key: Key)
    ensures Claimants(log + [a], key) == Claimants(log, key) + if a.key == key then {a.idx} else {}
  {
  }

  lemma {:induction false} FirstIsClaimant(log: seq<Answer>, key: Key)
    ensures First(log, key).Some? ==> First(log, key).value in Claimants(log, key)
    ensures First(log, key).None? ==> Claimants(log, key) == {}
    decreases |log|
  {
    if log != [] {
      var less, last := log[..|log| - 1], log[|log| - 1];
      FirstIsClaimant(less, key);
      SplitLast(log);
      ClaimantsOneMore(less, last, key);
    }
  }

  lemma {:induction false} FirstOneMore(log: seq<Answer>, a: Answer, key: Key)
    ensures First(log + [a], key) == if First(log, key).Some? || a.key != key then First(log, key) else Some(a.idx)
  {
  }

  lemma ClaimKeepsNamesIndexed(ix: Index, log: seq<Answer>, idx: nat, key: Key)
    requires NamesIndexed(ix, log)
    ensures NamesIndexed(Claim(ix, idx, key), log + [Answer(key, idx)])
  {
    var a := Answer(key, idx);
    var ix', log' := Claim(ix, idx, key), log + [a];
    forall k ensures First(log', k) == if k in ix'.byName then Some(ix'.byName[k]) else None {
      FirstOneMore(log, a, k);
    }
    forall k
      ensures k in ix'.ambiguous <==> exists i, j :: i in Claimants(log', k) && j in Claimants(log', k) && i != j
    {
      ClaimantsOneMore(log, a, k);
      FirstIsClaimant(log, k);
      if k == key && key in ix.byName && ix.byName[key] != idx {
        assert idx in Claimants(log', k) && ix.byName[key] in Claimants(log', k);
      }
    }
  }

  lemma {:induction false} ClaimsKeepNamesIndexed(ix: Index, log: seq<Answer>, idx: nat, keys: seq<Key>)
    requires NamesIndexed(ix, log)
    ensures NamesIndexed(ClaimAll(ix, idx, keys), log + Answers(idx, keys))
    decreases |keys|
  {
    if keys == [] {
      NothingAppended(log);
    } else {
      var n := |keys| - 1;
      ClaimsKeepNamesIndexed(ix, log, idx, keys[..n]);
      ClaimKeepsNamesIndexed(ClaimAll(ix, idx, keys[..n]), log + Answers(idx, keys[..n]), idx, keys[n]);
      AppendedLast(log, Answers(idx, keys[..n]), Answer(keys[n], idx));
    }
  }

  lemma NothingAppended<T>(xs: seq<T>)
    ensures xs + [] == xs
  {
  }

  lemma AppendedLast<T>(xs: seq<T>, ys: seq<T>, z: T)
    ensures xs + ys + [z] == xs + (ys + [z])
  {
  }

  /** Over every sequence of records, the name index is the first museum to answer
      to each name, and the ambiguous names are those two museums answer to. */
  lemma {:induction false} NamesStayIndexed(txt: Text, inputs: seq<Museum>)
    ensures NamesIndexed(After(txt, inputs), Log(txt, inputs))
    decreases |inputs|
  {
    if inputs != [] {
      var n := |inputs| - 1;
      NamesStayIndexed(txt, inputs[..n]);
      var ix, m := After(txt, inputs[..n]), Cleaned(txt, inputs[n]);
      LookupInRange(ix, m, NameKeys(txt, m));
      IndexedKeepsNames(txt, ix, Log(txt, inputs[..n]), Place(txt, ix, m), Stored(ix, Place(txt, ix, m), m), NameKeys(txt, m));
    }
  }

  lemma {:induction false} IndexedKeepsNames(txt: Text, ix: Index, log: seq<Answer>, idx: nat, stored: Museum,
                                             keys: seq<Key>)
    requires NamesIndexed(ix, log) && idx <= |ix.museums|
    ensures NamesIndexed(Indexed(txt, PutAt(ix, idx, stored), idx, stored, keys),
                         log + Answers(idx, keys + NameKeys(txt, stored)))
  {
    var kept := PutAt(ix, idx, stored);
    var named := if stored.wikidataID != "" then kept.(byWikidata := kept.byWikidata[stored.wikidataID := idx]) else kept;
    assert NamesIndexed(named, log);
    ClaimsKeepNamesIndexed(named, log, idx, keys + NameKeys(txt, stored));
  }

  /** Every name a stored museum goes by now, it has answered to. */
  ghost predicate NamesAnswered(txt: Text, museums: seq<Museum>, log: seq<Answer>) {
    forall i, key :: 0 <= i < |museums| && key in NameKeys(txt, museums[i]) ==> i in Claimants(log, key)
  }

  lemma {:induction false} AnswersOf(idx: nat, keys: seq<Key>)
    ensures forall key :: key in keys ==> Answer(key, idx) in Answers(idx, keys)
    decreases |keys|
  {
    if keys != [] {
      AnswersOf(idx, keys[..|keys| - 1]);
      SplitLast(keys);
    }
  }

  lemma {:induction false} AnsweredAfterPut(txt: Text, ix: Index, log: seq<Answer>, idx: nat, stored: Museum,
                                            keys: seq<Key>)
    requires NamesAnswered(txt, ix.museums, log) && idx <= |ix.museums|
    ensures NamesAnswered(txt, PutAt(ix, idx, stored).museums, log + Answers(idx, keys + NameKeys(txt, stored)))
  {
    var museums := PutAt(ix, idx, stored).museums;
    var more := Answers(idx, keys + NameKeys(txt, stored));
    AnswersOf(idx, keys + NameKeys(txt, stored));
    forall i, key | 0 <= i < |museums| && key in NameKeys(txt, museums[i]) ensures i in Claimants(log + more, key) {
      if i == idx {
        assert Answer(key, idx) in more;
      } else {
        assert i in Claimants(log, key);
        var a :| a in log && a.key == key && a.idx == i;
        assert a in log + more;
      }
    }
  }

  lemma {:induction false} NamesStayAnswered(txt: Text, inputs: seq<Museum>)
    ensures NamesAnswered(txt, After(txt, inputs).museums, Log(txt, inputs))
    decreases |inputs|
  {
    if inputs != [] {
      var n := |inputs| - 1;
      NamesStayAnswered(txt, inputs[..n]);
      var ix, m := After(txt, inputs[..n]), Cleaned(txt, inputs[n]);
      AddedIsValid(txt, ix, m);
      AnsweredAfterPut(txt, ix, Log(txt, inputs[..n]), Place(txt, ix, m), Stored(ix, Place(txt, ix, m), m), NameKeys(txt, m));
    }
  }

  /** Every name a stored museum goes by is indexed to it, or is ambiguous. */
  lemma {:induction false} CurrentNamesOwnedOrAmbiguous(txt: Text, inputs: seq<Museum>, i: nat, key: Key)
    requires i < |After(txt, inputs).museums| && key in NameKeys(txt, After(txt, inputs).museums[i])
    ensures var ix := After(txt, inputs);
            key in ix.byName && (ix.byName[key] == i || key in ix.ambiguous)
  {
    NamesStayIndexed(txt, inputs);
    NamesStayAnswered(txt, inputs);
    FirstIsClaimant(Log(txt, inputs), key);
    assert i in Claimants(Log(txt, inputs), key);
  }

  /** A record is filed by name only under the one museum that ever answered to
      that name; no other stored museum goes by it. */
  lemma NameMatchHasOneClaimant(txt: Text, inputs: seq<Museum>, m: Museum) returns (key: Key)
    requires LookupName(After(txt, inputs), m, NameKeys(txt, m)).Some?
    ensures var ix := After(txt, inputs);
            var idx := LookupName(ix, m, NameKeys(txt, m)).value;
            && idx < |ix.museums| && key in NameKeys(txt, m)
            && Claimants(Log(txt, inputs), key) == {idx}
            && forall i :: 0 <= i < |ix.museums| && key in NameKeys(txt, ix.museums[i]) ==> i == idx
  {
    var ix, log := After(txt, inputs), Log(txt, inputs);
    LookupInRange(ix, m, NameKeys(txt, m));
    key := NameFound(ix, m, NameKeys(txt, m));
    NamesStayIndexed(txt, inputs);
    NamesStayAnswered(txt, inputs);
    FirstIsClaimant(log, key);
    assert First(log, key) == Some(ix.byName[key]);
  }

  // ------------------------------------------------------ where a record goes

  /** The museum alone has ever answered to the name, and its id does not disagree
      with the record's. */
  ghost predicate Recognises(ix: Index, log: seq<Answer>, m: Museum, key: Key, i: nat) {
    && Claimants(log, key) == {i}
    && i < |ix.museums|
    && (ix.museums[i].wikidataID == "" || m.wikidataID == "" || ix.museums[i].wikidataID == m.wikidataID)
  }

  lemma MatchIsRecognition(ix: Index, log: seq<Answer>, m: Museum, key: Key)
    requires Valid(ix) && NamesIndexed(ix, log)
    ensures MatchesByName(ix, m, key) <==> exists i :: Recognises(ix, log, m, key, i)
    ensures forall i :: Recognises(ix, log, m, key, i) ==> key in ix.byName && ix.byName[key] == i
  {
    FirstIsClaimant(log, key);
    if MatchesByName(ix, m, key) {
      var i := ix.byName[key];
      forall j | j in Claimants(log, key) ensures j == i {
      }
      assert Claimants(log, key) == {i};
      assert Recognises(ix, log, m, key, i);
    }
    forall i | Recognises(ix, log, m, key, i) ensures key in ix.byName && ix.byName[key] == i && MatchesByName(ix, m, key) {
      assert i in Claimants(log, key);
    }
  }

  /** The first of the keys by which some museum recognises the record. */
  ghost predicate FirstRecognised(ix: Index, log: seq<Answer>, m: Museum, keys: seq<Key>, k: nat, i: nat) {
    && k < |keys| && Recognises(ix, log, m, keys[k], i)
    && forall j, other :: 0 <= j < k ==> !Recognises(ix, log, m, keys[j], other)
  }

  lemma {:induction false} LookupIsRecognition(ix: Index, log: seq<Answer>, m: Museum, keys: seq<Key>)
    requires Valid(ix) && NamesIndexed(ix, log)
    ensures LookupName(ix, m, keys).None? ==> forall k, i :: 0 <= k < |keys| ==> !Recognises(ix, log, m, keys[k], i)
    ensures LookupName(ix, m, keys).Some? ==> exists k :: FirstRecognised(ix, log, m, keys, k, LookupName(ix, m, keys).value)
    decreases |keys|
  {
    if keys != [] {
      MatchIsRecognition(ix, log, m, keys[0]);
      if MatchesByName(ix, m, keys[0]) {
        var i: nat :| Recognises(ix, log, m, keys[0], i);
        assert FirstRecognised(ix, log, m, keys, 0, i);
      } else {
        var rest := keys[1..];
        LookupIsRecognition(ix, log, m, rest);
        if LookupName(ix, m, rest).Some? {
          var k: nat :| FirstRecognised(ix, log, m, rest, k, LookupName(ix, m, rest).value);
          forall j, other | 0 <= j < k + 1 ensures !Recognises(ix, log, m, keys[j], other) {
            assert j > 0 ==> keys[j] == rest[j - 1];
          }
          assert FirstRecognised(ix, log, m, keys, k + 1, LookupName(ix, m, rest).value);
        } else {
          forall k, i | 0 <= k < |keys| ensures !Recognises(ix, log, m, keys[k], i) {
            assert k > 0 ==> keys[k] == rest[k - 1];
          }
        }
      }
    }
  }

  ghost predicate HoldsId(ix: Index, id: string) {
    exists i :: 0 <= i < |ix.museums| && ix.museums[i].wikidataID == id
  }

  /** With an id that is stored: to its museum. Otherwise: to the museum that
      recognises it by the first of its keys by which any does; and to a place of its
      own exactly when none does. */
  ghost predicate BelongsAt(ix: Index, log: seq<Answer>, m: Museum, keys: seq<Key>, place: nat) {
    if m.wikidataID != "" && HoldsId(ix, m.wikidataID) then
      place < |ix.museums| && ix.museums[place].wikidataID == m.wikidataID
    else
      && place <= |ix.museums|
      && (place < |ix.museums| <==> exists k, i :: 0 <= k < |keys| && Recognises(ix, log, m, keys[k], i))
      && (place < |ix.museums| ==> exists k :: FirstRecognised(ix, log, m, keys, k, place))
  }

  lemma LookupBelongs(ix: Index, log: seq<Answer>, m: Museum, keys: seq<Key>)
    requires Valid(ix) && IdsIndexed(ix) && NamesIndexed(ix, log)
    ensures BelongsAt(ix, log, m, keys, match Lookup(ix, m, keys) case Some(idx) => idx case None => |ix.museums|)
  {
    if m.wikidataID != "" {
      HeldIdIff(ix, m.wikidataID);
    }
    if !(m.wikidataID != "" && m.wikidataID in ix.byWikidata) {
      LookupInRange(ix, m, keys);
      LookupIsRecognition(ix, log, m, keys);
      if LookupName(ix, m, keys).Some? {
        var k: nat :| FirstRecognised(ix, log, m, keys, k, LookupName(ix, m, keys).value);
        assert Recognises(ix, log, m, keys[k], LookupName(ix, m, keys).value);
      }
    }
  }

  /** Where the next record goes, after every sequence of records. */
  lemma {:induction false} NextRecordGoes(txt: Text, inputs: seq<Museum>, m: Museum)
    ensures var ix, c := After(txt, inputs), Cleaned(txt, m);
            BelongsAt(ix, Log(txt, inputs), c, NameKeys(txt, c), Place(txt, ix, c))
  {
    NamesStayIndexed(txt, inputs);
    IdsStayIndexed(txt, inputs);
    LookupBelongs(After(txt, inputs), Log(txt, inputs), Cleaned(txt, m), NameKeys(txt, Cleaned(txt, m)));
  }

  lemma HeldIdIff(ix: Index, id: string)
    requires Valid(ix) && IdsIndexed(ix) && id != ""
    ensures HoldsId(ix, id) <==> id in ix.byWikidata
  {
    if id in ix.byWikidata {
      assert ix.museums[ix.byWikidata[id]].wikidataID == id;
    }
  }

  /** The record is merged exactly when it goes to a museum that is there already. */
  lemma {:induction false} MergedOrStored(txt: Text, inputs: seq<Museum>, m: Museum)
    ensures var ix, place := After(txt, inputs), Place(txt, After(txt, inputs), Cleaned(txt, m));
            var next := After(txt, inputs + [m]);
            if place < |ix.museums| then |next.museums| == |ix.museums| && next.merged == ix.merged + 1
            else |next.museums| == |ix.museums| + 1 && next.merged == ix.merged
  {
    assert (inputs + [m])[..|inputs|] == inputs;
    AddedIsValid(txt, After(txt, inputs), Cleaned(txt, m));
  }
}
