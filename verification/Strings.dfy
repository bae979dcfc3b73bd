/** String ordering, and the sorting applied to lists of names. */
module Strings {

  predicate Less(a: string, b: string) {
    b != "" && (a == "" || a[0] < b[0] || (a[0] == b[0] && Less(a[1..], b[1..])))
  }

  function Insert(x: string, xs: seq<string>): (ys: seq<string>)
    ensures multiset(ys) == multiset(xs) + multiset{x}
  {
    if xs == [] then [x]
    else if Less(xs[0], x) then
      assert xs == [xs[0]] + xs[1..];
      [xs[0]] + Insert(x, xs[1..])
    else [x] + xs
  }

  /** The one increasing arrangement of xs. */
  function Sorted(xs: seq<string>): (ys: seq<string>)
    ensures multiset(ys) == multiset(xs)
  {
    if xs == [] then []
    else
      assert xs == [xs[0]] + xs[1..];
      Insert(xs[0], Sorted(xs[1..]))
  }

  lemma {:induction false} LessIsTotal(a: string, b: string)
    ensures Less(a, b) || Less(b, a) || a == b
    ensures !(Less(a, b) && Less(b, a)) && !Less(a, a)
    decreases |a|
  {
    if a != "" && b != "" {
      LessIsTotal(a[1..], b[1..]);
      LessIsTotal(a[1..], a[1..]);
      assert a == [a[0]] + a[1..] && b == [b[0]] + b[1..];
    } else if a != "" {
      LessIsTotal(a[1..], a[1..]);
    }
  }

  lemma {:induction false} LessIsTransitive(a: string, b: string, c: string)
    requires Less(a, b) && Less(b, c)
    ensures Less(a, c)
    decreases |a|
  {
    if a != "" && a[0] == b[0] && b[0] == c[0] {
      LessIsTransitive(a[1..], b[1..], c[1..]);
    }
  }

  ghost predicate Increasing(xs: seq<string>) {
    forall i, j :: 0 <= i < j < |xs| ==> !Less(xs[j], xs[i])
  }

  lemma {:induction false} InsertKeepsIncreasing(x: string, xs: seq<string>)
    requires Increasing(xs)
    ensures Increasing(Insert(x, xs))
    decreases |xs|
  {
    if xs != [] {
      var ys := Insert(x, xs);
      if Less(xs[0], x) {
        InsertKeepsIncreasing(x, xs[1..]);
        var rest := Insert(x, xs[1..]);
        forall j | 0 <= j < |rest| ensures !Less(rest[j], xs[0]) {
          assert rest[j] in multiset(rest);
          assert xs == [xs[0]] + xs[1..];
          if rest[j] == x {
            LessIsTotal(xs[0], x);
          } else {
            assert rest[j] in xs[1..];
          }
        }
      } else {
        forall j | 0 <= j < |xs| ensures !Less(xs[j], x) {
          if Less(xs[j], x) {
            BelowNothing(xs, j, x);
          }
        }
      }
    }
  }

  lemma {:induction false} BelowNothing(xs: seq<string>, j: nat, x: string)
    requires Increasing(xs) && j < |xs| && Less(xs[j], x)
    ensures Less(xs[0], x)
  {
    if j > 0 {
      assert !Less(xs[j], xs[0]);
      LessIsTotal(xs[0], xs[j]);
      if Less(xs[0], xs[j]) {
        LessIsTransitive(xs[0], xs[j], x);
      }
    }
  }

  lemma {:induction false} SortedIsIncreasing(xs: seq<string>)
    ensures Increasing(Sorted(xs))
  {
    if xs != [] {
      SortedIsIncreasing(xs[1..]);
      InsertKeepsIncreasing(xs[0], Sorted(xs[1..]));
    }
  }

  lemma {:induction false} SortedKeepsMembers(xs: seq<string>)
    ensures forall x :: x in Sorted(xs) <==> x in xs
  {
    forall x ensures x in Sorted(xs) <==> x in xs {
      assert x in Sorted(xs) <==> x in multiset(Sorted(xs));
      assert x in xs <==> x in multiset(xs);
    }
  }

  lemma {:induction false} FirstIsLeast(xs: seq<string>, x: string)
    requires Increasing(xs) && x in xs
    ensures !Less(x, xs[0])
  {
    LessIsTotal(x, x);
  }

  lemma SameMembers(xs: seq<string>, ys: seq<string>, x: string)
    requires multiset(xs) == multiset(ys)
    ensures x in xs <==> x in ys
  {
    assert x in xs <==> x in multiset(xs);
    assert x in ys <==> x in multiset(ys);
  }

  /** Two increasing arrangements of the same strings are the same sequence. */
  lemma {:induction false} IncreasingIsUnique(xs: seq<string>, ys: seq<string>)
    requires Increasing(xs) && Increasing(ys) && multiset(xs) == multiset(ys)
    ensures xs == ys
    decreases |xs|
  {
    assert |multiset(xs)| == |xs| && |multiset(ys)| == |ys|;
    if xs != [] {
      var x, y := xs[0], ys[0];
      SameMembers(xs, ys, x);
      SameMembers(xs, ys, y);
      FirstIsLeast(xs, y);
      FirstIsLeast(ys, x);
      LessIsTotal(x, y);
      assert xs == [x] + xs[1..] && ys == [y] + ys[1..];
      assert multiset(xs[1..]) == multiset(xs) - multiset{x};
      assert multiset(ys[1..]) == multiset(ys) - multiset{y};
      IncreasingIsUnique(xs[1..], ys[1..]);
    }
  }

  /** Sorting depends on what is in the list, not on the order it came in. */
  lemma {:induction false} SortedIgnoresOrder(xs: seq<string>, ys: seq<string>)
    requires multiset(xs) == multiset(ys)
    ensures Sorted(xs) == Sorted(ys)
  {
    SortedIsIncreasing(xs);
    SortedIsIncreasing(ys);
    IncreasingIsUnique(Sorted(xs), Sorted(ys));
  }
}
