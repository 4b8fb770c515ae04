/**
  Sequence helpers for the source's "seen set plus result list" loops:
  `Fresh(xs, seen)` is what such a loop appends when it skips every element
  already in `seen` or already appended.
*/
module Seqs {

  predicate NoDup<T(==)>(s: seq<T>) {
    forall i, j | 0 <= i < j < |s| :: s[i] != s[j]
  }

  function Elems<T>(s: seq<T>): set<T> {
    set x | x in s
  }

  /** First occurrences, in order, of the elements of `xs` that are not in `seen`. */
  function Fresh<T(==)>(xs: seq<T>, seen: set<T>): seq<T>
    decreases |xs|
  {
    if xs == [] then []
    else
      var p := Fresh(xs[..|xs| - 1], seen);
      var x := xs[|xs| - 1];
      if x in seen || x in p then p else p + [x]
  }

  /** One loop iteration: appending `x` to the input appends it to the output iff it is new. */
  lemma FreshSnoc<T>(xs: seq<T>, x: T, seen: set<T>)
    ensures Fresh(xs + [x], seen)
         == if x in seen || x in Fresh(xs, seen) then Fresh(xs, seen) else Fresh(xs, seen) + [x]
  {
    assert (xs + [x])[..|xs|] == xs;
  }

  /**
    One more element in a loop that keeps `found == Fresh(xs, avoid)` and the
    set `seen` of what it found: skipped when avoided or seen, appended otherwise.
  */
  lemma FreshLoopStep<T>(xs: seq<T>, x: T, avoid: set<T>, found: seq<T>, seen: set<T>)
    requires found == Fresh(xs, avoid) && seen == Elems(found)
    ensures x in avoid || x in seen ==> Fresh(xs + [x], avoid) == found
    ensures !(x in avoid || x in seen) ==>
      Fresh(xs + [x], avoid) == found + [x] && Elems(found + [x]) == seen + {x}
  {
    FreshSnoc(xs, x, avoid);
    assert Elems(found + [x]) == Elems(found) + {x};
  }

  /** The output has no duplicates, avoids `seen`, and holds exactly the new elements of `xs`. */
  lemma {:induction false} FreshSpec<T>(xs: seq<T>, seen: set<T>)
    ensures NoDup(Fresh(xs, seen))
    ensures forall y :: y in Fresh(xs, seen) <==> y in xs && y !in seen
  {
    if xs != [] {
      var init := xs[..|xs| - 1];
      FreshSpec(init, seen);
      assert xs == init + [xs[|xs| - 1]];
      forall y
        ensures y in xs <==> y in init || y == xs[|xs| - 1]
      {
      }
    }
  }

  /** The new elements of `first`, or, when it has none, those of `second`. */
  function FreshOrElse<T(==)>(first: seq<T>, second: seq<T>, seen: set<T>): seq<T> {
    var r := Fresh(first, seen);
    if r != [] then r else Fresh(second, seen)
  }

  lemma FreshOrElseSpec<T>(first: seq<T>, second: seq<T>, seen: set<T>)
    ensures NoDup(FreshOrElse(first, second, seen))
    ensures Elems(first) - seen != {} ==> Elems(FreshOrElse(first, second, seen)) == Elems(first) - seen
    ensures Elems(first) - seen == {} ==> Elems(FreshOrElse(first, second, seen)) == Elems(second) - seen
  {
    FreshSpec(first, seen);
    FreshSpec(second, seen);
    var f := Fresh(first, seen);
    assert Elems(f) == Elems(first) - seen;
    assert Elems(Fresh(second, seen)) == Elems(second) - seen;
    if f != [] {
      assert f[0] in Elems(f);
    }
  }

  /** A sequence without duplicates is as long as its set of elements. */
  lemma {:induction false} NoDupCard<T>(s: seq<T>)
    requires NoDup(s)
    ensures |Elems(s)| == |s|
  {
    if s != [] {
      var init := s[..|s| - 1];
      NoDupCard(init);
      assert Elems(s) == Elems(init) + {s[|s| - 1]};
      assert s[|s| - 1] !in Elems(init);
    }
  }

  function Reverse<T>(s: seq<T>): (r: seq<T>)
    ensures |r| == |s|
    ensures forall i | 0 <= i < |s| :: r[i] == s[|s| - 1 - i]
  {
    if s == [] then [] else Reverse(s[1..]) + [s[0]]
  }
}
