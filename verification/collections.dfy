/**
 Listings of finite sets. Go's `for k := range m` visits every key of a map exactly once,
 in an order the runtime picks afresh on every loop; the model states that order only as
 "some listing of the key set".
 */
module Collections {

  /** No element occurs twice in `xs`. */
  ghost predicate Distinct<T>(xs: seq<T>)
  {
    forall i, j :: 0 <= i < j < |xs| ==> xs[i] != xs[j]
  }

  /** `xs` lists every element of `s` exactly once and nothing else. */
  ghost predicate IsListing<T>(xs: seq<T>, s: set<T>)
  {
    && Distinct(xs)
    && (forall i :: 0 <= i < |xs| ==> xs[i] in s)
    && (forall x :: x in s ==> x in xs)
  }

  /** A repetition-free sequence is as long as the set of its elements. */
  lemma {:induction false} DistinctCardinality<T>(xs: seq<T>)
    requires Distinct(xs)
    ensures |set x | x in xs| == |xs|
  {
    if |xs| > 0 {
      var init := xs[..|xs| - 1];
      var last := xs[|xs| - 1];
      DistinctCardinality(init);
      assert (set x | x in xs) == (set x | x in init) + {last} by {
        forall x | x in xs ensures x in init || x == last {
          var i :| 0 <= i < |xs| && xs[i] == x;
          if i < |xs| - 1 { assert init[i] == x; }
        }
      }
      assert last !in init;
    }
  }

  /** Every listing of `s` has exactly |s| elements. */
  lemma ListingLength<T>(xs: seq<T>, s: set<T>)
    requires IsListing(xs, s)
    ensures |xs| == |s|
  {
    DistinctCardinality(xs);
    assert (set x | x in xs) == s;
  }

  /**
   The order in which Go's `range` walks a map's keys: some repetition-free listing of
   the key set, chosen nondeterministically.
   */
  method Enumerate<T>(s: set<T>) returns (xs: seq<T>)
    ensures IsListing(xs, s)
    ensures |xs| == |s|
  {
    xs := [];
    var rest := s;
    while rest != {}
      invariant rest <= s
      invariant forall i :: 0 <= i < |xs| ==> xs[i] in s && xs[i] !in rest
      invariant forall x :: x in s ==> x in xs || x in rest
      invariant Distinct(xs)
      decreases |rest|
    {
      var x :| x in rest;
      xs := xs + [x];
      rest := rest - {x};
    }
    ListingLength(xs, s);
  }
}
