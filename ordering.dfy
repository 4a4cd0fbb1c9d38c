/**
 * `ORDER BY <key>`: a stable insertion sort of rows by an integer key. SQL leaves the
 * order of rows with equal keys unspecified; this sort keeps their table order, and
 * the contracts promise only what SQL promises (sorted, and the same rows).
 */
module Ordering {

  /** Keys never decrease along `xs`. */
  ghost predicate SortedBy<T>(xs: seq<T>, key: T -> int) {
    forall i, j :: 0 <= i < j < |xs| ==> key(xs[i]) <= key(xs[j])
  }

  /** A row whose key is at most the head's keeps a sorted sequence sorted when put in front. */
  lemma SortedCons<T>(h: T, xs: seq<T>, key: T -> int)
    requires SortedBy(xs, key)
    requires xs != [] ==> key(h) <= key(xs[0])
    ensures SortedBy([h] + xs, key)
  {
    var r := [h] + xs;
    forall i, j | 0 <= i < j < |r| ensures key(r[i]) <= key(r[j]) {
      if i == 0 && j > 1 {
        assert r[j] == xs[j - 1] && key(xs[0]) <= key(xs[j - 1]);
      }
    }
  }

  /**
   * `x` placed in front of the first element of `xs` whose key is not smaller: the
   * same rows plus `x`, headed by `x` or by the old head.
   */
  function Insert<T>(x: T, xs: seq<T>, key: T -> int): (r: seq<T>)
    ensures multiset(r) == multiset(xs) + multiset{x}
    ensures |r| == |xs| + 1
    ensures r[0] == x || (xs != [] && r[0] == xs[0])
  {
    if xs == [] then [x]
    else if key(x) <= key(xs[0]) then [x] + xs
    else
      assert xs == [xs[0]] + xs[1..];
      var rest := Insert(x, xs[1..], key);
      assert multiset([xs[0]] + rest) == multiset{xs[0]} + multiset(xs[1..]) + multiset{x};
      [xs[0]] + rest
  }

  /** Inserting into a sorted sequence keeps it sorted. */
  lemma {:induction false} InsertSorted<T>(x: T, xs: seq<T>, key: T -> int)
    requires SortedBy(xs, key)
    ensures SortedBy(Insert(x, xs, key), key)
  {
    if xs == [] {
    } else if key(x) <= key(xs[0]) {
      SortedCons(x, xs, key);
    } else {
      var tail := xs[1..];
      assert SortedBy(tail, key) by {
        forall i, j | 0 <= i < j < |tail| ensures key(tail[i]) <= key(tail[j]) {
          assert tail[i] == xs[i + 1] && tail[j] == xs[j + 1];
        }
      }
      InsertSorted(x, tail, key);
      var rest := Insert(x, tail, key);
      // the head of `rest` is `x` or `xs[1]`, both with keys at least key(xs[0])
      assert rest[0] == x || rest[0] == xs[1];
      SortedCons(xs[0], rest, key);
    }
  }

  /** The rows of `xs` ordered by ascending `key`. */
  function SortBy<T>(xs: seq<T>, key: T -> int): (r: seq<T>)
    ensures SortedBy(r, key)
    ensures multiset(r) == multiset(xs)
    ensures |r| == |xs|
  {
    if xs == [] then []
    else
      assert xs == [xs[0]] + xs[1..];
      var sorted := SortBy(xs[1..], key);
      InsertSorted(xs[0], sorted, key);
      Insert(xs[0], sorted, key)
  }

  /** Sorting keeps exactly the rows it was given. */
  lemma SortByMembers<T>(xs: seq<T>, key: T -> int, x: T)
    ensures x in SortBy(xs, key) <==> x in xs
  {
    var r := SortBy(xs, key);
    assert x in r <==> x in multiset(r);
    assert x in xs <==> x in multiset(xs);
  }
}
