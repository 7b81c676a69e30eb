/** `sort_values("Order")` of the options and sections tables: rows
    ordered by an integer key. Only the order by key and the multiset of
    rows are stated; how rows with equal keys are arranged is not. */
module Sorting {

  predicate SortedBy<T>(xs: seq<T>, key: T -> int)
  {
    forall i, j :: 0 <= i < j < |xs| ==> key(xs[i]) <= key(xs[j])
  }

  /** `x` put in front of the first element of `xs` with a larger key. */
  function Insert<T>(x: T, xs: seq<T>, key: T -> int): (r: seq<T>)
    ensures |r| == |xs| + 1
    ensures multiset(r) == multiset(xs) + multiset{x}
  {
    if xs == [] || key(x) <= key(xs[0]) then [x] + xs
    else
      assert xs == [xs[0]] + xs[1..];
      [xs[0]] + Insert(x, xs[1..], key)
  }

  function SortBy<T>(xs: seq<T>, key: T -> int): (r: seq<T>)
    ensures |r| == |xs|
    ensures multiset(r) == multiset(xs)
  {
    if xs == [] then []
    else
      assert xs == [xs[0]] + xs[1..];
      Insert(xs[0], SortBy(xs[1..], key), key)
  }

  /** Every element of `xs` has a key at least `k`. */
  predicate AllAtLeast<T>(xs: seq<T>, key: T -> int, k: int)
  {
    forall i :: 0 <= i < |xs| ==> k <= key(xs[i])
  }

  lemma {:induction false} InsertAtLeast<T>(x: T, xs: seq<T>, key: T -> int, k: int)
    requires k <= key(x) && AllAtLeast(xs, key, k)
    ensures AllAtLeast(Insert(x, xs, key), key, k)
  {
    var r := Insert(x, xs, key);
    if xs == [] || key(x) <= key(xs[0]) {
      assert forall i :: 1 <= i < |r| ==> r[i] == xs[i - 1];
    } else {
      InsertAtLeast(x, xs[1..], key, k);
      var rest := Insert(x, xs[1..], key);
      assert forall i :: 1 <= i < |r| ==> r[i] == rest[i - 1];
    }
  }

  lemma {:induction false} InsertSorted<T>(x: T, xs: seq<T>, key: T -> int)
    requires SortedBy(xs, key)
    ensures SortedBy(Insert(x, xs, key), key)
  {
    var r := Insert(x, xs, key);
    if xs == [] {
    } else if key(x) <= key(xs[0]) {
      assert forall i :: 1 <= i < |r| ==> r[i] == xs[i - 1];
    } else {
      var rest := Insert(x, xs[1..], key);
      InsertSorted(x, xs[1..], key);
      assert AllAtLeast(xs[1..], key, key(xs[0])) by {
        forall i | 0 <= i < |xs[1..]|
          ensures key(xs[0]) <= key(xs[1..][i])
        {
          assert xs[1..][i] == xs[i + 1];
        }
      }
      InsertAtLeast(x, xs[1..], key, key(xs[0]));
      forall i, j | 0 <= i < j < |r|
        ensures key(r[i]) <= key(r[j])
      {
        assert r[j] == rest[j - 1];
        if i > 0 {
          assert r[i] == rest[i - 1];
        }
      }
    }
  }

  /** The sorted rows are in non-decreasing key order. */
  lemma {:induction false} SortBySorted<T>(xs: seq<T>, key: T -> int)
    ensures SortedBy(SortBy(xs, key), key)
  {
    if xs != [] {
      SortBySorted(xs[1..], key);
      InsertSorted(xs[0], SortBy(xs[1..], key), key);
    }
  }

  /** Sorting keeps exactly the rows it was given. */
  lemma SortByMembers<T>(xs: seq<T>, key: T -> int, x: T)
    ensures x in SortBy(xs, key) <==> x in xs
  {
    assert x in SortBy(xs, key) <==> x in multiset(SortBy(xs, key));
    assert x in xs <==> x in multiset(xs);
  }
}
