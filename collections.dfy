/**
 * Sequence operations the plugin takes from Ruby's and ActiveRecord's libraries:
 * `uniq` (first occurrences, in order), `compact`, and `order(:position)`.
 */
module Collections {
  import opened Wrappers

  predicate NoDuplicates<T(==)>(xs: seq<T>) {
    forall i, j :: 0 <= i < j < |xs| ==> xs[i] != xs[j]
  }

  /** `uniq`: the first occurrence of each element, in order. */
  function Dedup<T(==, !new)>(xs: seq<T>): (r: seq<T>)
    ensures NoDuplicates(r)
    ensures forall x :: x in r <==> x in xs
    ensures |r| <= |xs|
  {
    if xs == [] then []
    else
      var front := Dedup(xs[..|xs| - 1]);
      var x := xs[|xs| - 1];
      assert forall y :: y in xs <==> y in xs[..|xs| - 1] || y == x;
      if x in front then front else front + [x]
  }

  /** A sequence without repeats is its own `uniq`. */
  lemma {:induction false} DedupOfDistinct<T(!new)>(xs: seq<T>)
    requires NoDuplicates(xs)
    ensures Dedup(xs) == xs
  {
    if xs != [] {
      var front := xs[..|xs| - 1];
      DedupOfDistinct(front);
      assert xs[|xs| - 1] !in front;
      assert front + [xs[|xs| - 1]] == xs;
    }
  }

  /** Ruby's `select` and JavaScript's `filter`: the elements that satisfy `keep`, in order. */
  function Filter<T(!new)>(xs: seq<T>, keep: T -> bool): (r: seq<T>)
    ensures |r| <= |xs|
    ensures forall i :: 0 <= i < |r| ==> keep(r[i])
    ensures forall x :: x in r <==> x in xs && keep(x)
    ensures r == [] <==> forall i :: 0 <= i < |xs| ==> !keep(xs[i])
  {
    if xs == [] then []
    else
      var front := Filter(xs[..|xs| - 1], keep);
      var last := xs[|xs| - 1];
      assert forall x :: x in xs <==> x in xs[..|xs| - 1] || x == last;
      if keep(last) then front + [last] else front
  }

  /** `compact`: the present values, in order. */
  function Compact<T>(xs: seq<Option<T>>): (r: seq<T>)
    ensures |r| <= |xs|
  {
    if xs == [] then []
    else Compact(xs[..|xs| - 1]) + (if xs[|xs| - 1].Some? then [xs[|xs| - 1].value] else [])
  }

  lemma {:induction false} CompactMembers<T>(xs: seq<Option<T>>, x: T)
    ensures x in Compact(xs) <==> Some(x) in xs
  {
    if xs != [] {
      CompactMembers(xs[..|xs| - 1], x);
      assert forall o :: o in xs <==> o in xs[..|xs| - 1] || o == xs[|xs| - 1];
    }
  }

  /** Ruby's `a - b`: the elements of `a` that are not in `b`, in order, repeats kept. */
  function Without<T(==)>(xs: seq<T>, ys: seq<T>): (r: seq<T>)
    ensures |r| <= |xs|
  {
    if xs == [] then []
    else Without(xs[..|xs| - 1], ys) + (if xs[|xs| - 1] in ys then [] else [xs[|xs| - 1]])
  }

  lemma {:induction false} WithoutMembers<T>(xs: seq<T>, ys: seq<T>, x: T)
    ensures x in Without(xs, ys) <==> x in xs && x !in ys
  {
    if xs != [] {
      WithoutMembers(xs[..|xs| - 1], ys, x);
      assert x in xs <==> x in xs[..|xs| - 1] || x == xs[|xs| - 1];
    }
  }

  predicate SortedBy<T>(xs: seq<T>, key: T -> int) {
    forall i, j :: 0 <= i < j < |xs| ==> key(xs[i]) <= key(xs[j])
  }

  /** Inserts `x` into a sorted sequence after every element whose key is not greater. */
  function Insert<T>(x: T, xs: seq<T>, key: T -> int): seq<T> {
    if xs == [] then [x]
    else if key(x) < key(xs[0]) then [x] + xs
    else [xs[0]] + Insert(x, xs[1..], key)
  }

  /** `order(:position)`: a stable sort by key. */
  function SortBy<T>(xs: seq<T>, key: T -> int): seq<T> {
    if xs == [] then [] else Insert(xs[|xs| - 1], SortBy(xs[..|xs| - 1], key), key)
  }

  lemma {:induction false} InsertSorted<T>(x: T, xs: seq<T>, key: T -> int)
    requires SortedBy(xs, key)
    ensures SortedBy(Insert(x, xs, key), key)
    ensures |Insert(x, xs, key)| == |xs| + 1
    ensures Insert(x, xs, key)[0] == x || (xs != [] && Insert(x, xs, key)[0] == xs[0])
    decreases |xs|
  {
    if xs != [] && key(x) >= key(xs[0]) {
      var rest := xs[1..];
      InsertSorted(x, rest, key);
      var r := Insert(x, rest, key);
      assert key(xs[0]) <= key(r[0]);
      assert forall i :: 0 <= i < |r| ==> key(r[0]) <= key(r[i]);
      assert Insert(x, xs, key) == [xs[0]] + r;
    }
  }

  lemma {:induction false} InsertMultiset<T>(x: T, xs: seq<T>, key: T -> int)
    ensures multiset(Insert(x, xs, key)) == multiset(xs) + multiset{x}
    decreases |xs|
  {
    if xs != [] && key(x) >= key(xs[0]) {
      InsertMultiset(x, xs[1..], key);
      assert xs == [xs[0]] + xs[1..];
    }
  }

  /** The sort's result is ordered by key. */
  lemma {:induction false} SortBySorted<T>(xs: seq<T>, key: T -> int)
    ensures SortedBy(SortBy(xs, key), key)
    ensures |SortBy(xs, key)| == |xs|
  {
    if xs != [] {
      SortBySorted(xs[..|xs| - 1], key);
      InsertSorted(xs[|xs| - 1], SortBy(xs[..|xs| - 1], key), key);
    }
  }

  /** The sort's result holds exactly the input's elements, as often as the input does. */
  lemma {:induction false} SortByPermutes<T>(xs: seq<T>, key: T -> int)
    ensures multiset(SortBy(xs, key)) == multiset(xs)
  {
    if xs != [] {
      SortByPermutes(xs[..|xs| - 1], key);
      InsertMultiset(xs[|xs| - 1], SortBy(xs[..|xs| - 1], key), key);
      assert xs == xs[..|xs| - 1] + [xs[|xs| - 1]];
    }
  }

  lemma {:induction false} InsertLast<T>(x: T, xs: seq<T>, key: T -> int)
    requires forall i :: 0 <= i < |xs| ==> key(xs[i]) <= key(x)
    ensures Insert(x, xs, key) == xs + [x]
    decreases |xs|
  {
    if xs != [] {
      var rest := xs[1..];
      assert forall i :: 0 <= i < |rest| ==> rest[i] == xs[i + 1];
      InsertLast(x, rest, key);
      assert key(x) >= key(xs[0]);
      assert Insert(x, xs, key) == [xs[0]] + Insert(x, rest, key);
      assert xs == [xs[0]] + rest;
    }
  }

  /** A sequence already in key order is left as it is. */
  lemma {:induction false} SortByOfSorted<T>(xs: seq<T>, key: T -> int)
    requires SortedBy(xs, key)
    ensures SortBy(xs, key) == xs
  {
    if xs != [] {
      var front := xs[..|xs| - 1];
      SortByOfSorted(front, key);
      InsertLast(xs[|xs| - 1], front, key);
      assert front + [xs[|xs| - 1]] == xs;
    }
  }
}
