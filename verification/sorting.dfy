/**
 * Insertion sort over a strict order given as a function value. It stands for Python's
 * `list.sort(key=...)`, whose key comparison is a strict order on the elements.
 */
module Sorting {

  import Seqs

  /** `less` is irreflexive and transitive. */
  ghost predicate StrictOrder<T(!new)>(less: (T, T) -> bool) {
    && (forall x :: !less(x, x))
    && (forall x, y, z :: less(x, y) && less(y, z) ==> less(x, z))
  }

  /** No element is strictly smaller than one before it. */
  ghost predicate SortedBy<T>(s: seq<T>, less: (T, T) -> bool) {
    forall i, j :: 0 <= i < j < |s| ==> !less(s[j], s[i])
  }

  /** Places `x` in front of the first element it is strictly smaller than. */
  function Insert<T>(x: T, s: seq<T>, less: (T, T) -> bool): (r: seq<T>)
    ensures |r| == |s| + 1
  {
    if s == [] then [x]
    else if less(x, s[0]) then [x] + s
    else
      assert s == [s[0]] + s[1..];
      [s[0]] + Insert(x, s[1..], less)
  }

  /** The elements of `s` sorted by `less`. */
  function SortBy<T>(s: seq<T>, less: (T, T) -> bool): (r: seq<T>)
    ensures |r| == |s|
  {
    if s == [] then []
    else
      assert s == s[..|s| - 1] + [s[|s| - 1]];
      Insert(s[|s| - 1], SortBy(s[..|s| - 1], less), less)
  }

  /** `Insert` adds exactly `x`. */
  lemma {:induction false} InsertPermutes<T>(x: T, s: seq<T>, less: (T, T) -> bool)
    ensures multiset(Insert(x, s, less)) == multiset(s) + multiset{x}
  {
    if s != [] && !less(x, s[0]) {
      InsertPermutes(x, s[1..], less);
      assert s == [s[0]] + s[1..];
    }
  }

  /** `SortBy` only reorders. */
  lemma {:induction false} SortByPermutes<T>(s: seq<T>, less: (T, T) -> bool)
    ensures multiset(SortBy(s, less)) == multiset(s)
  {
    if s != [] {
      SortByPermutes(s[..|s| - 1], less);
      InsertPermutes(s[|s| - 1], SortBy(s[..|s| - 1], less), less);
      assert s == s[..|s| - 1] + [s[|s| - 1]];
    }
  }

  lemma {:induction false} InsertSorted<T(!new)>(x: T, s: seq<T>, less: (T, T) -> bool)
    requires StrictOrder(less) && SortedBy(s, less)
    ensures SortedBy(Insert(x, s, less), less)
  {
    if s == [] {
    } else if less(x, s[0]) {
      var r := [x] + s;
      forall j | 1 <= j < |r| ensures !less(r[j], r[0]) {
        assert !less(s[j - 1], s[0]);
      }
    } else {
      var t := Insert(x, s[1..], less);
      InsertSorted(x, s[1..], less);
      InsertPermutes(x, s[1..], less);
      var r := [s[0]] + t;
      forall j | 1 <= j < |r| ensures !less(r[j], s[0]) {
        assert r[j] in multiset(t);
        assert r[j] == x || r[j] in s[1..];
      }
    }
  }

  /** `SortBy` returns a sorted permutation of its input. */
  lemma {:induction false} SortBySorted<T(!new)>(s: seq<T>, less: (T, T) -> bool)
    requires StrictOrder(less)
    ensures SortedBy(SortBy(s, less), less)
    ensures multiset(SortBy(s, less)) == multiset(s)
  {
    if s != [] {
      SortBySorted(s[..|s| - 1], less);
      InsertSorted(s[|s| - 1], SortBy(s[..|s| - 1], less), less);
    }
    SortByPermutes(s, less);
  }

  /** Filtering a sorted sequence keeps it sorted: a comprehension preserves the order it walks. */
  lemma {:induction false} FilterKeepsSorted<T>(s: seq<T>, p: T -> bool, less: (T, T) -> bool)
    requires SortedBy(s, less)
    ensures SortedBy(Seqs.Filter(s, p), less)
  {
    if s != [] {
      FilterKeepsSorted(s[1..], p, less);
      if p(s[0]) {
        var t := Seqs.Filter(s[1..], p);
        var r := [s[0]] + t;
        forall j | 1 <= j < |r| ensures !less(r[j], s[0]) {
          assert r[j] in t;
          assert r[j] in s[1..];
        }
      }
    }
  }
}
