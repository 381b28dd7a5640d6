/** Sequence helpers shared by the model: order-keeping filters and concatenation of pages. */
module Seqs {

  /** The elements of `s` that satisfy `p`, in their original order (a list comprehension with an `if`). */
  function Filter<T>(s: seq<T>, p: T -> bool): (r: seq<T>)
    ensures |r| <= |s|
    ensures forall x :: x in r ==> x in s && p(x)
    ensures forall x :: x in s && p(x) ==> x in r
    ensures multiset(r) <= multiset(s)
  {
    if s == [] then []
    else
      assert s == [s[0]] + s[1..];
      if p(s[0]) then [s[0]] + Filter(s[1..], p) else Filter(s[1..], p)
  }

  /** Filtering one more element at the end: the loop that appends the elements passing `p`. */
  lemma {:induction false} FilterSnoc<T>(s: seq<T>, x: T, p: T -> bool)
    ensures Filter(s + [x], p) == Filter(s, p) + (if p(x) then [x] else [])
  {
    if s != [] {
      var t := s + [x];
      assert t[0] == s[0] && t[1..] == s[1..] + [x];
      FilterSnoc(s[1..], x, p);
      var tail := if p(x) then [x] else [];
      if p(s[0]) {
        calc {
          Filter(t, p);
          [s[0]] + Filter(s[1..] + [x], p);
          [s[0]] + (Filter(s[1..], p) + tail);
          ([s[0]] + Filter(s[1..], p)) + tail;
        }
      } else {
        calc {
          Filter(t, p);
          Filter(s[1..] + [x], p);
          Filter(s[1..], p) + tail;
        }
      }
    }
  }

  /** `sub` is obtained from `s` by deleting elements, the rest keeping their order. */
  ghost predicate IsSubsequence<T>(sub: seq<T>, s: seq<T>)
    decreases |s|
  {
    if sub == [] then true
    else if s == [] then false
    else if sub[0] == s[0] then IsSubsequence(sub[1..], s[1..])
    else IsSubsequence(sub, s[1..])
  }

  lemma {:induction false} FilterIsSubsequence<T>(s: seq<T>, p: T -> bool)
    ensures IsSubsequence(Filter(s, p), s)
  {
    if s != [] {
      FilterIsSubsequence(s[1..], p);
      if !p(s[0]) {
        var r := Filter(s[1..], p);
        SubsequenceOfTail(r, s);
      }
    }
  }

  lemma {:induction false} SubsequenceOfTail<T>(sub: seq<T>, s: seq<T>)
    requires s != [] && IsSubsequence(sub, s[1..])
    ensures IsSubsequence(sub, s)
    decreases |s|, |sub|
  {
    if sub != [] && sub[0] == s[0] {
      // sub[1..] is a subsequence of s[1..] as well
      SubsequenceDropHead(sub, s[1..]);
    }
  }

  lemma {:induction false} SubsequenceDropHead<T>(sub: seq<T>, s: seq<T>)
    requires sub != [] && IsSubsequence(sub, s)
    ensures IsSubsequence(sub[1..], s)
    decreases |s|, |sub|
  {
    if s != [] {
      if sub[0] == s[0] {
        if sub[1..] != [] {
          SubsequenceOfTail(sub[1..], s);
        }
      } else {
        SubsequenceDropHead(sub, s[1..]);
        if sub[1..] != [] {
          SubsequenceOfTail(sub[1..], s);
        }
      }
    }
  }

  /** Concatenation of a sequence of pages, in order (repeated `list.extend`). */
  function Flatten<T>(pages: seq<seq<T>>): (r: seq<T>)
    ensures forall i, x :: 0 <= i < |pages| && x in pages[i] ==> x in r
    ensures forall x :: x in r ==> exists i :: 0 <= i < |pages| && x in pages[i]
  {
    if pages == [] then []
    else
      var r := Flatten(pages[..|pages| - 1]) + pages[|pages| - 1];
      assert forall i :: 0 <= i < |pages| - 1 ==> pages[..|pages| - 1][i] == pages[i];
      r
  }
}
