/** Sequence helpers shared by the list comprehensions and filtering loops of the model. */
module Seqs {

  /** No element occurs twice. */
  predicate NoDup<T(==)>(s: seq<T>) {
    forall i, j :: 0 <= i < j < |s| ==> s[i] != s[j]
  }

  /** Appending an element that is not there keeps a list free of duplicates. */
  lemma NoDupAppend<T>(s: seq<T>, x: T)
    requires NoDup(s) && x !in s
    ensures NoDup(s + [x])
  {
  }

  /** A list is its first `|pre|` elements followed by its last one. */
  lemma SeqSnoc<T>(a: seq<T>, pre: seq<T>, last: T)
    requires |a| == |pre| + 1 && a[|pre|] == last
    requires forall k :: 0 <= k < |pre| ==> a[k] == pre[k]
    ensures a == pre + [last]
  {
  }

  lemma PrefixTrans<T>(a: seq<T>, b: seq<T>, c: seq<T>)
    requires a <= b && b <= c
    ensures a <= c
  {
    assert a == b[..|a|] == c[..|a|];
  }

  /** `[x for x in s if p(x)]`, defined from the right end so that a loop that walks
      `s` from left to right extends it one element at a time. */
  function Filter<T>(s: seq<T>, p: T -> bool): (r: seq<T>)
    ensures |r| <= |s|
    ensures forall i :: 0 <= i < |r| ==> r[i] in s && p(r[i])
    ensures forall i :: 0 <= i < |s| && p(s[i]) ==> s[i] in r
  {
    if s == [] then []
    else Filter(s[..|s| - 1], p) + (if p(s[|s| - 1]) then [s[|s| - 1]] else [])
  }

  /** Filtering distributes over concatenation, so it keeps the relative order of `s`. */
  lemma {:induction false} FilterConcat<T>(a: seq<T>, b: seq<T>, p: T -> bool)
    ensures Filter(a + b, p) == Filter(a, p) + Filter(b, p)
  {
    if b == [] {
      assert a + b == a;
    } else {
      var b' := b[..|b| - 1];
      assert (a + b)[..|a + b| - 1] == a + b';
      FilterConcat(a, b', p);
    }
  }

  /** Filtering removes exactly the elements that fail `p`. */
  lemma {:induction false} FilterMultiset<T>(s: seq<T>, p: T -> bool, x: T)
    ensures multiset(Filter(s, p))[x] == if p(x) then multiset(s)[x] else 0
  {
    if s != [] {
      var s' := s[..|s| - 1];
      assert s == s' + [s[|s| - 1]];
      FilterMultiset(s', p, x);
    }
  }

  /** Every element of `s` satisfies `p` exactly when filtering by `p` changes nothing. */
  lemma {:induction false} FilterAll<T>(s: seq<T>, p: T -> bool)
    requires forall i :: 0 <= i < |s| ==> p(s[i])
    ensures Filter(s, p) == s
  {
    if s != [] {
      FilterAll(s[..|s| - 1], p);
      assert s[..|s| - 1] + [s[|s| - 1]] == s;
    }
  }

  /** Two elements that `p` does not both keep can be filtered in either order. */
  lemma FilterSingletonsCommute<T>(x: T, y: T, p: T -> bool)
    requires !(p(x) && p(y))
    ensures Filter([x], p) + Filter([y], p) == Filter([y], p) + Filter([x], p)
  {
    assert Filter([x], p) == (if p(x) then [x] else []);
    assert Filter([y], p) == (if p(y) then [y] else []);
  }
}
