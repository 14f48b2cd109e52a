/** Order-preserving selection over sequences: the `filter` of Java streams
    and JavaScript arrays, and `slice(0, n)`. */
module Seqs {

  /** The elements of `xs` satisfying `p`, in their original order. */
  function Filter<T>(xs: seq<T>, p: T -> bool): (r: seq<T>)
    ensures |r| <= |xs|
    ensures forall i :: 0 <= i < |r| ==> p(r[i]) && r[i] in xs
    ensures forall i :: 0 <= i < |xs| && p(xs[i]) ==> xs[i] in r
  {
    if |xs| == 0 then []
    else
      assert xs == [xs[0]] + xs[1..];
      (if p(xs[0]) then [xs[0]] else []) + Filter(xs[1..], p)
  }

  lemma FilterCons<T>(x: T, xs: seq<T>, p: T -> bool)
    ensures Filter([x] + xs, p) == (if p(x) then [x] else []) + Filter(xs, p)
  {
    assert ([x] + xs)[1..] == xs;
  }

  /** Filtering keeps every occurrence of an accepted value and none of a
      rejected one. */
  lemma {:induction false} FilterMultiset<T>(xs: seq<T>, p: T -> bool)
    ensures forall x :: multiset(Filter(xs, p))[x] == if p(x) then multiset(xs)[x] else 0
  {
    if |xs| > 0 {
      FilterMultiset(xs[1..], p);
      assert xs == [xs[0]] + xs[1..];
      assert multiset(xs) == multiset([xs[0]]) + multiset(xs[1..]);
    }
  }

  /** Filtering commutes with concatenation: the selection keeps the
      relative order of the elements it keeps. */
  lemma {:induction false} FilterConcat<T>(xs: seq<T>, ys: seq<T>, p: T -> bool)
    ensures Filter(xs + ys, p) == Filter(xs, p) + Filter(ys, p)
  {
    if |xs| == 0 {
      assert xs + ys == ys;
    } else {
      assert (xs + ys)[1..] == xs[1..] + ys;
      FilterConcat(xs[1..], ys, p);
    }
  }

  /** Filtering keeps everything exactly when every element passes. */
  lemma {:induction false} FilterAll<T>(xs: seq<T>, p: T -> bool)
    requires forall i :: 0 <= i < |xs| ==> p(xs[i])
    ensures Filter(xs, p) == xs
  {
    if |xs| > 0 {
      FilterAll(xs[1..], p);
    }
  }

  /** Filtering by predicates that agree on the elements gives the same result. */
  lemma {:induction false} FilterCongruent<T>(xs: seq<T>, p: T -> bool, q: T -> bool)
    requires forall i :: 0 <= i < |xs| ==> p(xs[i]) == q(xs[i])
    ensures Filter(xs, p) == Filter(xs, q)
  {
    if |xs| > 0 {
      FilterCongruent(xs[1..], p, q);
    }
  }

  /** Two filters in a row keep exactly what both predicates accept. */
  lemma {:induction false} FilterFilter<T>(xs: seq<T>, p: T -> bool, q: T -> bool, both: T -> bool)
    requires forall x :: both(x) == (p(x) && q(x))
    ensures Filter(Filter(xs, p), q) == Filter(xs, both)
  {
    if |xs| > 0 {
      FilterFilter(xs[1..], p, q, both);
      var inner := Filter(xs[1..], p);
      assert Filter(xs, p) == (if p(xs[0]) then [xs[0]] else []) + inner;
      assert Filter(xs, both) == (if both(xs[0]) then [xs[0]] else []) + Filter(xs[1..], both);
      assert both(xs[0]) == (p(xs[0]) && q(xs[0]));
      if p(xs[0]) {
        FilterCons(xs[0], inner, q);
        assert Filter(Filter(xs, p), q) == (if q(xs[0]) then [xs[0]] else []) + Filter(inner, q);
      } else {
        assert Filter(xs, p) == inner;
        assert Filter(xs, both) == Filter(xs[1..], both);
      }
    }
  }

  /** `xs` can be obtained from `ys` by deleting elements. */
  ghost predicate IsSubsequence<T>(xs: seq<T>, ys: seq<T>)
    decreases |ys|
  {
    if |xs| == 0 then true
    else if |ys| == 0 then false
    else (xs[0] == ys[0] && IsSubsequence(xs[1..], ys[1..])) || IsSubsequence(xs, ys[1..])
  }

  lemma {:induction false} SubsequenceRefl<T>(xs: seq<T>)
    ensures IsSubsequence(xs, xs)
  {
    if |xs| > 0 {
      SubsequenceRefl(xs[1..]);
    }
  }

  /** A filter is a subsequence of its input. */
  lemma {:induction false} FilterIsSubsequence<T>(xs: seq<T>, p: T -> bool)
    ensures IsSubsequence(Filter(xs, p), xs)
  {
    if |xs| > 0 {
      FilterIsSubsequence(xs[1..], p);
      var tail := Filter(xs[1..], p);
      var r := Filter(xs, p);
      if p(xs[0]) {
        assert r == [xs[0]] + tail;
        assert r[1..] == tail;
        assert IsSubsequence(r[1..], xs[1..]);
      } else {
        assert r == tail;
        assert IsSubsequence(r, xs[1..]);
      }
    }
  }

  /** `slice(0, n)`: the first `min(n, |xs|)` elements. */
  function Take<T>(xs: seq<T>, n: nat): (r: seq<T>)
    ensures |r| == if n < |xs| then n else |xs|
    ensures r == xs[..|r|]
  {
    if n < |xs| then xs[..n] else xs
  }

  /** `map` over a sequence. */
  function Map<T, U>(xs: seq<T>, f: T -> U): (r: seq<U>)
    ensures |r| == |xs|
    ensures forall i :: 0 <= i < |xs| ==> r[i] == f(xs[i])
  {
    seq(|xs|, i requires 0 <= i < |xs| => f(xs[i]))
  }

  /** The images of a filter are the images of exactly the selected elements. */
  lemma MapFilterMembers<T, U>(xs: seq<T>, p: T -> bool, f: T -> U)
    ensures forall y :: y in Map(Filter(xs, p), f) <==> exists x :: x in xs && p(x) && y == f(x)
  {
    var found := Filter(xs, p);
    var r := Map(found, f);
    forall y
      ensures y in r <==> exists x :: x in xs && p(x) && y == f(x)
    {
      if y in r {
        var i :| 0 <= i < |r| && r[i] == y;
        assert found[i] in xs && p(found[i]) && y == f(found[i]);
      }
      if exists x :: x in xs && p(x) && y == f(x) {
        var x :| x in xs && p(x) && y == f(x);
        var j :| 0 <= j < |found| && found[j] == x;
        assert r[j] == y;
      }
    }
  }

  /** Mapping distributes over concatenation. */
  lemma MapConcat<T, U>(xs: seq<T>, ys: seq<T>, f: T -> U)
    ensures Map(xs + ys, f) == Map(xs, f) + Map(ys, f)
  {
  }

  /** Removing position `j` removes one occurrence of `ys[j]`. */
  lemma MultisetRemove<T>(ys: seq<T>, j: nat)
    requires j < |ys|
    ensures multiset(ys) == multiset(ys[..j] + ys[j + 1..]) + multiset{ys[j]}
  {
    assert ys == ys[..j] + [ys[j]] + ys[j + 1..];
  }

  /** Mapping commutes with removing one position. */
  lemma MapRemove<T, U>(ys: seq<T>, j: nat, f: T -> U)
    requires j < |ys|
    ensures multiset(Map(ys, f)) == multiset(Map(ys[..j] + ys[j + 1..], f)) + multiset{f(ys[j])}
  {
    var m := Map(ys, f);
    assert Map(ys[..j] + ys[j + 1..], f) == m[..j] + m[j + 1..];
    MultisetRemove(m, j);
  }

  /** Removing matching elements from both sides reduces mapped
      permutations to mapped permutations. */
  lemma MapRemoveBoth<T, U>(xs: seq<T>, ys: seq<T>, j: nat, f: T -> U)
    requires 0 < |xs| && j < |ys| && ys[j] == xs[0]
    requires multiset(Map(xs[..0] + xs[1..], f)) == multiset(Map(ys[..j] + ys[j + 1..], f))
    ensures multiset(Map(xs, f)) == multiset(Map(ys, f))
  {
    MapRemove(xs, 0, f);
    MapRemove(ys, j, f);
  }

  /** Multisets cancel a common element. */
  lemma MultisetCancel<T>(a: multiset<T>, b: multiset<T>, x: T)
    requires a + multiset{x} == b + multiset{x}
    ensures a == b
  {
    assert a == (a + multiset{x}) - multiset{x};
    assert b == (b + multiset{x}) - multiset{x};
  }

  /** A position holding `x`, for an `x` that occurs in `ys`. */
  lemma IndexOf<T>(ys: seq<T>, x: T) returns (j: nat)
    requires x in multiset(ys)
    ensures j < |ys| && ys[j] == x
  {
    assert x in ys;
    j :| 0 <= j < |ys| && ys[j] == x;
  }

  /** Mapping two permutations of each other gives permutations of each
      other. */
  lemma {:induction false} MapPermutation<T, U>(xs: seq<T>, ys: seq<T>, f: T -> U)
    requires multiset(xs) == multiset(ys)
    ensures multiset(Map(xs, f)) == multiset(Map(ys, f))
  {
    if |xs| > 0 {
      var x := xs[0];
      assert x in multiset(xs);
      var j := IndexOf(ys, x);
      var tail := xs[..0] + xs[1..];
      var rest := ys[..j] + ys[j + 1..];
      MultisetRemove(xs, 0);
      MultisetRemove(ys, j);
      MultisetCancel(multiset(tail), multiset(rest), x);
      MapPermutation(tail, rest, f);
      MapRemoveBoth(xs, ys, j, f);
    } else {
      assert |multiset(ys)| == |ys| == 0;
      assert Map(xs, f) == [] == Map(ys, f);
    }
  }
}
