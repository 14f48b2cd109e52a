/** Stable comparison sorting as `Stream.sorted(comparator)` and
    `Array.prototype.sort(comparator)` perform it, and Java's
    `String.compareToIgnoreCase`.

    A comparator is given as the relation "sorts no later than"; both
    runtimes only promise a sorted permutation when that relation is a total
    preorder, which is what `SortBy` requires. */
module Sorting {
  import opened Text

  /** Total and transitive: a consistent comparator. */
  ghost predicate TotalPreorder(le: (string, string) -> bool) {
    && (forall a, b :: le(a, b) || le(b, a))
    && (forall a, b, c :: le(a, b) && le(b, c) ==> le(a, c))
  }

  /** Non-decreasing by `key` under `le`. */
  ghost predicate SortedBy<T>(xs: seq<T>, key: T -> string, le: (string, string) -> bool) {
    forall i, j :: 0 <= i < j < |xs| ==> le(key(xs[i]), key(xs[j]))
  }

  /** Inserts `x` in front of the first element it sorts no later than. */
  function Insert<T>(x: T, xs: seq<T>, key: T -> string, le: (string, string) -> bool): (r: seq<T>)
    requires TotalPreorder(le)
    requires SortedBy(xs, key, le)
    ensures SortedBy(r, key, le)
    ensures multiset(r) == multiset(xs) + multiset{x}
  {
    if |xs| == 0 then [x]
    else if le(key(x), key(xs[0])) then
      ConsSorted(x, xs, key, le);
      [x] + xs
    else
      var rest := Insert(x, xs[1..], key, le);
      assert xs == [xs[0]] + xs[1..];
      BoundedAfterInsert(xs[0], rest, xs[1..], x, key, le);
      ConsSorted(xs[0], rest, key, le);
      [xs[0]] + rest
  }

  /** Putting in front an element that sorts no later than every element
      of a sorted sequence keeps it sorted. */
  lemma ConsSorted<T>(y: T, ys: seq<T>, key: T -> string, le: (string, string) -> bool)
    requires TotalPreorder(le)
    requires SortedBy(ys, key, le)
    requires |ys| == 0 || le(key(y), key(ys[0]))
    ensures SortedBy([y] + ys, key, le)
  {
    var zs := [y] + ys;
    forall i, j | 0 <= i < j < |zs|
      ensures le(key(zs[i]), key(zs[j]))
    {
      if i == 0 {
        if j > 1 {
          assert le(key(ys[0]), key(ys[j - 1]));
        }
      } else {
        assert zs[i] == ys[i - 1] && zs[j] == ys[j - 1];
      }
    }
  }

  /** `y` sorts no later than anything in `rest` when `rest` holds the
      elements of the sorted `ys` (all after `y`) and an `x` after `y`. */
  lemma BoundedAfterInsert<T>(y: T, rest: seq<T>, ys: seq<T>, x: T, key: T -> string,
                              le: (string, string) -> bool)
    requires TotalPreorder(le)
    requires SortedBy([y] + ys, key, le)
    requires !le(key(x), key(y))
    requires multiset(rest) == multiset(ys) + multiset{x}
    ensures |rest| == 0 || le(key(y), key(rest[0]))
  {
    if |rest| > 0 {
      assert rest[0] in multiset(rest);
      if rest[0] != x {
        assert rest[0] in multiset(ys);
        var j :| 0 <= j < |ys| && ys[j] == rest[0];
        var zs := [y] + ys;
        assert zs[0] == y && zs[j + 1] == ys[j];
        assert le(key(zs[0]), key(zs[j + 1]));
      } else {
        assert le(key(x), key(y)) || le(key(y), key(x));
      }
    }
  }

  /** Insertion sort: a permutation of `xs`, sorted by `key` under `le`.
      The contract says nothing about the relative order of elements with
      equal keys. */
  function SortBy<T>(xs: seq<T>, key: T -> string, le: (string, string) -> bool): (r: seq<T>)
    requires TotalPreorder(le)
    ensures SortedBy(r, key, le)
    ensures multiset(r) == multiset(xs)
    ensures |r| == |xs|
  {
    if |xs| == 0 then []
    else
      assert xs == [xs[0]] + xs[1..];
      Insert(xs[0], SortBy(xs[1..], key, le), key, le)
  }

  /** `String.compareToIgnoreCase`: the first position where the case-folded
      characters differ decides, by the difference of the folded code
      points; otherwise the shorter string sorts first. */
  function CompareIgnoreCase(a: string, b: string): int {
    if |a| == 0 || |b| == 0 then |a| - |b|
    else if LowerChar(a[0]) != LowerChar(b[0]) then LowerChar(a[0]) as int - LowerChar(b[0]) as int
    else CompareIgnoreCase(a[1..], b[1..])
  }

  /** The comparator's answer reversed is the answer for the swapped pair. */
  lemma {:induction false} CompareIgnoreCaseAntisymmetric(a: string, b: string)
    ensures CompareIgnoreCase(a, b) == -CompareIgnoreCase(b, a)
  {
    if |a| > 0 && |b| > 0 && LowerChar(a[0]) == LowerChar(b[0]) {
      CompareIgnoreCaseAntisymmetric(a[1..], b[1..]);
    }
  }

  /** Zero exactly for strings equal ignoring case. */
  lemma {:induction false} CompareIgnoreCaseZero(a: string, b: string)
    ensures CompareIgnoreCase(a, b) == 0 <==> EqualsIgnoreCase(a, b)
  {
    if |a| > 0 && |b| > 0 {
      CompareIgnoreCaseZero(a[1..], b[1..]);
      assert Lower(a) == [LowerChar(a[0])] + Lower(a[1..]);
      assert Lower(b) == [LowerChar(b[0])] + Lower(b[1..]);
    }
  }

  lemma {:induction false} CompareIgnoreCaseTransitive(a: string, b: string, c: string)
    requires CompareIgnoreCase(a, b) <= 0 && CompareIgnoreCase(b, c) <= 0
    ensures CompareIgnoreCase(a, c) <= 0
  {
    if |a| > 0 && |b| > 0 && |c| > 0 {
      if LowerChar(a[0]) == LowerChar(b[0]) && LowerChar(b[0]) == LowerChar(c[0]) {
        CompareIgnoreCaseTransitive(a[1..], b[1..], c[1..]);
      }
    }
  }

  /** "sorts no later than" for `compareToIgnoreCase`. */
  predicate LeIgnoreCase(a: string, b: string) {
    CompareIgnoreCase(a, b) <= 0
  }

  /** `compareToIgnoreCase` is a consistent comparator, so sorting by it
      yields a sorted permutation. */
  lemma LeIgnoreCaseIsTotalPreorder()
    ensures TotalPreorder(LeIgnoreCase)
  {
    forall a, b
      ensures LeIgnoreCase(a, b) || LeIgnoreCase(b, a)
    {
      CompareIgnoreCaseAntisymmetric(a, b);
    }
    forall a, b, c | LeIgnoreCase(a, b) && LeIgnoreCase(b, c)
      ensures LeIgnoreCase(a, c)
    {
      CompareIgnoreCaseTransitive(a, b, c);
    }
  }
}
