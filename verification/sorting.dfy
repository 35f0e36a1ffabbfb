/**
 A stable sort driven by a three-way comparator callback, the contract of JavaScript's
 `Array.prototype.sort(compareFn)` (stable since ES2019) and of Python's `list.sort`
 (stable, including with `reverse=True`).
 */
module Sorting {

  /** Swapping the arguments negates the answer. */
  ghost predicate Antisymmetric<T(!new)>(cmp: (T, T) -> int) {
    forall a, b :: cmp(a, b) == -cmp(b, a)
  }

  /** Elements that tie compare alike against everything else. */
  ghost predicate TiesAgree<T(!new)>(cmp: (T, T) -> int) {
    forall a, b, c :: cmp(a, b) == 0 ==> cmp(a, c) == cmp(b, c)
  }

  /** A comparator `sort` can rely on. */
  ghost predicate Consistent<T(!new)>(cmp: (T, T) -> int) {
    Antisymmetric(cmp) && TiesAgree(cmp)
  }

  /** No adjacent pair is out of order: the comparator never puts the later element first. */
  predicate Sorted<T>(xs: seq<T>, cmp: (T, T) -> int) {
    |xs| < 2 || (cmp(xs[0], xs[1]) <= 0 && Sorted(xs[1..], cmp))
  }

  /** Puts `x` after the elements that sort strictly before it and ahead of those that tie with it. */
  function Insert<T(!new)>(x: T, xs: seq<T>, cmp: (T, T) -> int): (r: seq<T>)
    requires Antisymmetric(cmp) && Sorted(xs, cmp)
    ensures Sorted(r, cmp)
    ensures multiset(r) == multiset(xs) + multiset{x}
    ensures |xs| > 0 ==> r[0] == x || r[0] == xs[0]
  {
    if |xs| == 0 then [x]
    else if cmp(xs[0], x) < 0 then
      var rest := Insert(x, xs[1..], cmp);
      assert multiset(xs) == multiset{xs[0]} + multiset(xs[1..]) by {
        assert xs == [xs[0]] + xs[1..];
      }
      var r := [xs[0]] + rest;
      assert r[1..] == rest;
      r
    else
      var r := [x] + xs;
      assert r[1..] == xs;
      r
  }

  /** `xs` sorted stably by `cmp`: insertion sort, each element placed ahead of the later ones it ties with. */
  function Sort<T(!new)>(xs: seq<T>, cmp: (T, T) -> int): (r: seq<T>)
    requires Antisymmetric(cmp)
    ensures Sorted(r, cmp)
    ensures multiset(r) == multiset(xs)
  {
    if |xs| == 0 then []
    else
      assert xs == [xs[0]] + xs[1..];
      Insert(xs[0], Sort(xs[1..], cmp), cmp)
  }

  /** A list that is already in order is left exactly as it is. */
  lemma {:induction false} SortSorted<T(!new)>(xs: seq<T>, cmp: (T, T) -> int)
    requires Antisymmetric(cmp) && Sorted(xs, cmp)
    ensures Sort(xs, cmp) == xs
  {
    if |xs| > 0 {
      SortSorted(xs[1..], cmp);
      if |xs| > 1 {
        assert cmp(xs[1], xs[0]) == -cmp(xs[0], xs[1]);
      }
      assert [xs[0]] + xs[1..] == xs;
    }
  }

  /**
   Where the last element of `front + [x]` sits in a permutation `b` of it, and what is
   left of `b` without it: a permutation of `front`.
   */
  lemma RemoveMatching<T>(front: seq<T>, x: T, b: seq<T>) returns (j: int)
    requires multiset(front + [x]) == multiset(b)
    ensures 0 <= j < |b| && b[j] == x
    ensures b == b[..j] + [x] + b[j + 1..]
    ensures multiset(front) == multiset(b[..j] + b[j + 1..])
  {
    assert x in multiset(front + [x]);
    j :| 0 <= j < |b| && b[j] == x;
    var left, right := b[..j], b[j + 1..];
    assert b == left + [x] + right;
    var m, l, r := multiset(front), multiset(left), multiset(right);
    assert m + multiset{x} == l + multiset{x} + r by {
      assert multiset(front + [x]) == m + multiset{x};
      assert multiset(b) == l + multiset{x} + r;
    }
    forall y
      ensures m[y] == (l + r)[y]
    {
      assert (m + multiset{x})[y] == (l + multiset{x} + r)[y];
    }
    assert m == l + r;
    assert multiset(left + right) == l + r;
  }

  /** The elements of `xs` that tie with `k`, in their order in `xs`. */
  function TiesWith<T>(xs: seq<T>, cmp: (T, T) -> int, k: T): seq<T> {
    if |xs| == 0 then []
    else (if cmp(xs[0], k) == 0 then [xs[0]] else []) + TiesWith(xs[1..], cmp, k)
  }

  lemma {:induction false} InsertTies<T(!new)>(x: T, xs: seq<T>, cmp: (T, T) -> int, k: T)
    requires Consistent(cmp) && Sorted(xs, cmp)
    ensures TiesWith(Insert(x, xs, cmp), cmp, k)
         == (if cmp(x, k) == 0 then [x] else []) + TiesWith(xs, cmp, k)
    decreases |xs|, 1
  {
    if |xs| == 0 {
      TiesWithCons(x, [], cmp, k);
      assert [x] + [] == [x];
    } else if cmp(xs[0], x) < 0 {
      InsertTiesPastHead(x, xs, cmp, k);
    } else {
      TiesWithCons(x, xs, cmp, k);
    }
  }

  /** The case of `InsertTies` where `x` is inserted after the head of `xs`. */
  lemma {:induction false} InsertTiesPastHead<T(!new)>(x: T, xs: seq<T>, cmp: (T, T) -> int, k: T)
    requires Consistent(cmp) && Sorted(xs, cmp) && |xs| > 0 && cmp(xs[0], x) < 0
    ensures TiesWith(Insert(x, xs, cmp), cmp, k)
         == (if cmp(x, k) == 0 then [x] else []) + TiesWith(xs, cmp, k)
    decreases |xs|, 0
  {
    InsertTies(x, xs[1..], cmp, k);
    var rest := Insert(x, xs[1..], cmp);
    assert Insert(x, xs, cmp) == [xs[0]] + rest;
    assert cmp(xs[0], k) == 0 ==> cmp(xs[0], x) == cmp(k, x);
    TiesPastHead(xs[0], rest, xs[1..], x, cmp, k);
    assert [xs[0]] + xs[1..] == xs;
  }

  /** Moving `x` past a head `h` that sorts strictly before it does not reorder the ties with `k`. */
  lemma TiesPastHead<T>(h: T, rest: seq<T>, t: seq<T>, x: T, cmp: (T, T) -> int, k: T)
    requires cmp(h, k) == 0 ==> cmp(x, k) != 0
    requires TiesWith(rest, cmp, k) == (if cmp(x, k) == 0 then [x] else []) + TiesWith(t, cmp, k)
    ensures TiesWith([h] + rest, cmp, k)
         == (if cmp(x, k) == 0 then [x] else []) + TiesWith([h] + t, cmp, k)
  {
    TiesWithCons(h, rest, cmp, k);
    TiesWithCons(h, t, cmp, k);
    if cmp(h, k) == 0 {
      assert TiesWith(rest, cmp, k) == TiesWith(t, cmp, k);
    } else if cmp(x, k) == 0 {
      assert TiesWith([h] + rest, cmp, k) == TiesWith(rest, cmp, k);
      assert TiesWith([h] + t, cmp, k) == TiesWith(t, cmp, k);
    } else {
      assert TiesWith([h] + rest, cmp, k) == TiesWith(t, cmp, k);
      assert TiesWith([h] + t, cmp, k) == TiesWith(t, cmp, k);
    }
  }

  /** `TiesWith` of a list with a known head. */
  lemma TiesWithCons<T>(h: T, t: seq<T>, cmp: (T, T) -> int, k: T)
    ensures TiesWith([h] + t, cmp, k) == (if cmp(h, k) == 0 then [h] else []) + TiesWith(t, cmp, k)
  {
    var s := [h] + t;
    assert s[0] == h && s[1..] == t;
    if cmp(h, k) == 0 {
      assert TiesWith(s, cmp, k) == [h] + TiesWith(t, cmp, k);
    } else {
      assert TiesWith(s, cmp, k) == [] + TiesWith(t, cmp, k);
    }
  }

  /** Stability: the elements that tie with any given `k` keep their original relative order. */
  lemma {:induction false} SortStable<T(!new)>(xs: seq<T>, cmp: (T, T) -> int, k: T)
    requires Consistent(cmp)
    ensures TiesWith(Sort(xs, cmp), cmp, k) == TiesWith(xs, cmp, k)
  {
    if |xs| > 0 {
      SortStable(xs[1..], cmp, k);
      InsertTies(xs[0], Sort(xs[1..], cmp), cmp, k);
    }
  }
}
