/**
 Strictly ascending lists of strings: the shape of Python's `sorted(set_of_names)` and
 of JavaScript's `Array.from(set).sort()`, both of which turn a set of names into a
 duplicate-free list in string order.
 */
module Ordered {
  import opened Text

  /** Every element sorts strictly before every later element. */
  predicate StrictlyAscending(xs: seq<string>) {
    forall i, j :: 0 <= i < j < |xs| ==> StrLess(xs[i], xs[j])
  }

  /** A strictly ascending list holds no name twice. */
  lemma AscendingIsDistinct(xs: seq<string>)
    requires StrictlyAscending(xs)
    ensures forall i, j :: 0 <= i < |xs| && 0 <= j < |xs| && i != j ==> xs[i] != xs[j]
  {
    forall i, j | 0 <= i < |xs| && 0 <= j < |xs| && i != j
      ensures xs[i] != xs[j]
    {
      if i < j {
        assert StrLess(xs[i], xs[j]);
      } else {
        assert StrLess(xs[j], xs[i]);
      }
    }
  }

  /** Adds `x` to the ascending list `xs` at its place, unless it is already there. */
  function InsertName(x: string, xs: seq<string>): (r: seq<string>)
    requires StrictlyAscending(xs)
    ensures StrictlyAscending(r)
    ensures forall y :: y in r <==> y == x || y in xs
  {
    if |xs| == 0 then [x]
    else if x == xs[0] then xs
    else if StrLess(x, xs[0]) then
      forall j | 0 < j < |xs|
        ensures StrLess(x, xs[j])
      {
        StrLessTransitive(x, xs[0], xs[j]);
      }
      [x] + xs
    else
      StrLessTotal(x, xs[0]);
      var rest := InsertName(x, xs[1..]);
      assert forall y :: y in xs <==> y == xs[0] || y in xs[1..] by {
        assert xs == [xs[0]] + xs[1..];
      }
      forall j | 0 <= j < |rest|
        ensures StrLess(xs[0], rest[j])
      {
        if rest[j] != x {
          assert rest[j] in rest;
          assert rest[j] in xs[1..];
          var k :| 0 <= k < |xs[1..]| && xs[1..][k] == rest[j];
          assert xs[k + 1] == rest[j];
        }
      }
      [xs[0]] + rest
  }

  /**
   The names of `s` as a strictly ascending list: Python's `sorted(...)` of a set of keys,
   or JavaScript's `Array.from(set).sort()`.
   */
  method SortedSet(s: set<string>) returns (r: seq<string>)
    ensures StrictlyAscending(r)
    ensures forall x :: x in r <==> x in s
  {
    r := [];
    var rest := s;
    while rest != {}
      invariant StrictlyAscending(r)
      invariant forall x :: x in s <==> x in r || x in rest
      decreases rest
    {
      var x :| x in rest;
      r := InsertName(x, r);
      rest := rest - {x};
    }
  }

  /** The first name of a strictly ascending list sorts before every other name in it. */
  lemma HeadIsLeast(xs: seq<string>, y: string)
    requires StrictlyAscending(xs) && |xs| > 0 && y in xs && y != xs[0]
    ensures StrLess(xs[0], y)
  {
    var k :| 0 <= k < |xs| && xs[k] == y;
  }

  /** In a duplicate-free list, the tail holds exactly the elements other than the head. */
  lemma TailMembership(xs: seq<string>, x: string)
    requires StrictlyAscending(xs) && |xs| > 0
    ensures x in xs[1..] <==> x in xs && x != xs[0]
  {
    assert xs == [xs[0]] + xs[1..];
    if x in xs[1..] {
      var k :| 0 <= k < |xs[1..]| && xs[1..][k] == x;
      assert StrLess(xs[0], xs[k + 1]);
    }
  }

  /**
   A set of names has only one strictly ascending arrangement, so whichever way it is
   computed, the sorted list of a set is determined by the set alone.
   */
  lemma {:induction false} AscendingUnique(xs: seq<string>, ys: seq<string>)
    requires StrictlyAscending(xs) && StrictlyAscending(ys)
    requires forall x :: x in xs <==> x in ys
    ensures xs == ys
    decreases |xs|
  {
    assert |xs| > 0 ==> xs[0] in ys;
    assert |ys| > 0 ==> ys[0] in xs;
    if |xs| > 0 && |ys| > 0 {
      if xs[0] != ys[0] {
        HeadIsLeast(xs, ys[0]);
        HeadIsLeast(ys, xs[0]);
        CompareStringsAntisymmetric(xs[0], ys[0]);
        assert false;
      }
      AscendingIsDistinct(xs);
      AscendingIsDistinct(ys);
      forall x
        ensures x in xs[1..] <==> x in ys[1..]
      {
        TailMembership(xs, x);
        TailMembership(ys, x);
      }
      AscendingUnique(xs[1..], ys[1..]);
      assert xs == [xs[0]] + xs[1..];
      assert ys == [ys[0]] + ys[1..];
    }
  }
}
