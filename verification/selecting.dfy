/**
 Keeping the elements of a list that satisfy a test, in order: the shape of
 JavaScript's `Array.prototype.filter`, and of a loop that appends a result for some
 inputs and skips the others.
 */
module Selecting {
  import opened Wrappers

  /** `xs.filter(f)`: the elements for which `f` holds, in their original order. */
  function Keep<T(!new)>(xs: seq<T>, f: T -> bool): (r: seq<T>)
    ensures |r| <= |xs|
  {
    if |xs| == 0 then [] else (if f(xs[0]) then [xs[0]] else []) + Keep(xs[1..], f)
  }

  /** Each value is kept as often as it occurs when `f` holds of it, and not at all otherwise. */
  lemma {:induction false} KeepCounts<T(!new)>(xs: seq<T>, f: T -> bool)
    ensures forall x :: multiset(Keep(xs, f))[x] == if f(x) then multiset(xs)[x] else 0
  {
    if |xs| > 0 {
      KeepCounts(xs[1..], f);
      assert xs == [xs[0]] + xs[1..];
    }
  }

  /** `Keep` on a list with a known head. */
  lemma KeepCons<T(!new)>(x: T, xs: seq<T>, f: T -> bool)
    ensures Keep([x] + xs, f) == (if f(x) then [x] else []) + Keep(xs, f)
  {
    assert ([x] + xs)[0] == x && ([x] + xs)[1..] == xs;
  }

  /** `xs` is `ys` with some elements left out and the rest in their original order. */
  predicate SubsequenceOf<T(==)>(xs: seq<T>, ys: seq<T>)
    decreases |ys|
  {
    |xs| == 0
    || (|ys| > 0
        && ((xs[0] == ys[0] && SubsequenceOf(xs[1..], ys[1..])) || SubsequenceOf(xs, ys[1..])))
  }

  /** Filtering drops elements but never reorders them. */
  lemma {:induction false} KeepIsSubsequence<T(!new)>(xs: seq<T>, f: T -> bool)
    ensures SubsequenceOf(Keep(xs, f), xs)
  {
    if |xs| > 0 {
      KeepIsSubsequence(xs[1..], f);
      var r := Keep(xs, f);
      if f(xs[0]) {
        assert r == [xs[0]] + Keep(xs[1..], f);
        assert r[0] == xs[0] && r[1..] == Keep(xs[1..], f);
      } else {
        assert r == Keep(xs[1..], f);
      }
    }
  }

  /** Filtering by `f` and then by `g` keeps what a filter by "both `f` and `g`" keeps. */
  lemma {:induction false} KeepKeep<T(!new)>(xs: seq<T>, f: T -> bool, g: T -> bool, h: T -> bool)
    requires forall x :: h(x) == (f(x) && g(x))
    ensures Keep(Keep(xs, f), g) == Keep(xs, h)
  {
    if |xs| > 0 {
      var x := xs[0];
      KeepKeep(xs[1..], f, g, h);
      assert h(x) == (f(x) && g(x));
      if f(x) {
        assert Keep(xs, f) == [x] + Keep(xs[1..], f);
        KeepCons(x, Keep(xs[1..], f), g);
      } else {
        assert Keep(xs, f) == Keep(xs[1..], f);
        assert Keep(xs, h) == Keep(xs[1..], h);
      }
    }
  }

  /** Two filters give the same result in either order. */
  lemma {:induction false} KeepCommutes<T(!new)>(xs: seq<T>, f: T -> bool, g: T -> bool)
    ensures Keep(Keep(xs, f), g) == Keep(Keep(xs, g), f)
  {
    if |xs| > 0 {
      var x := xs[0];
      KeepCommutes(xs[1..], f, g);
      if f(x) {
        assert Keep(xs, f) == [x] + Keep(xs[1..], f);
        KeepCons(x, Keep(xs[1..], f), g);
      } else {
        assert Keep(xs, f) == Keep(xs[1..], f);
      }
      if g(x) {
        assert Keep(xs, g) == [x] + Keep(xs[1..], g);
        KeepCons(x, Keep(xs[1..], g), f);
      } else {
        assert Keep(xs, g) == Keep(xs[1..], g);
      }
    }
  }

  /** A filter that keeps everything returns the list unchanged. */
  lemma {:induction false} KeepEverything<T(!new)>(xs: seq<T>, f: T -> bool)
    requires forall x :: f(x)
    ensures Keep(xs, f) == xs
  {
    if |xs| > 0 {
      KeepEverything(xs[1..], f);
      assert [xs[0]] + xs[1..] == xs;
    }
  }

  /** Filtering a concatenation filters each part. */
  lemma {:induction false} KeepAppend<T(!new)>(a: seq<T>, b: seq<T>, f: T -> bool)
    ensures Keep(a + b, f) == Keep(a, f) + Keep(b, f)
  {
    if |a| > 0 {
      assert (a + b)[0] == a[0] && (a + b)[1..] == a[1..] + b;
      KeepAppend(a[1..], b, f);
    } else {
      assert a + b == b;
    }
  }

  /** Two tests that agree on every element keep the same elements. */
  lemma {:induction false} KeepSameTest<T(!new)>(xs: seq<T>, f: T -> bool, g: T -> bool)
    requires forall x :: f(x) == g(x)
    ensures Keep(xs, f) == Keep(xs, g)
  {
    if |xs| > 0 {
      KeepSameTest(xs[1..], f, g);
      assert f(xs[0]) == g(xs[0]);
    }
  }

  /** Lists holding the same elements keep the same elements, however they are ordered. */
  lemma KeepPermutation<T(!new)>(xs: seq<T>, ys: seq<T>, f: T -> bool)
    requires multiset(xs) == multiset(ys)
    ensures multiset(Keep(xs, f)) == multiset(Keep(ys, f))
  {
    KeepCounts(xs, f);
    KeepCounts(ys, f);
  }

  /** The results `f` gives for the elements of `xs`, in order, skipping each `None`. */
  function Collect<A, B>(xs: seq<A>, f: A -> Option<B>): (r: seq<B>)
    ensures |r| <= |xs|
  {
    if |xs| == 0 then []
    else
      var front := Collect(xs[..|xs| - 1], f);
      match f(xs[|xs| - 1])
      case None => front
      case Some(y) => front + [y]
  }

  /** Collecting works element by element: the results of a concatenation are the concatenated results. */
  lemma {:induction false} CollectAppend<A, B>(a: seq<A>, b: seq<A>, f: A -> Option<B>)
    ensures Collect(a + b, f) == Collect(a, f) + Collect(b, f)
    decreases |b|
  {
    if |b| > 0 {
      var b' := b[..|b| - 1];
      assert (a + b)[..|a + b| - 1] == a + b';
      assert (a + b)[|a + b| - 1] == b[|b| - 1];
      CollectAppend(a, b', f);
    } else {
      assert a + b == a;
    }
  }

  /** A single element contributes its result, or nothing. */
  lemma CollectSingle<A, B>(x: A, f: A -> Option<B>)
    ensures Collect([x], f) == (if f(x).Some? then [f(x).value] else [])
  {
    assert [x][..0] == [];
  }

  /** The positions of the elements whose result is present, in increasing order. */
  function Sources<A, B>(xs: seq<A>, f: A -> Option<B>): (idx: seq<int>)
    ensures forall k :: 0 <= k < |idx| ==> 0 <= idx[k] < |xs| && f(xs[idx[k]]).Some?
    ensures forall k, l :: 0 <= k < l < |idx| ==> idx[k] < idx[l]
  {
    if |xs| == 0 then []
    else
      var front := xs[..|xs| - 1];
      var idx := Sources(front, f);
      assert forall i :: 0 <= i < |front| ==> front[i] == xs[i];
      if f(xs[|xs| - 1]).Some? then idx + [|xs| - 1] else idx
  }

  /** Every element whose result is present is among the sources. */
  lemma {:induction false} SourcesComplete<A, B>(xs: seq<A>, f: A -> Option<B>, i: int)
    requires 0 <= i < |xs| && f(xs[i]).Some?
    ensures i in Sources(xs, f)
  {
    var front := xs[..|xs| - 1];
    if i < |front| {
      assert front[i] == xs[i];
      SourcesComplete(front, f, i);
    }
  }

  /** The k-th collected result is the result of the k-th source. */
  lemma {:induction false} CollectFromSources<A, B>(xs: seq<A>, f: A -> Option<B>)
    ensures |Collect(xs, f)| == |Sources(xs, f)|
    ensures forall k :: 0 <= k < |Sources(xs, f)| ==> Some(Collect(xs, f)[k]) == f(xs[Sources(xs, f)[k]])
  {
    if |xs| > 0 {
      var front := xs[..|xs| - 1];
      CollectFromSources(front, f);
      var ys, idx := Collect(front, f), Sources(front, f);
      forall k | 0 <= k < |Sources(xs, f)|
        ensures Some(Collect(xs, f)[k]) == f(xs[Sources(xs, f)[k]])
      {
        if k < |idx| {
          assert Sources(xs, f)[k] == idx[k];
          assert Collect(xs, f)[k] == ys[k];
          assert xs[idx[k]] == front[idx[k]];
        }
      }
    }
  }
}
