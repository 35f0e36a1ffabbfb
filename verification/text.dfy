/**
 String operations the dashboard relies on: Python's `str.startswith`, `str.replace`
 with an empty replacement, `'\n'.join` (and `str.split`, its inverse), JavaScript's
 `String.prototype.trim`, and the lexicographic order both languages use on strings.
 */
module Text {

  /** `prefix` is a prefix of `s` (Python `s.startswith(prefix)`). */
  predicate StartsWith(s: string, prefix: string) {
    |prefix| <= |s| && s[..|prefix|] == prefix
  }

  /** `pat` occurs in `s` starting at index `i`. */
  predicate OccursAt(s: string, pat: string, i: int) {
    0 <= i && i + |pat| <= |s| && s[i..i + |pat|] == pat
  }

  /** `pat` occurs somewhere in `s`. */
  predicate Contains(s: string, pat: string) {
    exists i :: 0 <= i <= |s| && OccursAt(s, pat, i)
  }

  /**
   Python's `s.replace(pat, '')`: scan left to right, drop every non-overlapping
   occurrence of `pat`, keep every other character.
   */
  function RemoveAll(s: string, pat: string): (r: string)
    requires |pat| > 0
    ensures |r| <= |s|
    decreases |s|
  {
    if |s| < |pat| then s
    else if s[..|pat|] == pat then RemoveAll(s[|pat|..], pat)
    else [s[0]] + RemoveAll(s[1..], pat)
  }

  lemma {:induction false} RemoveAllWithoutOccurrence(s: string, pat: string)
    requires |pat| > 0 && !Contains(s, pat)
    ensures RemoveAll(s, pat) == s
    decreases |s|
  {
    if |s| >= |pat| {
      assert !OccursAt(s, pat, 0);
      forall i | OccursAt(s[1..], pat, i)
        ensures OccursAt(s, pat, i + 1)
      {
        assert s[1..][i..i + |pat|] == s[i + 1..i + 1 + |pat|];
      }
      assert !Contains(s[1..], pat);
      RemoveAllWithoutOccurrence(s[1..], pat);
    }
  }

  lemma {:induction false} RemoveAllShrinks(s: string, pat: string)
    requires |pat| > 0 && Contains(s, pat)
    ensures |RemoveAll(s, pat)| < |s|
    decreases |s|
  {
    var i :| 0 <= i <= |s| && OccursAt(s, pat, i);
    assert 0 <= i && i + |pat| <= |s|;
    if s[..|pat|] != pat {
      assert i != 0;
      assert s[1..][i - 1..i - 1 + |pat|] == s[i..i + |pat|];
      assert OccursAt(s[1..], pat, i - 1);
      RemoveAllShrinks(s[1..], pat);
    }
  }

  /** The replacement leaves `s` untouched exactly when `pat` does not occur in it. */
  lemma RemoveAllUnchangedIff(s: string, pat: string)
    requires |pat| > 0
    ensures RemoveAll(s, pat) == s <==> !Contains(s, pat)
  {
    if Contains(s, pat) {
      RemoveAllShrinks(s, pat);
    } else {
      RemoveAllWithoutOccurrence(s, pat);
    }
  }

  /** A leading `pat` followed by text free of `pat` is stripped, as a prefix strip would. */
  lemma LeadingOccurrenceStripped(pat: string, rest: string)
    requires |pat| > 0 && !Contains(rest, pat)
    ensures RemoveAll(pat + rest, pat) == rest
  {
    assert (pat + rest)[..|pat|] == pat;
    assert (pat + rest)[|pat|..] == rest;
    RemoveAllWithoutOccurrence(rest, pat);
  }

  /** No proper prefix of `pat` is also a suffix of it, so two occurrences can never overlap. */
  predicate BorderFree(pat: string) {
    forall k :: 0 < k < |pat| ==> pat[..k] != pat[|pat| - k..]
  }

  /** With a border-free pattern, a short head `a` cannot combine with a following `pat` into an occurrence. */
  lemma NoStraddlingOccurrence(a: string, pat: string, b: string)
    requires 0 < |a| < |pat| && BorderFree(pat)
    ensures (a + pat + b)[..|pat|] != pat
  {
    var s := a + pat + b;
    var k := |a|;
    assert pat[..|pat| - k] != pat[|pat| - (|pat| - k)..];
    assert s[..|pat|][k..] == pat[..|pat| - k];
  }

  /**
   For a border-free pattern the replacement is not anchored: an occurrence in the
   middle is removed, and the text on either side is processed independently.
   */
  lemma {:induction false} RemoveAllSplits(a: string, pat: string, b: string)
    requires |pat| > 0 && BorderFree(pat)
    ensures RemoveAll(a + pat + b, pat) == RemoveAll(a, pat) + RemoveAll(b, pat)
    decreases |a|, 1
  {
    var s := a + pat + b;
    if |a| == 0 {
      assert s == pat + b;
      assert s[..|pat|] == pat;
      assert s[|pat|..] == b;
    } else if |a| >= |pat| && a[..|pat|] == pat {
      assert s[..|pat|] == pat;
      assert s[|pat|..] == a[|pat|..] + pat + b;
      RemoveAllSplits(a[|pat|..], pat, b);
    } else {
      RemoveAllSplitsKeepHead(a, pat, b);
    }
  }

  /** The case of `RemoveAllSplits` where the scan keeps the first character of `a`. */
  lemma {:induction false} RemoveAllSplitsKeepHead(a: string, pat: string, b: string)
    requires |pat| > 0 && BorderFree(pat)
    requires |a| > 0 && (|a| < |pat| || a[..|pat|] != pat)
    ensures RemoveAll(a + pat + b, pat) == RemoveAll(a, pat) + RemoveAll(b, pat)
    decreases |a|, 0
  {
    var s := a + pat + b;
    var tail := RemoveAll(a[1..] + pat + b, pat);
    assert RemoveAll(s, pat) == [a[0]] + tail by {
      if |a| < |pat| {
        NoStraddlingOccurrence(a, pat, b);
      } else {
        assert s[..|pat|] == a[..|pat|];
      }
      RemoveAllKeepsHead(s, pat);
      assert s[1..] == a[1..] + pat + b;
    }
    assert RemoveAll(a, pat) == [a[0]] + RemoveAll(a[1..], pat) by {
      RemoveAllKeepsHead(a, pat);
    }
    assert tail == RemoveAll(a[1..], pat) + RemoveAll(b, pat) by {
      RemoveAllSplits(a[1..], pat, b);
    }
  }

  /** When `s` does not start with `pat`, its first character is kept. */
  lemma RemoveAllKeepsHead(s: string, pat: string)
    requires |pat| > 0 && |s| > 0 && (|s| < |pat| || s[..|pat|] != pat)
    ensures RemoveAll(s, pat) == [s[0]] + RemoveAll(s[1..], pat)
  {
    if |s| < |pat| {
      assert RemoveAll(s[1..], pat) == s[1..];
      assert s == [s[0]] + s[1..];
    }
  }

  /** The whitespace and line terminators JavaScript's `trim` removes (ECMA-262, WhiteSpace and LineTerminator). */
  predicate IsJsWhitespace(c: char) {
    var n := c as int;
    n == 0x09 || n == 0x0A || n == 0x0B || n == 0x0C || n == 0x0D || n == 0x20
    || n == 0xA0 || n == 0x1680 || (0x2000 <= n <= 0x200A) || n == 0x2028
    || n == 0x2029 || n == 0x202F || n == 0x205F || n == 0x3000 || n == 0xFEFF
  }

  predicate AllWhitespace(s: string) {
    forall i :: 0 <= i < |s| ==> IsJsWhitespace(s[i])
  }

  /** `r` sits at offset `lo` of `s` with only whitespace before and after it. */
  predicate Padded(s: string, lo: int, r: string) {
    0 <= lo && lo + |r| <= |s| && s[lo..lo + |r|] == r
    && AllWhitespace(s[..lo]) && AllWhitespace(s[lo + |r|..])
  }

  /** Neither end of `r` is whitespace. */
  predicate Tight(r: string) {
    |r| > 0 ==> !IsJsWhitespace(r[0]) && !IsJsWhitespace(r[|r| - 1])
  }

  function TrimStart(s: string): (r: string)
    ensures |r| <= |s| && r == s[|s| - |r|..]
    ensures AllWhitespace(s[..|s| - |r|])
    ensures |r| > 0 ==> !IsJsWhitespace(r[0])
  {
    if |s| > 0 && IsJsWhitespace(s[0]) then
      var r := TrimStart(s[1..]);
      assert s[..|s| - |r|] == [s[0]] + s[1..][..|s[1..]| - |r|];
      r
    else s
  }

  function TrimEnd(s: string): (r: string)
    ensures |r| <= |s| && r == s[..|r|]
    ensures AllWhitespace(s[|r|..])
    ensures |r| > 0 ==> !IsJsWhitespace(r[|r| - 1])
  {
    if |s| > 0 && IsJsWhitespace(s[|s| - 1]) then
      var r := TrimEnd(s[..|s| - 1]);
      assert s[|r|..] == s[..|s| - 1][|r|..] + [s[|s| - 1]];
      r
    else s
  }

  /** JavaScript's `s.trim()`: `s` without its leading and trailing whitespace. */
  function Trim(s: string): (r: string)
    ensures Tight(r)
    ensures exists lo :: Padded(s, lo, r)
  {
    var t := TrimStart(s);
    var r := TrimEnd(t);
    PaddedAfterTrims(s, t, r);
    r
  }

  /** Stripping whitespace from the front and then the back leaves `r` padded inside `s`. */
  lemma PaddedAfterTrims(s: string, t: string, r: string)
    requires |t| <= |s| && t == s[|s| - |t|..] && AllWhitespace(s[..|s| - |t|])
    requires |r| <= |t| && r == t[..|r|] && AllWhitespace(t[|r|..])
    ensures Padded(s, |s| - |t|, r)
  {
    var lo := |s| - |t|;
    assert s[lo..lo + |r|] == r;
    assert s[lo + |r|..] == t[|r|..];
  }

  lemma {:induction false} TrimStartUnique(p: string, r: string)
    requires AllWhitespace(p) && (|r| > 0 ==> !IsJsWhitespace(r[0]))
    ensures TrimStart(p + r) == r
    decreases |p|
  {
    if |p| > 0 {
      assert (p + r)[1..] == p[1..] + r;
      TrimStartUnique(p[1..], r);
    } else {
      assert p + r == r;
    }
  }

  lemma {:induction false} TrimEndUnique(r: string, q: string)
    requires AllWhitespace(q) && (|r| > 0 ==> !IsJsWhitespace(r[|r| - 1]))
    ensures TrimEnd(r + q) == r
    decreases |q|
  {
    if |q| > 0 {
      assert (r + q)[..|r + q| - 1] == r + q[..|q| - 1];
      TrimEndUnique(r, q[..|q| - 1]);
    } else {
      assert r + q == r;
    }
  }

  /** Trimming is determined by its result: whitespace around a tight core trims to that core. */
  lemma TrimUnique(p: string, r: string, q: string)
    requires AllWhitespace(p) && AllWhitespace(q) && Tight(r)
    ensures Trim(p + r + q) == r
  {
    if |r| == 0 {
      assert p + r + q == p + q;
      assert AllWhitespace(p + q);
      TrimStartUnique(p + q, "");
      assert p + q + "" == p + q;
      TrimEndUnique("", "");
    } else {
      assert p + r + q == p + (r + q);
      TrimStartUnique(p, r + q);
      TrimEndUnique(r, q);
    }
  }

  /** A tight core padded with whitespace trims to that core. */
  lemma TrimPadded(s: string, lo: int, r: string)
    requires Padded(s, lo, r) && Tight(r)
    ensures Trim(s) == r
  {
    assert s == s[..lo] + r + s[lo + |r|..];
    TrimUnique(s[..lo], r, s[lo + |r|..]);
  }

  /** Trimming twice changes nothing more. */
  lemma TrimIdempotent(s: string)
    ensures Trim(Trim(s)) == Trim(s)
  {
    var r := Trim(s);
    assert Padded(r, 0, r) by {
      assert r[..0] == [] && r[|r|..] == [];
    }
    TrimPadded(r, 0, r);
  }

  /**
   The comparison JavaScript's `<` and `>` and Python's `sorted` apply to strings:
   lexicographic by character, a proper prefix sorting first. Negative, zero or
   positive as `a` sorts before, equal to or after `b`.
   */
  function CompareStrings(a: string, b: string): (c: int)
    ensures -1 <= c <= 1
    ensures c == 0 <==> a == b
  {
    if |a| == 0 && |b| == 0 then 0
    else if |a| == 0 then -1
    else if |b| == 0 then 1
    else if a[0] < b[0] then -1
    else if a[0] > b[0] then 1
    else
      var c := CompareStrings(a[1..], b[1..]);
      assert a == [a[0]] + a[1..] && b == [b[0]] + b[1..];
      c
  }

  /** `a` sorts strictly before `b`. */
  predicate StrLess(a: string, b: string) {
    CompareStrings(a, b) < 0
  }

  lemma {:induction false} CompareStringsAntisymmetric(a: string, b: string)
    ensures CompareStrings(a, b) == -CompareStrings(b, a)
  {
    if |a| > 0 && |b| > 0 && a[0] == b[0] {
      CompareStringsAntisymmetric(a[1..], b[1..]);
    }
  }

  lemma {:induction false} StrLessTransitive(a: string, b: string, c: string)
    requires StrLess(a, b) && StrLess(b, c)
    ensures StrLess(a, c)
  {
    if |a| > 0 && a[0] == b[0] && b[0] == c[0] {
      StrLessTransitive(a[1..], b[1..], c[1..]);
    }
  }

  /** Two different strings are ordered one way or the other. */
  lemma StrLessTotal(a: string, b: string)
    requires a != b
    ensures StrLess(a, b) || StrLess(b, a)
  {
    CompareStringsAntisymmetric(a, b);
  }

  /**
   `a` and `b` agree on their first `k` characters, and there either `a` ends while `b`
   goes on, or `a` has the smaller character: `k` is where `a` sorts before `b`.
   */
  predicate FirstDifference(a: string, b: string, k: int) {
    0 <= k <= |a| && k <= |b| && a[..k] == b[..k]
    && (if k == |a| then k < |b| else k < |b| && a[k] < b[k])
  }

  /** Lexicographic order, stated without `CompareStrings`. */
  ghost predicate LexLess(a: string, b: string) {
    exists k :: FirstDifference(a, b, k)
  }

  /** A first difference in `a`'s favour makes `CompareStrings` answer -1. */
  lemma {:induction false} FirstDifferenceOrders(a: string, b: string, k: int)
    requires FirstDifference(a, b, k)
    ensures CompareStrings(a, b) == -1
    decreases k
  {
    if k > 0 {
      assert a[0] == a[..k][0] == b[..k][0] == b[0];
      assert a[1..][..k - 1] == a[..k][1..];
      assert b[1..][..k - 1] == b[..k][1..];
      FirstDifferenceOrders(a[1..], b[1..], k - 1);
    }
  }

  /** When `CompareStrings` answers -1, there is a first difference in `a`'s favour; returns it. */
  lemma {:induction false} OrderedHasFirstDifference(a: string, b: string) returns (k: int)
    requires CompareStrings(a, b) == -1
    ensures FirstDifference(a, b, k)
    decreases |a|
  {
    if |a| == 0 || a[0] < b[0] {
      k := 0;
    } else {
      var k' := OrderedHasFirstDifference(a[1..], b[1..]);
      k := k' + 1;
      assert a[..k] == [a[0]] + a[1..][..k'];
      assert b[..k] == [b[0]] + b[1..][..k'];
    }
  }

  /** `StrLess` is exactly lexicographic order: a proper prefix, or a smaller first differing character. */
  lemma StrLessIsLexicographic(a: string, b: string)
    ensures StrLess(a, b) <==> LexLess(a, b)
  {
    if StrLess(a, b) {
      var k := OrderedHasFirstDifference(a, b);
    }
    if LexLess(a, b) {
      var k :| FirstDifference(a, b, k);
      FirstDifferenceOrders(a, b, k);
    }
  }

  /** Python's `sep.join(parts)`. */
  function Join(parts: seq<string>, sep: string): (r: string)
    ensures |parts| == 1 ==> r == parts[0]
  {
    if |parts| == 0 then ""
    else if |parts| == 1 then parts[0]
    else parts[0] + sep + Join(parts[1..], sep)
  }

  /** Python's `s.split(sep)` for a one-character separator: always at least one part. */
  function Split(s: string, sep: char): (parts: seq<string>)
    ensures |parts| >= 1
    ensures forall i :: 0 <= i < |parts| ==> sep !in parts[i]
  {
    if |s| == 0 then [""]
    else if s[0] == sep then [""] + Split(s[1..], sep)
    else
      var rest := Split(s[1..], sep);
      [[s[0]] + rest[0]] + rest[1..]
  }

  lemma {:induction false} SplitAtFirstSeparator(x: string, sep: char, rest: string)
    requires sep !in x
    ensures Split(x + [sep] + rest, sep) == [x] + Split(rest, sep)
    decreases |x|
  {
    var s := x + [sep] + rest;
    if |x| == 0 {
      assert s == [sep] + rest;
      assert s[1..] == rest;
    } else {
      assert s[1..] == x[1..] + [sep] + rest;
      SplitAtFirstSeparator(x[1..], sep, rest);
      assert [x[0]] + x[1..] == x;
    }
  }

  lemma {:induction false} SplitWithoutSeparator(x: string, sep: char)
    requires sep !in x
    ensures Split(x, sep) == [x]
    decreases |x|
  {
    if |x| > 0 {
      SplitWithoutSeparator(x[1..], sep);
      assert [x[0]] + x[1..] == x;
    }
  }

  /** Splitting a joined list gives the parts back when no part contains the separator. */
  lemma {:induction false} SplitJoin(parts: seq<string>, sep: char)
    requires |parts| > 0
    requires forall i :: 0 <= i < |parts| ==> sep !in parts[i]
    ensures Split(Join(parts, [sep]), sep) == parts
  {
    if |parts| == 1 {
      SplitWithoutSeparator(parts[0], sep);
    } else {
      SplitJoin(parts[1..], sep);
      SplitAtFirstSeparator(parts[0], sep, Join(parts[1..], [sep]));
      assert [parts[0]] + parts[1..] == parts;
    }
  }

  /** Joining the parts of a split gives the original string back. */
  lemma {:induction false} JoinSplit(s: string, sep: char)
    ensures Join(Split(s, sep), [sep]) == s
  {
    if |s| > 0 {
      JoinSplit(s[1..], sep);
      var rest := Split(s[1..], sep);
      if s[0] == sep {
        assert Split(s, sep)[1..] == rest;
        assert s == [sep] + s[1..];
      } else if |rest| == 1 {
        assert s == [s[0]] + s[1..];
      } else {
        var parts := Split(s, sep);
        assert parts[1..] == rest[1..];
        assert Join(rest, [sep]) == rest[0] + [sep] + Join(rest[1..], [sep]);
        assert s == [s[0]] + s[1..];
      }
    }
  }
}
