/**
 The boost record shared by the extractor and the page script, the column order the
 table sorts by, the stable sort both sides use, and the podcast-to-episodes index.
 */
module Boosts {
  import opened Text
  import opened Sorting

  /**
   One boost: a paid keysend invoice with its podcast metadata. `timestamp` is the
   invoice's `paid_at` in epoch seconds; `value` is in satoshis, the received
   millisatoshi amount divided by 1000 and kept exact.
   */
  datatype Boost = Boost(
    timestamp: int,
    podcast: string,
    episode: string,
    sender: string,
    message: string,
    value: real)

  /** The table columns whose header carries a sort handler (the message column has none). */
  datatype Column = Timestamp | Podcast | Episode | Sender | Value

  /** A cell value as the page script compares it: a number or a string. */
  datatype Key = Num(n: real) | Str(s: string)

  /** `boost[key]` in the page script: a number for the date and value columns, a string otherwise. */
  function KeyOf(b: Boost, col: Column): (k: Key)
    ensures k.Num? <==> col == Timestamp || col == Value
  {
    match col
    case Timestamp => Num(b.timestamp as real)
    case Podcast => Str(b.podcast)
    case Episode => Str(b.episode)
    case Sender => Str(b.sender)
    case Value => Num(b.value)
  }

  /** `x < y` in the page script: numeric order for numbers, lexicographic order for strings. */
  predicate KeyBefore(x: Key, y: Key)
    requires x.Num? == y.Num?
  {
    if x.Num? then x.n < y.n else StrLess(x.s, y.s)
  }

  /** Two cell values of one column: -1, 0 or 1 as JavaScript's `<` and `>` order them. */
  function CompareKeys(x: Key, y: Key): (c: int)
    requires x.Num? == y.Num?
    ensures -1 <= c <= 1
    ensures c == -1 <==> KeyBefore(x, y)
    ensures c == 1 <==> KeyBefore(y, x)
    ensures c == 0 <==> x == y
  {
    if x.Num? then
      if x.n < y.n then -1 else if x.n > y.n then 1 else 0
    else
      CompareStringsAntisymmetric(x.s, y.s);
      CompareStrings(x.s, y.s)
  }

  /**
   The table's comparator for a column and direction: `compare` when ascending and
   `-compare` when descending, where `compare` is -1, 0 or 1 as the cells order.
   */
  function Comparator(col: Column, ascending: bool): (cmp: (Boost, Boost) -> int)
    ensures forall a, b :: cmp(a, b) < 0
              <==> if ascending then KeyBefore(KeyOf(a, col), KeyOf(b, col))
                   else KeyBefore(KeyOf(b, col), KeyOf(a, col))
    ensures forall a, b :: cmp(a, b) == 0 <==> KeyOf(a, col) == KeyOf(b, col)
  {
    (a: Boost, b: Boost) =>
      var c := CompareKeys(KeyOf(a, col), KeyOf(b, col));
      if ascending then c else -c
  }

  /** The comparator meets what a stable sort needs of it. */
  lemma ComparatorConsistent(col: Column, ascending: bool)
    ensures Consistent(Comparator(col, ascending))
  {
  }

  /**
   The boosts sorted by a column in a direction, ties kept in their incoming order:
   the page's `filteredBoosts.sort(...)` and, for the date column descending, the
   extractor's `boosts.sort(key=timestamp, reverse=True)`.
   */
  function SortBy(bs: seq<Boost>, col: Column, ascending: bool): (r: seq<Boost>)
    ensures multiset(r) == multiset(bs)
    ensures Sorted(r, Comparator(col, ascending))
  {
    ComparatorConsistent(col, ascending);
    Sort(bs, Comparator(col, ascending))
  }

  /**
   Stability: the rows whose cell in the sort column equals that of `k` (the rows that
   tie with `k`) appear in the sorted list in the same relative order as in `bs`.
   */
  lemma SortByStable(bs: seq<Boost>, col: Column, ascending: bool, k: Boost)
    ensures forall e :: Comparator(col, ascending)(e, k) == 0 <==> KeyOf(e, col) == KeyOf(k, col)
    ensures TiesWith(SortBy(bs, col, ascending), Comparator(col, ascending), k)
         == TiesWith(bs, Comparator(col, ascending), k)
  {
    ComparatorConsistent(col, ascending);
    SortStable(bs, Comparator(col, ascending), k);
  }

  /** Newest first: after a descending date sort, no row is newer than any row above it. */
  lemma {:induction false} DescendingTimestamps(bs: seq<Boost>)
    requires Sorted(bs, Comparator(Timestamp, false))
    ensures forall i, j :: 0 <= i < j < |bs| ==> bs[i].timestamp >= bs[j].timestamp
  {
    if |bs| > 1 {
      DescendingTimestamps(bs[1..]);
      assert bs[0].timestamp >= bs[1].timestamp;
      forall i, j | 0 <= i < j < |bs|
        ensures bs[i].timestamp >= bs[j].timestamp
      {
        if i == 0 && j > 1 {
          assert bs[1..][0].timestamp >= bs[1..][j - 1].timestamp;
        } else if i > 0 {
          assert bs[1..][i - 1].timestamp >= bs[1..][j - 1].timestamp;
        }
      }
    }
  }

  /** Conversely, a list that is newest first is in order for the descending date sort. */
  lemma {:induction false} NewestFirstSorted(bs: seq<Boost>)
    requires forall i, j :: 0 <= i < j < |bs| ==> bs[i].timestamp >= bs[j].timestamp
    ensures Sorted(bs, Comparator(Timestamp, false))
  {
    if |bs| > 1 {
      assert bs[0].timestamp >= bs[1].timestamp;
      NewestFirstSorted(bs[1..]);
    }
  }

  /** `podcast_episode_map`: each podcast mapped to the set of its episodes. */
  function EpisodeIndex(bs: seq<Boost>): (m: map<string, set<string>>)
    ensures forall p :: p in m <==> exists i :: 0 <= i < |bs| && bs[i].podcast == p
  {
    if |bs| == 0 then map[]
    else
      var front := bs[..|bs| - 1];
      var b := bs[|bs| - 1];
      var m := EpisodeIndex(front);
      assert forall i :: 0 <= i < |front| ==> front[i] == bs[i];
      m[b.podcast := (if b.podcast in m then m[b.podcast] else {}) + {b.episode}]
  }

  /** The episodes listed under a podcast are exactly those of the boosts for that podcast. */
  lemma {:induction false} EpisodeIndexEpisodes(bs: seq<Boost>, p: string, e: string)
    requires p in EpisodeIndex(bs)
    ensures e in EpisodeIndex(bs)[p]
        <==> exists i :: 0 <= i < |bs| && bs[i].podcast == p && bs[i].episode == e
  {
    if e in EpisodeIndex(bs)[p] {
      var i := EpisodeIndexWitness(bs, p, e);
    }
    if exists i :: 0 <= i < |bs| && bs[i].podcast == p && bs[i].episode == e {
      var i :| 0 <= i < |bs| && bs[i].podcast == p && bs[i].episode == e;
      EpisodeIndexHas(bs, i);
    }
  }

  /** Every boost's episode is listed under its podcast. */
  lemma {:induction false} EpisodeIndexHas(bs: seq<Boost>, i: int)
    requires 0 <= i < |bs|
    ensures bs[i].podcast in EpisodeIndex(bs)
    ensures bs[i].episode in EpisodeIndex(bs)[bs[i].podcast]
  {
    var front := bs[..|bs| - 1];
    if i < |front| {
      EpisodeIndexHas(front, i);
      assert front[i] == bs[i];
    }
  }

  /** A listed episode comes from some boost of that podcast; returns its position. */
  lemma {:induction false} EpisodeIndexWitness(bs: seq<Boost>, p: string, e: string) returns (i: int)
    requires p in EpisodeIndex(bs) && e in EpisodeIndex(bs)[p]
    ensures 0 <= i < |bs| && bs[i].podcast == p && bs[i].episode == e
  {
    var front := bs[..|bs| - 1];
    var b := bs[|bs| - 1];
    if p == b.podcast && e == b.episode {
      i := |bs| - 1;
    } else {
      i := EpisodeIndexWitness(front, p, e);
      assert front[i] == bs[i];
    }
  }
}
