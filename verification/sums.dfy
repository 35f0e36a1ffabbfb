/**
 The sums shown above the table: the total value of every boost for the selected
 podcast, and of every boost for the selected episode.
 */
module Sums {
  import opened Wrappers
  import opened Sorting
  import opened Selecting
  import opened Boosts
  import opened View

  /**
   `.reduce((sum, boost) => sum + boost.value, 0)`: the values added up left to right.
   One boost totals its own value; with no negative values the total is non-negative
   and at least the value of each boost in it.
   */
  function Total(bs: seq<Boost>): (t: real)
    ensures |bs| == 1 ==> t == bs[0].value
    ensures (forall i :: 0 <= i < |bs| ==> bs[i].value >= 0.0)
            ==> 0.0 <= t && forall i :: 0 <= i < |bs| ==> bs[i].value <= t
  {
    if |bs| == 0 then 0.0
    else
      var front := bs[..|bs| - 1];
      assert forall i :: 0 <= i < |front| ==> front[i] == bs[i];
      Total(front) + bs[|bs| - 1].value
  }

  /** The total of a concatenation is the sum of the totals. */
  lemma {:induction false} TotalAppend(a: seq<Boost>, b: seq<Boost>)
    ensures Total(a + b) == Total(a) + Total(b)
    decreases |b|
  {
    if |b| > 0 {
      assert (a + b)[..|a + b| - 1] == a + b[..|b| - 1];
      assert (a + b)[|a + b| - 1] == b[|b| - 1];
      TotalAppend(a, b[..|b| - 1]);
    } else {
      assert a + b == a;
    }
  }

  /** The total does not depend on the order of the boosts. */
  lemma {:induction false} TotalPermutation(a: seq<Boost>, b: seq<Boost>)
    requires multiset(a) == multiset(b)
    ensures Total(a) == Total(b)
    decreases |a|
  {
    if |a| == 0 {
      assert |b| == |multiset(b)| == 0;
    } else {
      var front := a[..|a| - 1];
      var x := a[|a| - 1];
      assert a == front + [x];
      var j := RemoveMatching(front, x, b);
      var left, right := b[..j], b[j + 1..];
      TotalPermutation(front, left + right);
      TotalAppend(left, right);
      TotalAppend(left + [x], right);
      TotalAppend(left, [x]);
    }
  }

  /** With no negative values, dropping boosts never raises the total. */
  lemma {:induction false} TotalOfKeptAtMost(bs: seq<Boost>, f: Boost -> bool)
    requires forall i :: 0 <= i < |bs| ==> bs[i].value >= 0.0
    ensures Total(Keep(bs, f)) <= Total(bs)
  {
    if |bs| > 0 {
      var x := bs[0];
      TotalOfKeptAtMost(bs[1..], f);
      assert bs == [x] + bs[1..];
      TotalAppend([x], bs[1..]);
      TotalAppend(if f(x) then [x] else [], Keep(bs[1..], f));
      assert Total([]) == 0.0;
    }
  }

  /** `boost => boost.podcast === selectedPodcast`. */
  function OfPodcast(p: string): Boost -> bool {
    (b: Boost) => b.podcast == p
  }

  /** `boost => boost.episode === selectedEpisode`. */
  function OfEpisode(e: string): Boost -> bool {
    (b: Boost) => b.episode == e
  }

  /** What the sum container shows: each total present only when its control has a selection. */
  datatype SumDisplay = SumDisplay(podcastTotal: Option<real>, episodeTotal: Option<real>)

  /** `updateSums`: totals over all boosts, whatever the other controls say. */
  function Sums(bs: seq<Boost>, sel: Selection): (r: SumDisplay)
    ensures r.podcastTotal.Some? <==> sel.podcast != ""
    ensures r.episodeTotal.Some? <==> sel.episode != ""
  {
    SumDisplay(
      if sel.podcast != "" then Some(Total(Keep(bs, OfPodcast(sel.podcast)))) else None,
      if sel.episode != "" then Some(Total(Keep(bs, OfEpisode(sel.episode)))) else None)
  }

  /**
   The podcast total is the total of the rows the table shows when only that podcast
   is selected, in whatever order they are sorted.
   */
  lemma PodcastTotalIsTableTotal(bs: seq<Boost>, sel: Selection, st: SortState)
    requires sel.podcast != ""
    ensures Sums(bs, sel).podcastTotal
         == Some(Total(Rows(bs, Selection(sel.podcast, "", false), st)))
  {
    var only := Selection(sel.podcast, "", false);
    KeepSameTest(bs, OfPodcast(sel.podcast), Keeps(only));
    TotalPermutation(Rows(bs, only, st), Filter(bs, only));
  }

  /**
   The episode total is the total of the rows the table shows when only that episode
   is selected: boosts of that episode title under any podcast.
   */
  lemma EpisodeTotalIsTableTotal(bs: seq<Boost>, sel: Selection, st: SortState)
    requires sel.episode != ""
    ensures Sums(bs, sel).episodeTotal
         == Some(Total(Rows(bs, Selection("", sel.episode, false), st)))
  {
    var only := Selection("", sel.episode, false);
    KeepSameTest(bs, OfEpisode(sel.episode), Keeps(only));
    TotalPermutation(Rows(bs, only, st), Filter(bs, only));
  }

  /**
   With no negative values, the rows on screen never add up to more than the podcast
   total shown above them: the episode and message controls only narrow the table.
   */
  lemma RowsWithinPodcastTotal(bs: seq<Boost>, sel: Selection, st: SortState)
    requires sel.podcast != ""
    requires forall i :: 0 <= i < |bs| ==> bs[i].value >= 0.0
    ensures Total(Rows(bs, sel, st)) <= Sums(bs, sel).podcastTotal.value
  {
    var only := Selection(sel.podcast, "", false);
    var rest := Selection("", sel.episode, sel.onlyMessages);
    var kept := Keep(bs, OfPodcast(sel.podcast));
    KeepSameTest(bs, OfPodcast(sel.podcast), Keeps(only));
    FilterFilter(bs, only, rest, sel);
    TotalPermutation(Rows(bs, sel, st), Filter(kept, rest));
    KeepCounts(bs, OfPodcast(sel.podcast));
    forall i | 0 <= i < |kept|
      ensures kept[i].value >= 0.0
    {
      assert kept[i] in multiset(kept);
    }
    TotalOfKeptAtMost(kept, Keeps(rest));
  }

  /** The sums depend on which boosts there are, not on the order they arrive in. */
  lemma SumsIgnoreOrder(bs: seq<Boost>, cs: seq<Boost>, sel: Selection)
    requires multiset(bs) == multiset(cs)
    ensures Sums(bs, sel) == Sums(cs, sel)
  {
    KeepPermutation(bs, cs, OfPodcast(sel.podcast));
    TotalPermutation(Keep(bs, OfPodcast(sel.podcast)), Keep(cs, OfPodcast(sel.podcast)));
    KeepPermutation(bs, cs, OfEpisode(sel.episode));
    TotalPermutation(Keep(bs, OfEpisode(sel.episode)), Keep(cs, OfEpisode(sel.episode)));
  }
}
