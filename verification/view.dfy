/**
 The page script's table: the sort state the column headers toggle, the row filter
 driven by the podcast, episode and "only messages" controls, and the rows shown.
 */
module View {
  import opened Text
  import opened Sorting
  import opened Selecting
  import opened Boosts

  /** The column the table is sorted by and the direction. */
  datatype SortState = SortState(key: Column, ascending: bool)

  /** The page opens sorted by date, newest first. */
  const InitialSort: SortState := SortState(Timestamp, false)

  /** The opening sort is newest first: a list is in order for it exactly when no boost is newer than one above it. */
  lemma {:induction false} InitialSortNewestFirst(bs: seq<Boost>)
    ensures Sorted(bs, Comparator(InitialSort.key, InitialSort.ascending))
        <==> forall i, j :: 0 <= i < j < |bs| ==> bs[i].timestamp >= bs[j].timestamp
  {
    if Sorted(bs, Comparator(InitialSort.key, InitialSort.ascending)) {
      DescendingTimestamps(bs);
    }
    if forall i, j :: 0 <= i < j < |bs| ==> bs[i].timestamp >= bs[j].timestamp {
      NewestFirstSorted(bs);
    }
  }

  /** `sortTable(key)`: the same header flips the direction; a new header sorts ascending. */
  function ClickHeader(st: SortState, col: Column): (r: SortState)
    ensures r.key == col
    ensures st.key == col ==> r.ascending == !st.ascending
    ensures st.key != col ==> r.ascending
  {
    if st.key == col then SortState(st.key, !st.ascending) else SortState(col, true)
  }

  /** Clicking the same header twice returns to the state before the first click. */
  lemma ClickTwiceRestores(st: SortState)
    ensures ClickHeader(ClickHeader(st, st.key), st.key) == st
  {
  }

  /** Clicking a new header twice leaves it sorted descending. */
  lemma ClickNewHeaderTwice(st: SortState, col: Column)
    requires st.key != col
    ensures ClickHeader(ClickHeader(st, col), col) == SortState(col, false)
  {
  }

  /**
   The filter controls: the selected podcast and episode (`""` for "All") and the
   "only messages" checkbox.
   */
  datatype Selection = Selection(podcast: string, episode: string, onlyMessages: bool)

  /** All podcasts, all episodes, messages or not: the page's opening selection. */
  const NoFilter: Selection := Selection("", "", false)

  /** The message is whitespace around nothing, around a `.`, or around a `-`. */
  ghost predicate BlankMessage(message: string) {
    exists lo :: Padded(message, lo, "") || Padded(message, lo, ".") || Padded(message, lo, "-")
  }

  /** A trimmed message is empty, `"."` or `"-"` exactly when the message is blank. */
  lemma NoMessageIff(message: string)
    ensures (Trim(message) == "" || Trim(message) == "." || Trim(message) == "-")
        <==> BlankMessage(message)
  {
    if BlankMessage(message) {
      var lo :| Padded(message, lo, "") || Padded(message, lo, ".") || Padded(message, lo, "-");
      if Padded(message, lo, "") {
        TrimPadded(message, lo, "");
      } else if Padded(message, lo, ".") {
        TrimPadded(message, lo, ".");
      } else {
        TrimPadded(message, lo, "-");
      }
    }
  }

  /**
   A message counts as one unless, once trimmed, it is empty, `"."` or `"-"`: it is
   missing exactly when it is blank.
   */
  function HasMessage(message: string): (r: bool)
    ensures !r <==> BlankMessage(message)
  {
    NoMessageIff(message);
    var msg := Trim(message);
    !(msg == "" || msg == "." || msg == "-")
  }

  /** The filter callback of `renderTable`: start from a match and rule the boost out control by control. */
  function Matches(b: Boost, sel: Selection): (keep: bool)
    ensures keep <==>
      && (sel.podcast == "" || b.podcast == sel.podcast)
      && (sel.episode == "" || b.episode == sel.episode)
      && (sel.onlyMessages ==> HasMessage(b.message))
  {
    var match0 := true;
    var match1 := if sel.podcast != "" && b.podcast != sel.podcast then false else match0;
    var match2 := if sel.episode != "" && b.episode != sel.episode then false else match1;
    if sel.onlyMessages then
      var msg := if b.message != "" then Trim(b.message) else "";
      if msg == "" || msg == "." || msg == "-" then false else match2
    else match2
  }

  /** The filter callback as a test on boosts. */
  function Keeps(sel: Selection): Boost -> bool {
    (b: Boost) => Matches(b, sel)
  }

  /** `boosts.filter(...)`: the boosts the selection keeps, in their original order. */
  function Filter(bs: seq<Boost>, sel: Selection): (r: seq<Boost>)
    ensures |r| <= |bs|
    ensures forall b :: multiset(r)[b] == if Matches(b, sel) then multiset(bs)[b] else 0
  {
    KeepCounts(bs, Keeps(sel));
    Keep(bs, Keeps(sel))
  }

  /** Filtering drops rows but never reorders them. */
  lemma FilterIsSubsequence(bs: seq<Boost>, sel: Selection)
    ensures SubsequenceOf(Filter(bs, sel), bs)
  {
    KeepIsSubsequence(bs, Keeps(sel));
  }

  /** The boosts kept by `s1` and then by `s2` are those `s` keeps, when `s` asks for both. */
  lemma FilterFilter(bs: seq<Boost>, s1: Selection, s2: Selection, s: Selection)
    requires forall b :: Matches(b, s) <==> Matches(b, s1) && Matches(b, s2)
    ensures Filter(Filter(bs, s1), s2) == Filter(bs, s)
  {
    KeepKeep(bs, Keeps(s1), Keeps(s2), Keeps(s));
  }

  /** Filtering a second time with the same controls changes nothing. */
  lemma FilterIdempotent(bs: seq<Boost>, sel: Selection)
    ensures Filter(Filter(bs, sel), sel) == Filter(bs, sel)
  {
    FilterFilter(bs, sel, sel, sel);
  }

  /** Two filters give the same rows in either order. */
  lemma FilterCommutes(bs: seq<Boost>, s1: Selection, s2: Selection)
    ensures Filter(Filter(bs, s1), s2) == Filter(Filter(bs, s2), s1)
  {
    KeepCommutes(bs, Keeps(s1), Keeps(s2));
  }

  /**
   The three controls act independently: filtering by podcast, then by episode, then by
   message keeps the same rows as the combined filter.
   */
  lemma FilterByEachControl(bs: seq<Boost>, sel: Selection)
    ensures Filter(bs, sel)
         == Filter(Filter(Filter(bs, Selection(sel.podcast, "", false)),
                          Selection("", sel.episode, false)),
                   Selection("", "", sel.onlyMessages))
  {
    var both := Selection(sel.podcast, sel.episode, false);
    FilterFilter(bs, Selection(sel.podcast, "", false), Selection("", sel.episode, false), both);
    FilterFilter(bs, both, Selection("", "", sel.onlyMessages), sel);
  }

  /** With nothing selected every boost is shown. */
  lemma FilterNothing(bs: seq<Boost>)
    ensures Filter(bs, NoFilter) == bs
  {
    KeepEverything(bs, Keeps(NoFilter));
  }

  /** Filtering a concatenation filters each part. */
  lemma FilterAppend(a: seq<Boost>, b: seq<Boost>, sel: Selection)
    ensures Filter(a + b, sel) == Filter(a, sel) + Filter(b, sel)
  {
    KeepAppend(a, b, Keeps(sel));
  }

  /** `renderTable`'s rows: the filtered boosts, stably sorted by the current column and direction. */
  function Rows(bs: seq<Boost>, sel: Selection, st: SortState): (r: seq<Boost>)
    ensures multiset(r) == multiset(Filter(bs, sel))
    ensures forall b :: b in r <==> b in bs && Matches(b, sel)
    ensures Sorted(r, Comparator(st.key, st.ascending))
  {
    var r := SortBy(Filter(bs, sel), st.key, st.ascending);
    assert forall b :: b in r <==> b in multiset(r);
    r
  }

  /**
   On opening, the page shows the boosts in the order the generator wrote them, when
   that order is already newest first.
   */
  lemma InitialRowsKeepOrder(bs: seq<Boost>)
    requires forall i, j :: 0 <= i < j < |bs| ==> bs[i].timestamp >= bs[j].timestamp
    ensures Rows(bs, NoFilter, InitialSort) == bs
  {
    NewestFirstSorted(bs);
    FilterNothing(bs);
    ComparatorConsistent(Timestamp, false);
    SortSorted(bs, Comparator(Timestamp, false));
  }
}
