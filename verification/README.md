# Podcasting 2.0 boosts dashboard — a Dafny model

The dashboard generator reads a dump of Lightning invoices. It keeps the paid keysend
invoices ("boosts") and reads the podcast metadata embedded in each invoice description.
It sorts the boosts newest first, collects the podcasts, and writes a page. The page's
script filters the boosts by podcast, by episode and by "only messages". It sorts the
table by the column whose header was clicked. It shows the episode options for the
selected podcast and the sat totals for the selected podcast and episode.

This project models both halves:

- `Extractor` is the generator's extraction step: the invoice loop, the timestamp sort,
  the podcast-to-episodes table and the podcast option markup.
- `View`, `Sums` and `Episodes` are the page script:
  - `View` holds the sort state, the row filter and the rendered rows;
  - `Sums` holds the two totals;
  - `Episodes` holds the episode options and the plain-object table the script builds.
- The supporting modules are:
  - `Text`: `startswith`, `str.replace(p, '')`, JavaScript's `trim`, string order, and
    `'\n'.join` with its inverse;
  - `Ordered`: sorted lists of distinct names;
  - `Sorting`: a stable comparator sort;
  - `Selecting`: filter and filter-map;
  - `Boosts`: the boost record, the column comparator and the index.

The JSON decoder is a parameter `parse: string -> Option<map<string, string>>`. `None`
stands for a description that does not decode. A boost's value is the exact real
`msat / 1000`.

Python's `list.sort(key=..., reverse=True)` and the script's `Array.prototype.sort` with
a `-compare` comparator are both stable sorts. Both are modelled by one stable insertion
sort, `Boosts.SortBy`, driven by the column comparator.

Where the project's written description and the code differ, the model follows the code:

- The code removes every `"keysend: "` from a description (`str.replace`), not only a
  leading one.
- The generator in this file does not group or merge boosts.
- The episode options are in alphabetical order, not ordered by latest boost.
- The empty episode name `""` is offered as an episode option when some boost has no
  episode, where only non-empty names are meant.

Two behaviours of the code are modelled as written:

- The episode total adds up the boosts of that episode title under every podcast.
  `Sums.EpisodeTotalIsTableTotal` states this.
- Both totals ignore the "only messages" box. `Sums.RowsWithinPodcastTotal` relates them
  to the visible rows.

## Model

| member | source | states |
|---|---|---|
| Extractor.Sats | podcaster-dashboard.py:50 | the value times 1000 is exactly the received millisatoshi amount, and it is non-negative for a non-negative amount |
| Extractor.MakeBoost | podcaster-dashboard.py:44-51 | timestamp is `paid_at`; podcast, episode and message come from the same-named keys and sender from `sender_name`, each `""` when the key is absent; value × 1000 = msat |
| Extractor.ExtractOne | podcaster-dashboard.py:35-51 | an invoice yields a boost exactly when its label starts with "keysend", its status is "paid" and its marker-stripped description decodes; the boost is the one built from that metadata |
| Extractor.ExtractBoosts | podcaster-dashboard.py:33-52 | the loop with its append computes the invoice-by-invoice extraction |
| Extractor.InvoiceContribution | podcaster-dashboard.py:36-41 | a skipped invoice (not a paid keysend, or undecodable metadata) leaves the boosts of all other invoices unchanged; a contributing one adds exactly its own boost at its own position |
| Extractor.Contributors | podcaster-dashboard.py:35 | the positions of the contributing invoices are strictly increasing and each is a paid keysend invoice |
| Extractor.ExtractAllFromContributors | podcaster-dashboard.py:33-52 | every paid keysend invoice with decodable metadata is a contributor; there are exactly as many boosts as contributors, and the k-th boost comes from the k-th contributor |
| Extractor.MarkerBorderFree | podcaster-dashboard.py:38 | `"keysend: "` has no proper prefix that is also a suffix, so its occurrences cannot overlap |
| Extractor.MetadataText | podcaster-dashboard.py:38 | the text handed to the decoder is no longer than the description, and equals it exactly when the description contains no `"keysend: "` |
| Extractor.MetadataTextStripsPrefix | podcaster-dashboard.py:38 | `"keysend: "` followed by marker-free JSON gives back that JSON |
| Extractor.MetadataTextRemovesEveryMarker | podcaster-dashboard.py:38 | a marker anywhere is removed and the text before and after it is cleaned independently, so every occurrence is removed |
| Extractor.OptionTag | podcaster-dashboard.py:269 | an option tag contains a line break exactly when the podcast name does |
| Extractor.PodcastOptions | podcaster-dashboard.py:269 | with no podcasts the option markup is empty; with at least one podcast and no line break in any name, it splits on line breaks into one tag per podcast, in order |
| Extractor.BuildReport | podcaster-dashboard.py:33-63 | the boosts are the extracted ones under the stable descending date sort: a permutation with non-increasing timestamps in which boosts with equal timestamps keep invoice order; the podcast list is strictly ascending and holds exactly the podcasts of the boosts, `""` included |
| Extractor.PodcastOfSomeBoost | podcaster-dashboard.py:59-63 | a podcast occurs among the sorted boosts exactly when it occurs among the extracted ones |
| Boosts.CompareKeys | podcaster-dashboard.py:219-221 | the cell comparison is -1 exactly when the first cell is smaller (numerically for date and value, lexicographically for text), 1 exactly when it is larger, and 0 exactly when the cells are equal |
| Boosts.Comparator | podcaster-dashboard.py:218-222 | the table comparator puts a row first exactly when its cell is smaller (ascending) or larger (descending), and ties exactly rows with equal cells |
| Boosts.ComparatorConsistent | podcaster-dashboard.py:218-223 | the direction-adjusted comparator is antisymmetric, and tied rows compare alike against every other row |
| Boosts.SortBy | podcaster-dashboard.py:218-223 | the result is a permutation of the input, and no adjacent pair is out of order for the column and direction |
| Boosts.SortByStable | podcaster-dashboard.py:55 | rows tie exactly when their cells in the column are equal, and tied rows keep their input order |
| Boosts.DescendingTimestamps | podcaster-dashboard.py:55 | after the descending date sort, every boost is at least as new as every boost after it |
| Boosts.NewestFirstSorted | podcaster-dashboard.py:55 | a newest-first list is already in order for the descending date sort |
| Boosts.EpisodeIndex | podcaster-dashboard.py:59-61 | the table's keys are exactly the podcasts of the boosts |
| Boosts.EpisodeIndexEpisodes | podcaster-dashboard.py:59-61 | the episodes listed under a podcast are exactly those of its boosts |
| Sorting.Sort | podcaster-dashboard.py:218-223 | the sort returns a permutation of its input in which no adjacent pair is out of order |
| Sorting.SortStable | podcaster-dashboard.py:55 | elements that tie keep their original relative order |
| Sorting.SortSorted | podcaster-dashboard.py:218-223 | a list already in order is returned unchanged |
| Ordered.SortedSet | podcaster-dashboard.py:63 | the sorted list of a set is strictly ascending and holds exactly the set's members |
| Ordered.AscendingUnique | podcaster-dashboard.py:157 | two strictly ascending lists with the same members are equal, so the sorted list depends only on the set |
| Text.RemoveAllUnchangedIff | podcaster-dashboard.py:38 | removing a pattern leaves a string unchanged exactly when the pattern does not occur in it |
| Text.RemoveAllSplits | podcaster-dashboard.py:38 | for a border-free pattern, removing it from `a + pat + b` gives the removal from `a` followed by the removal from `b` |
| Text.Trim | podcaster-dashboard.py:209 | the result has no whitespace at either end and sits in the input with only whitespace before and after it |
| Text.TrimPadded | podcaster-dashboard.py:209 | whitespace around a core with non-whitespace ends trims to exactly that core |
| Text.TrimIdempotent | podcaster-dashboard.py:209 | trimming a trimmed string changes nothing |
| Text.CompareStrings | podcaster-dashboard.py:220-221 | string comparison is -1, 0 or 1, and 0 exactly for equal strings |
| Text.StrLessIsLexicographic | podcaster-dashboard.py:220-221 | a string sorts before another exactly when it is a proper prefix of it or has the smaller character at the first place they differ |
| Text.CompareStringsAntisymmetric | podcaster-dashboard.py:220-221 | swapping the strings negates the comparison |
| Text.StrLessTransitive | podcaster-dashboard.py:63 | string order is transitive |
| Text.SplitJoin | podcaster-dashboard.py:269 | splitting a newline-joined non-empty list of newline-free parts gives the parts back |
| Text.JoinSplit | podcaster-dashboard.py:269 | joining the parts of a split gives the original string back |
| Selecting.KeepCounts | podcaster-dashboard.py:200-215 | a filter keeps each value as often as it occurs when the test holds of it, and not at all otherwise |
| Selecting.CollectFromSources | podcaster-dashboard.py:33-52 | the k-th collected result is the result for the k-th element that has one |
| View.InitialSortNewestFirst | podcaster-dashboard.py:129-130 | the opening sort state (date, descending) orders a list exactly when it is newest first |
| View.ClickHeader | podcaster-dashboard.py:241-249 | the clicked column becomes the sort key; the same column flips the direction and a new column sorts ascending |
| View.ClickTwiceRestores | podcaster-dashboard.py:241-249 | clicking the current column twice restores the sort state |
| View.ClickNewHeaderTwice | podcaster-dashboard.py:241-249 | clicking a new column twice sorts it descending |
| View.NoMessageIff | podcaster-dashboard.py:209-210 | a trimmed message is empty, `.` or `-` exactly when the message is whitespace around nothing, around `.` or around `-` |
| View.HasMessage | podcaster-dashboard.py:208-212 | a message is treated as missing exactly when it is whitespace around nothing, around `.` or around `-` |
| View.Matches | podcaster-dashboard.py:200-215 | a boost is kept iff (no podcast selected or its podcast matches) and (no episode selected or its episode matches) and (only-messages unchecked or it has a message) |
| View.Filter | podcaster-dashboard.py:200-215 | each boost is kept as often as it occurs when it matches, and never when it does not |
| View.FilterIsSubsequence | podcaster-dashboard.py:200 | the filtered rows are an order-preserving subsequence of the boosts |
| View.FilterFilter | podcaster-dashboard.py:200-215 | filtering by two selections in turn equals filtering by a selection that demands both |
| View.FilterIdempotent | podcaster-dashboard.py:200-215 | filtering twice with the same controls changes nothing |
| View.FilterCommutes | podcaster-dashboard.py:200-215 | two filters commute |
| View.FilterByEachControl | podcaster-dashboard.py:200-215 | the podcast, episode and message controls filter independently, one after the other |
| View.FilterNothing | podcaster-dashboard.py:200-215 | with nothing selected every boost is shown, in order |
| View.FilterAppend | podcaster-dashboard.py:200-215 | filtering a concatenation filters each part |
| View.Rows | podcaster-dashboard.py:195-223 | the rows are a permutation of the filtered boosts, they are exactly the boosts that match, and they are in order for the current column and direction |
| View.InitialRowsKeepOrder | podcaster-dashboard.py:129-130 | on opening (date, descending, no filter) a newest-first list such as the generator writes is shown unchanged |
| Sums.Total | podcaster-dashboard.py:176-178 | one boost totals its own value; with no negative values the total is non-negative and at least each boost's value |
| Sums.TotalAppend | podcaster-dashboard.py:178 | the total of a concatenation is the sum of the totals |
| Sums.TotalPermutation | podcaster-dashboard.py:178 | the total does not depend on the order of the boosts |
| Sums.Sums | podcaster-dashboard.py:165-193 | the podcast total is shown exactly when a podcast is selected, and the episode total exactly when an episode is selected |
| Sums.PodcastTotalIsTableTotal | podcaster-dashboard.py:174-181 | the podcast total is the total of the rows shown when only that podcast is selected, in any sort order |
| Sums.EpisodeTotalIsTableTotal | podcaster-dashboard.py:183-190 | the episode total is the total of the rows shown when only that episode is selected, across all podcasts |
| Sums.RowsWithinPodcastTotal | podcaster-dashboard.py:174-181 | with non-negative values, the visible rows never add up to more than the podcast total |
| Sums.SumsIgnoreOrder | podcaster-dashboard.py:165-193 | the totals depend only on which boosts there are, not on their order |
| Episodes.EpisodeOptions | podcaster-dashboard.py:141-163 | "All Episodes" comes first, then each offered episode once in ascending order with value equal to text; offered are all episodes when no podcast is selected, otherwise that podcast's, and none for an unknown podcast |
| Episodes.JsEpisodeIndex | podcaster-dashboard.py:133-139 | the plain-object table is built exactly when no podcast is named after a member every object inherits, and then it equals `EpisodeIndex` |
| Episodes.JsEpisodeIndexFailsOnConstructor | podcaster-dashboard.py:133-139 | one boost from a podcast named "constructor" makes the plain-object table throw |

## Left out

- The command line, reading the invoice file and writing the page are left out. So are
  the template substitution and the `json.dumps` of the boosts into the page. These are
  I/O and text templating.
- `json.loads` is a parameter. Descriptions that decode to something other than an
  object, and metadata values that are not strings (`null`, numbers), are not
  modelled; the code would fail on them or carry them through unchanged.
- Invoices missing a field (a `KeyError` in the generator) are not modelled. Every
  invoice carries all five fields read. The amount is an integer, so `int()` applied to
  a string is not modelled.
- Extractor.Sats: gives the exact quotient, not Python's floating-point `int / 1000`.
  The two differ only by rounding.
- Sums.Total: adds exact values, not JavaScript's floating-point left-to-right sum.
- The HTML is not modelled:
  - the table markup;
  - date formatting with `toLocaleString`;
  - HTML escaping, which the code does not do. `Extractor.OptionTag` models the text it
    writes.
- The DOM is not modelled: reading the controls' values, the event listeners that call
  `updateEpisodeOptions`, `renderTable` and `sortTable`, and the episode select falling
  back to "All Episodes" after its options are replaced.
  - `View.Selection` stands for the control values at the time of a render.
  - `View.SortState` stands for the two sort variables.
- Episodes.EpisodeOptions: "none for an unknown podcast" holds for the table without
  inherited members. The script looks up `podcastEpisodeMap[selectedPodcast] || new Set()`,
  so a selected podcast named `constructor` would offer an option with the value
  "undefined". The select only offers podcasts that have boosts, and such a podcast
  already stops the script (see Findings). The value could only differ after an
  unescaped `"` in a podcast name cut the option's `value` short, and HTML escaping is
  not modelled.
- The message column has no sort handler, so `Boosts.Column` has no message case.
- String order is one character order for both languages. Python compares code points
  and JavaScript compares UTF-16 units; they differ only for characters outside the
  Basic Multilingual Plane.
- `boost.message ? boost.message.trim() : ''` is modelled for string messages only.

## Findings

| source | as written | input that shows it | evidently intended | confidence | as-written member | corrected member |
|---|---|---|---|---|---|---|
| podcaster-dashboard.py:133-139 | the podcast-to-episodes table is a plain object `{}`, so a podcast named after an inherited member (`constructor`, `toString`, `__proto__`, …) already reads as present; no `Set` is created and the `.add` call throws, stopping the script before anything is shown | one paid keysend invoice whose metadata has `"podcast": "constructor"` | a table that holds only the podcasts present, as the generator's `defaultdict(set)` does | medium, not executed | Episodes.JsEpisodeIndex | Boosts.EpisodeIndexEpisodes |
