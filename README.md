# Mario review dashboard: verified model of the aggregation pipeline

`mario_demo.py` is a Streamlit page over tourist reviews of places in Nepal. Each
review has a place, coordinates, a sentiment label and a list of tokens. The
user picks some places. The page then shows, per place:

- how many reviews carry each sentiment label, and the total;
- the place's coordinates, taken from its first review;
- the five most common tokens per sentiment;
- the share of positive reviews.

It also shows a summary line, and a top-ten token chart for one chosen place.

This project models that pipeline in Dafny, one module per stage:

- `wrappers.dfy` (`Wrappers`): `Option` and `Result`.
- `counter.dfy` (`Counter`): `collections.Counter` as the script uses it. It
  covers counts, keys in first-encounter order, and `most_common(n)`.
  - `most_common(n)` is a stable sort by descending count, cut to `n` entries.
    Equal counts keep first-encounter order.
  - It is modelled as repeated selection of the best-ranked remaining token, and
    proved to give that ranking.
- `reviews.dfy` (`Reviews`): the review row, the place filter, grouping by place
  and by label, and token concatenation.
- `emotion.dfy` (`Emotion`): the count table `emotion_counts` with
  `total_reviews`, and the coordinate table `place_info`.
- `keywords.dfy` (`Keywords`): the nested keyword loop, written as two methods
  with loop invariants. It also covers `", ".join`, its inverse split, and the
  keyword pivot.
- `dashboard.dfy` (`Dashboard`): the merged display row per place, the positive
  ratio, the summary line and the top-ten chart.

Conventions of the model:

- Tokens, places and labels are strings. Coordinates are `real` values that are
  only copied.
- A pandas cell that is missing (NaN) or a column that does not exist is
  `None`.
- A Python exception on a path the model follows is a `Failure` carrying a
  `ScriptError`.

## Model

| member | source | states |
|---|---|---|
| Reviews.Filter | mario_demo.py:32 | the filtered rows all have a selected place and are no more than the table's rows |
| Reviews.FilterKeepsSelected | mario_demo.py:32 | each row of a selected place is kept exactly as often as it occurs in the table; every other row is dropped |
| Reviews.FilterAppend | mario_demo.py:32 | filtering keeps row order: filtering a concatenation concatenates the filtered parts |
| Reviews.FilterEmptySelection | mario_demo.py:32 | deselecting every place leaves no rows |
| Reviews.FilterAllPlaces | mario_demo.py:28-32 | selecting every place of the table leaves the table unchanged |
| Reviews.FilterTwice | mario_demo.py:32 | filtering by two selections in turn is filtering once by their intersection |
| Reviews.RowsAtMembers | mario_demo.py:48 | a place's group holds exactly the rows with that place |
| Reviews.WithSentimentMembers | mario_demo.py:50 | a label's group holds exactly the rows with that label |
| Reviews.WithSentimentLength | mario_demo.py:84 | a label group is no larger than the rows it comes from |
| Reviews.FlattenMembers | mario_demo.py:51 | a token is in the concatenated list iff some row of the group has it |
| Reviews.FlattenAppend | mario_demo.py:51 | concatenating the tokens of two row blocks is concatenating each block's tokens |
| Reviews.RowsAtCount | mario_demo.py:38 | a place's group has as many rows as the place occurs in the `place` column |
| Reviews.RowsAtFiltered | mario_demo.py:128-132 | for a selected place, its rows in the filtered table equal its rows in the full table |
| Counter.Distinct | mario_demo.py:52 | the keys of `Counter(xs)`: no duplicates, exactly the elements of `xs`, at most `|xs|` of them |
| Counter.DistinctInEncounterOrder | mario_demo.py:52 | the keys come in the order of their first occurrence |
| Counter.Best | mario_demo.py:53 | the chosen candidate is a candidate, and it outranks every other one: higher count, or equal count and met earlier |
| Counter.SelectTop | mario_demo.py:53 | at most `n` picks from the candidates, all of them when fewer are picked, strictly in rank order, each outranking every candidate left out |
| Counter.TopWords | mario_demo.py:53 | at most `n` words, each occurring in the input |
| Counter.TopWordsRanked | mario_demo.py:52-53 | `most_common(n)` words: distinct, counts non-increasing, ties in first-encounter order, every left-out word ranks below every kept one; when the list is full no left-out word occurs more often than the last kept word; when it is short nothing is left out |
| Counter.MostCommon | mario_demo.py:52-53 | the pairs' words are the top words, each paired with its count (at least 1), counts non-increasing |
| Counter.SumOfCountsIsLength | mario_demo.py:39 | the counts of distinct keys covering every element add up to the number of elements |
| Emotion.Columns | mario_demo.py:38 | the unstacked columns: each label of the filtered rows, once |
| Emotion.CountRow | mario_demo.py:38 | a place's count row has a cell for exactly the labels that occur anywhere in the filtered rows |
| Emotion.EmotionCountsOf | mario_demo.py:38-40 | one count row and one total per filtered place, places listed once; each total is the row sum over all columns |
| Emotion.CountIsGroupSize | mario_demo.py:38 | the count of a label in a group's label column is the size of that label's sub-group |
| Emotion.CountCell | mario_demo.py:38 | each (place, label) cell is the number of rows with that place and label; it is 0 and not omitted when the place has no such row |
| Emotion.TotalIsGroupSize | mario_demo.py:39 | a place's row sum is the number of its rows |
| Emotion.TotalIsReviewCount | mario_demo.py:39 | `total_reviews` of a filtered place is its number of reviews, at least 1 |
| Emotion.TotalsSumToRowCount | mario_demo.py:38-39 | summed over all places, the totals equal the number of filtered rows |
| Emotion.PlaceInfoPlaces | mario_demo.py:43 | `place_info` lists each filtered place once, in order of first appearance |
| Emotion.PlaceInfoFirstRows | mario_demo.py:43 | every `place_info` entry holds the coordinates of its place's first row |
| Emotion.GeoOf | mario_demo.py:44 | the merge finds an entry of `place_info` for the place |
| Emotion.GeoFromFirstRow | mario_demo.py:43-44 | every filtered place gets exactly the coordinates of its first row |
| Keywords.SplitJoin | mario_demo.py:54 | splitting a `", "`-joined list of comma-free words gives the words back |
| Keywords.PlaceKeywords | mario_demo.py:49-54 | a place's dictionary has a key for a label iff some row has that place and label (no key, not an empty string, otherwise) |
| Keywords.KeywordTable | mario_demo.py:47-54 | the finished dictionary has a key for exactly the filtered places |
| Keywords.TopKeywords | mario_demo.py:47-54 | the outer loop over places builds exactly the keyword table |
| Keywords.FillPlaceKeywords | mario_demo.py:49-54 | the inner loop over a place's labels builds exactly that place's dictionary |
| Keywords.PlaceKeywordsNonEmpty | mario_demo.py:48-50 | every filtered place has at least one keyword cell |
| Keywords.KeywordCellPresent | mario_demo.py:48-54 | a place has a keyword cell for a label iff one of its rows has that label |
| Keywords.RecordsEmptyIff | mario_demo.py:56-60 | the record list of `keywords_df` is empty iff no place of the keyword dictionary has a cell |
| Keywords.KeywordPivot | mario_demo.py:56-62 | the pivot as written, which fails on an empty record list, fails iff no place of the dictionary has a cell |
| Keywords.PivotRebuildsRecords | mario_demo.py:56-62 | the pivot rebuilds exactly the cells of the records: each record is a cell holding its keywords, each cell comes from a record, and no pivot row is empty |
| Keywords.PivotKeepsKeywordTable | mario_demo.py:56-63 | the pivot of the keyword table is the table itself, and the pivot as written fails iff there are no filtered rows |
| Keywords.EmptySelectionBreaksPivot | mario_demo.py:56-62 | with every place deselected, the pivot as written fails with the missing `place` column |
| Keywords.KeywordCell | mario_demo.py:51-54 | each cell is the join of its group's top five words; each word occurs in a review with that place and label; the cell splits back into those words when none has a comma |
| Dashboard.EmotionMap | mario_demo.py:62-73 | one display row for exactly the filtered places |
| Dashboard.DisplayCounts | mario_demo.py:38-40 | a display row's `total_reviews` is the place's review count (at least 1). Each label's count is the number of the place's reviews with it: 0 when it occurs only elsewhere in the selection, absent when it occurs nowhere |
| Dashboard.DisplayKeywords | mario_demo.py:62-73 | a display row's keyword cells are present exactly for the labels the place has reviews with, and hold that group's joined top five |
| Dashboard.DisplayCoordinates | mario_demo.py:43-44 | a display row's `lat`/`lng` are those of the place's first row |
| Dashboard.PositiveRatioInUnitRange | mario_demo.py:76 | the positive ratio's denominator is at least 1 and its numerator at most the denominator |
| Dashboard.SummaryCounts | mario_demo.py:84-85 | positive reviews ≤ reviews = filtered rows; places ≤ reviews; no places iff no reviews |
| Dashboard.SummaryLine | mario_demo.py:84-85 | the summary as written fails iff the selection has no rows; otherwise the share is a fraction in [0, 1] with a positive denominator |
| Dashboard.SummaryLineGuarded | mario_demo.py:84-85 | the share is undefined iff there are no rows, and otherwise agrees with the summary as written |
| Dashboard.EmptySelectionDividesByZero | mario_demo.py:85 | with every place deselected, the summary as written divides by zero and the guarded share is undefined |
| Dashboard.SummaryMatchesTotals | mario_demo.py:84-85 | the summary's review count is the sum of the table's totals, and its place count is the number of table rows |
| Dashboard.TopWordsChart | mario_demo.py:132-135 | when the chart as written succeeds, it is the guarded chart and is not empty |
| Dashboard.TopWordsChartGuarded | mario_demo.py:132-135 | at most 10 words with as many counts; each count is the word's count among the place's tokens in the full table and at least 1; counts non-increasing; the words are that token list's top ten |
| Dashboard.ChartEmptyIffNoTokens | mario_demo.py:132-135 | the chart is empty iff none of the place's reviews has a token |
| Dashboard.ChartFailures | mario_demo.py:132-135 | the chart as written fails on the token sum iff the place has no rows. It fails on the unpacking iff the place has rows but the chart is empty |
| Dashboard.PlaceWithoutTokensBreaksChart | mario_demo.py:135 | a place whose only review has no tokens makes the unpacking fail |
| Dashboard.ChartScopeAgrees | mario_demo.py:128-132 | for a selected place, the chart over the filtered rows equals the chart over the full table |

## Left out

- Page setup, sidebar and select widgets, text output, tables and Plotly figures (lines 7-10, 29, 82, 91-118, 125-155) are presentation only. The model takes the selected places and the chosen place as parameters.
- The default selection of the first ten places (line 29) is a widget default. The model accepts any selected set.
- Reading the CSV file and `@st.cache_data` (lines 15-23) are file input and caching. The table is a parameter.
- The `eval` of the serialised token lists (line 20) runs arbitrary Python text. Rows carry their tokens already parsed.
- The floating-point `positive_ratio` (line 76) and the percentage in the summary line (line 85) are kept as numerator and denominator pairs. Rounding and formatting are not modelled.
- pandas sorts the places and labels of `groupby`. The model lists them in first-appearance order. No count, total, cell or map entry depends on that order. The display sort at line 118 is not modelled.
- The `_x`/`_y` column renaming (lines 66-73) is replaced by separate count and keyword fields per label.
  - Labels other than `positive`, `neutral` and `negative` still appear in the count table.
  - They get no display field, because the rename does not cover them.
- Rendering failures are not modelled: Plotly's hover fields (lines 100-103) and the table's column list (lines 115-117) fail when a label column is absent, e.g. when no selected review is negative.
- What pandas does with the count table (lines 38-40) for an empty selection is not modelled. The model's count table is then empty.
- Keywords.TopKeywords: the source fills `top_keywords[place]` through the outer dictionary. The model fills a local dictionary in `FillPlaceKeywords` and then stores it. The final state is the same; aliasing is not modelled.
- `Counter(tokens)` is modelled through multiset counts, not as a counting loop.
- A (place, label) pair without reviews has no keyword cell: the left merge leaves NaN, modelled as `None`, not an empty string.
- A label absent from the whole selection has no count column; it is modelled as `None`, not 0.
- Dashboard.EmotionMap: built on the guarded pivot `KeywordPivotGuarded`, so on an empty selection it is the empty map where line 62 raises KeyError. Whenever the selection is non-empty it equals the as-written merge (`PivotKeepsKeywordTable`).
- `emotion_map.get('positive', 0)` at line 76 falls back to 0 when the column is absent. The model reads an absent count as 0, which is the same value.

## Findings

| source | as written | input that shows it | evidently intended | confidence | as-written member | corrected member |
|---|---|---|---|---|---|---|
| mario_demo.py:56-62 | the keyword frame is built from a list of cell records and pivoted on `place`; with no records it has no `place` column and `pivot` raises KeyError | every place deselected in the sidebar | an empty keyword table, so the map and the table show no rows | not executed | Keywords.EmptySelectionBreaksPivot | Keywords.KeywordPivotGuarded |
| mario_demo.py:84-85 | the positive share divides by the number of filtered rows | every place deselected (reached once the pivot above is guarded) | a "not applicable" share | not executed | Dashboard.EmptySelectionDividesByZero | Dashboard.SummaryLineGuarded |
| mario_demo.py:132-135 | `words, counts = zip(*top_words)` needs at least one pair; with none there is nothing to unpack and it raises ValueError | a place whose only review has an empty token list | an empty chart | not executed | Dashboard.PlaceWithoutTokensBreaksChart | Dashboard.TopWordsChartGuarded |
