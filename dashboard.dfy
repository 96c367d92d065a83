/** What the page shows, built from the tables of the other modules: one display
    row per place (lines 62-76), the summary line (84-85) and the top-ten keyword
    chart of one place (128-135). */
module Dashboard {
  import opened Wrappers
  import opened Counter
  import opened Reviews
  import opened Emotion
  import opened Keywords

  const Positive: Sentiment := "positive"
  const Neutral: Sentiment := "neutral"
  const Negative: Sentiment := "negative"

  /** `most_common(10)` at line 134. */
  const TopChartCount: nat := 10

  /** One row of `emotion_map` after the rename at lines 66-73, with each field
      named for what it holds instead of the `_x`/`_y` merge suffixes. A count is
      `None` when no filtered review carries that label (the column does not
      exist); a keyword cell is `None` when this place has no review with that
      label (NaN after the left merge). */
  datatype DisplayRow = DisplayRow(
    totalReviews: nat,
    positive: Option<nat>, neutral: Option<nat>, negative: Option<nat>,
    lat: real, lng: real,
    positiveKeywords: Option<string>, neutralKeywords: Option<string>, negativeKeywords: Option<string>)

  function CountColumn(counts: map<Sentiment, nat>, s: Sentiment): Option<nat> {
    if s in counts then Some(counts[s]) else None
  }

  function KeywordColumn(pivot: map<Place, map<Sentiment, string>>, p: Place, s: Sentiment): Option<string> {
    if p in pivot && s in pivot[p] then Some(pivot[p][s]) else None
  }

  lemma EveryPlaceHasCoords(rows: seq<Review>)
    ensures forall p :: p in PlaceSet(rows) ==> p in InfoPlaces(PlaceInfo(rows))
  {
    forall p | p in PlaceSet(rows) ensures p in InfoPlaces(PlaceInfo(rows)) {
      GeoFromFirstRow(rows, p);
    }
  }

  /** The display row of place `p`: its counts, the coordinates of its
      `place_info` row and its pivoted keyword cells. */
  function DisplayRowOf(rows: seq<Review>, p: Place): DisplayRow
    requires p in PlaceSet(rows)
  {
    var ec := EmotionCountsOf(rows);
    var pivot := KeywordPivotGuarded(KeywordTable(rows));
    EveryPlaceHasCoords(rows);
    var geo := GeoOf(PlaceInfo(rows), p);
    DisplayRow(
      ec.total[p],
      CountColumn(ec.count[p], Positive), CountColumn(ec.count[p], Neutral), CountColumn(ec.count[p], Negative),
      geo.lat, geo.lng,
      KeywordColumn(pivot, p, Positive), KeywordColumn(pivot, p, Neutral), KeywordColumn(pivot, p, Negative))
  }

  /** Lines 44 and 62-73: the counts merged with the coordinates and the pivoted
      keyword cells, one row per place of the filtered rows. It uses the guarded
      pivot: on an empty selection this is the empty map, where the script raises
      KeyError at line 62; otherwise the two pivots agree (`PivotKeepsKeywordTable`). */
  function EmotionMap(rows: seq<Review>): (em: map<Place, DisplayRow>)
    ensures em.Keys == PlaceSet(rows)
  {
    map p | p in PlaceSet(rows) :: DisplayRowOf(rows, p)
  }

  /** The count a display row should show for label `s` at place `p`: absent when
      the label occurs nowhere in the rows, otherwise the number of rows with that
      place and label (possibly 0). */
  function ExpectedCount(rows: seq<Review>, p: Place, s: Sentiment): Option<nat> {
    if s in SentimentSet(rows) then Some(|WithSentiment(RowsAt(rows, p), s)|) else None
  }

  lemma CountColumnIsExpected(rows: seq<Review>, p: Place, s: Sentiment)
    requires p in PlaceSet(rows)
    ensures CountColumn(EmotionCountsOf(rows).count[p], s) == ExpectedCount(rows, p, s)
  {
    if s in SentimentSet(rows) {
      CountCell(rows, p, s);
    }
  }

  /** Each display row holds the place's review count as `total_reviews` (at least
      one), and per label the number of its reviews with that label: 0 for a label
      seen elsewhere in the selection, absent for a label seen nowhere. */
  lemma DisplayCounts(rows: seq<Review>, p: Place)
    requires p in PlaceSet(rows)
    ensures EmotionMap(rows)[p].totalReviews == |RowsAt(rows, p)| >= 1
    ensures EmotionMap(rows)[p].positive == ExpectedCount(rows, p, Positive)
    ensures EmotionMap(rows)[p].neutral == ExpectedCount(rows, p, Neutral)
    ensures EmotionMap(rows)[p].negative == ExpectedCount(rows, p, Negative)
  {
    TotalIsReviewCount(rows, p);
    CountColumnIsExpected(rows, p, Positive);
    CountColumnIsExpected(rows, p, Neutral);
    CountColumnIsExpected(rows, p, Negative);
  }

  /** The keyword cell a display row should show for label `s` at place `p`: absent
      when the place has no review with that label, otherwise that group's joined
      top-five tokens. */
  function ExpectedKeywords(rows: seq<Review>, p: Place, s: Sentiment): Option<string> {
    if exists row :: row in rows && row.place == p && row.sentiment == s
    then Some(KeywordString(GroupTokens(rows, p, s)))
    else None
  }

  lemma KeywordColumnIsExpected(rows: seq<Review>, p: Place, s: Sentiment)
    requires p in PlaceSet(rows)
    ensures KeywordColumn(KeywordPivotGuarded(KeywordTable(rows)), p, s) == ExpectedKeywords(rows, p, s)
  {
    PivotKeepsKeywordTable(rows);
    KeywordCellPresent(rows, p, s);
  }

  /** Each display row's keyword cells are its groups' top-five strings, present
      exactly for the labels the place has reviews with. */
  lemma DisplayKeywords(rows: seq<Review>, p: Place)
    requires p in PlaceSet(rows)
    ensures EmotionMap(rows)[p].positiveKeywords == ExpectedKeywords(rows, p, Positive)
    ensures EmotionMap(rows)[p].neutralKeywords == ExpectedKeywords(rows, p, Neutral)
    ensures EmotionMap(rows)[p].negativeKeywords == ExpectedKeywords(rows, p, Negative)
  {
    KeywordColumnIsExpected(rows, p, Positive);
    KeywordColumnIsExpected(rows, p, Neutral);
    KeywordColumnIsExpected(rows, p, Negative);
  }

  /** Each display row carries the coordinates of the place's first row. */
  lemma DisplayCoordinates(rows: seq<Review>, p: Place)
    requires p in PlaceSet(rows)
    ensures p in PlacesOf(rows)
    ensures var first := rows[FirstIndex(PlacesOf(rows), p)];
            EmotionMap(rows)[p].lat == first.lat && EmotionMap(rows)[p].lng == first.lng
  {
    GeoFromFirstRow(rows, p);
  }

  /** Line 76: `positive_ratio` as numerator and denominator; a missing `positive`
      column reads as 0. */
  function PositiveRatio(row: DisplayRow): (nat, nat) {
    (row.positive.GetOr(0), row.totalReviews)
  }

  /** The ratio of every display row lies in [0, 1] and never divides by zero. */
  lemma PositiveRatioInUnitRange(rows: seq<Review>, p: Place)
    requires p in PlaceSet(rows)
    ensures 1 <= PositiveRatio(EmotionMap(rows)[p]).1
    ensures PositiveRatio(EmotionMap(rows)[p]).0 <= PositiveRatio(EmotionMap(rows)[p]).1
  {
    DisplayCounts(rows, p);
    var g := RowsAt(rows, p);
    WithSentimentLength(g, Positive);
    assert ExpectedCount(rows, p, Positive).GetOr(0) <= |g|;
  }

  /** The figures of the summary line: distinct places, reviews, positive reviews. */
  datatype Summary = Summary(placeCount: nat, reviewCount: nat, positiveReviews: nat)

  function SummaryCounts(rows: seq<Review>): (s: Summary)
    ensures s.positiveReviews <= s.reviewCount == |rows|
    ensures s.placeCount <= s.reviewCount
    ensures s.placeCount == 0 <==> s.reviewCount == 0
  {
    WithSentimentLength(rows, Positive);
    var places := Distinct(PlacesOf(rows));
    assert rows != [] ==> PlacesOf(rows)[0] in places;
    Summary(|places|, |rows|, |WithSentiment(rows, Positive)|)
  }

  /** Lines 84-85 as written: the positive share divides by the number of filtered
      rows, which raises ZeroDivisionError when no place is selected. */
  function SummaryLine(rows: seq<Review>): (r: Result<(Summary, (nat, nat)), ScriptError>)
    ensures r.Failure? <==> rows == []
    ensures r.Success? ==> r.value.1.0 <= r.value.1.1 && r.value.1.1 >= 1
  {
    var s := SummaryCounts(rows);
    if s.reviewCount == 0 then Failure(ZeroDivision)
    else Success((s, (s.positiveReviews, s.reviewCount)))
  }

  /** The summary line with the share left undefined ("N/A") for an empty selection. */
  function SummaryLineGuarded(rows: seq<Review>): (r: (Summary, Option<(nat, nat)>))
    ensures r.1.None? <==> rows == []
    ensures r.1.Some? ==> r.1.value.0 <= r.1.value.1 && r.1.value.1 >= 1
    ensures SummaryLine(rows).Success? ==> SummaryLine(rows).value == (r.0, r.1.value)
  {
    var s := SummaryCounts(rows);
    (s, if s.reviewCount == 0 then None else Some((s.positiveReviews, s.reviewCount)))
  }

  /** The input that shows the failure: deselecting every place. */
  lemma EmptySelectionDividesByZero(table: seq<Review>)
    ensures SummaryLine(Filter(table, {})) == Failure(ZeroDivision)
    ensures SummaryLineGuarded(Filter(table, {})).1 == None
  {
    FilterEmptySelection(table);
  }

  /** The review count of the summary line is the sum of the table's totals. */
  lemma SummaryMatchesTotals(rows: seq<Review>)
    ensures SummaryCounts(rows).reviewCount == SumAt(EmotionCountsOf(rows).places, EmotionCountsOf(rows).total)
    ensures SummaryCounts(rows).placeCount == |EmotionCountsOf(rows).places|
  {
    TotalsSumToRowCount(rows);
  }

  /** `df[df['place'] == p]['review_tokens'].sum()`: the place's token lists
      concatenated over the whole, unfiltered table; with no rows pandas returns
      the integer 0, modelled as `None`. */
  function PlaceTokens(table: seq<Review>, p: Place): Option<seq<string>> {
    var g := RowsAt(table, p);
    if g == [] then None else Some(Flatten(g))
  }

  /** Lines 132-135 as written: the top ten (word, count) pairs unzipped into two
      lists; `zip(*[])` has nothing to unpack when the place has no tokens. */
  function TopWordsChart(table: seq<Review>, p: Place): (r: Result<(seq<string>, seq<nat>), ScriptError>)
    ensures r.Success? ==> r.value == TopWordsChartGuarded(table, p) && r.value.0 != []
  {
    match PlaceTokens(table, p)
    case None => Failure(TokenSumNotIterable)
    case Some(tokens) =>
      var top := MostCommon(tokens, TopChartCount);
      if top == [] then Failure(NothingToUnpack) else Success((Words(top), Counts(top)))
  }

  /** The chart with an empty word list drawn as an empty chart. */
  function TopWordsChartGuarded(table: seq<Review>, p: Place): (chart: (seq<string>, seq<nat>))
    ensures |chart.0| == |chart.1| <= TopChartCount
    ensures forall i :: 0 <= i < |chart.1| ==> chart.1[i] == Count(Flatten(RowsAt(table, p)), chart.0[i]) >= 1
    ensures forall i, j :: 0 <= i < j < |chart.1| ==> chart.1[i] >= chart.1[j]
    ensures chart.0 == TopWords(Flatten(RowsAt(table, p)), TopChartCount)
  {
    var top := MostCommon(Flatten(RowsAt(table, p)), TopChartCount);
    (Words(top), Counts(top))
  }

  /** The chart is empty exactly when none of the place's reviews has a token. */
  lemma ChartEmptyIffNoTokens(table: seq<Review>, p: Place)
    ensures TopWordsChartGuarded(table, p).0 == [] <==>
              forall row :: row in table && row.place == p ==> row.tokens == []
  {
    var g := RowsAt(table, p);
    var toks := Flatten(g);
    RowsAtMembers(table, p);
    FlattenMembers(g);
    TopWordsRanked(toks, TopChartCount);
    if toks != [] {
      assert toks[0] in toks;
    }
    if exists row :: row in table && row.place == p && row.tokens != [] {
      var row :| row in table && row.place == p && row.tokens != [];
      assert row.tokens[0] in toks;
    }
  }

  /** The chart as written fails exactly on a place with no rows or no tokens, and
      otherwise draws the guarded chart. */
  lemma ChartFailures(table: seq<Review>, p: Place)
    ensures TopWordsChart(table, p) == Failure(TokenSumNotIterable) <==> RowsAt(table, p) == []
    ensures TopWordsChart(table, p) == Failure(NothingToUnpack) <==>
              RowsAt(table, p) != [] && TopWordsChartGuarded(table, p).0 == []
  {
  }

  /** The input that shows the failure: a selectable place whose only review has
      no tokens. */
  lemma PlaceWithoutTokensBreaksChart()
    ensures var table := [Review("Phewa Lake", 28.2, 83.9, Neutral, [])];
            TopWordsChart(table, "Phewa Lake") == Failure(NothingToUnpack)
  {
    var table := [Review("Phewa Lake", 28.2, 83.9, Neutral, [])];
    assert RowsAt(table, "Phewa Lake") == table;
    ChartEmptyIffNoTokens(table, "Phewa Lake");
  }

  /** The chart reads the unfiltered table, but for a place of the selection (the
      only places the selector offers) that is the same as reading the filtered
      rows. */
  lemma ChartScopeAgrees(table: seq<Review>, selected: set<Place>, p: Place)
    requires p in selected
    ensures TopWordsChart(Filter(table, selected), p) == TopWordsChart(table, p)
    ensures TopWordsChartGuarded(Filter(table, selected), p) == TopWordsChartGuarded(table, p)
  {
    RowsAtFiltered(table, selected, p);
  }
}
