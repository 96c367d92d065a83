/** The keyword aggregation of lines 47-62: for every (place, sentiment) group of
    the filtered rows, the five most common tokens joined with ", ", collected in
    a dictionary of dictionaries and pivoted to one row per place. */
module Keywords {
  import opened Wrappers
  import opened Counter
  import opened Reviews

  /** The exceptions the script raises on the paths this model follows. */
  datatype ScriptError =
    | MissingPlaceColumn   // KeyError: 'place' when pivoting a keyword frame built from no rows
    | ZeroDivision         // ZeroDivisionError in the summary line
    | TokenSumNotIterable  // TypeError: the token sum of no rows is the integer 0
    | NothingToUnpack      // ValueError: `words, counts = zip(*[])`

  /** `most_common(5)` at line 53. */
  const TopKeywordCount: nat := 5

  /** `", ".join(ws)`. */
  function JoinWords(ws: seq<string>): string
  {
    if ws == [] then ""
    else if |ws| == 1 then ws[0]
    else ws[0] + ", " + JoinWords(ws[1..])
  }

  /** Position of the first ", " in `s` at or after `k`, or `|s|` when there is none. */
  function FindSeparator(s: string, k: nat): (i: nat)
    requires k <= |s|
    ensures k <= i <= |s|
    ensures i < |s| ==> i + 1 < |s| && s[i] == ',' && s[i + 1] == ' '
    decreases |s| - k
  {
    if k + 1 >= |s| then |s|
    else if s[k] == ',' && s[k + 1] == ' ' then k
    else FindSeparator(s, k + 1)
  }

  /** `s.split(", ")`: the inverse of `JoinWords` for words without commas. */
  function SplitKeywords(s: string): (parts: seq<string>)
    ensures parts != []
    decreases |s|
  {
    var i := FindSeparator(s, 0);
    if i == |s| then [s] else [s[..i]] + SplitKeywords(s[i + 2..])
  }

  lemma {:induction false} FindSeparatorSkipsWord(w: string, rest: string, k: nat)
    requires ',' !in w && k <= |w|
    ensures rest == "" ==> FindSeparator(w + rest, k) == |w|
    ensures |rest| >= 2 && rest[0] == ',' && rest[1] == ' ' ==> FindSeparator(w + rest, k) == |w|
    decreases |w| - k
  {
    var s := w + rest;
    if k < |w| {
      assert s[k] == w[k] && w[k] in w;
      if k + 1 < |s| {
        FindSeparatorSkipsWord(w, rest, k + 1);
      }
    }
  }

  /** A comma-free word followed by a separator splits off as one part. */
  lemma SplitStep(w: string, rest: string)
    requires ',' !in w
    ensures SplitKeywords(w + ", " + rest) == [w] + SplitKeywords(rest)
  {
    var s := w + ", " + rest;
    assert s == w + (", " + rest);
    FindSeparatorSkipsWord(w, ", " + rest, 0);
    assert s[..|w|] == w;
    assert s[|w| + 2..] == rest;
  }

  /** A comma-free word splits to itself. */
  lemma SplitSingle(w: string)
    requires ',' !in w
    ensures SplitKeywords(w) == [w]
  {
    FindSeparatorSkipsWord(w, "", 0);
    assert w + "" == w;
  }

  /** Joining words that hold no comma and splitting again gives the words back. */
  lemma {:induction false} SplitJoin(ws: seq<string>)
    requires ws != []
    requires forall w :: w in ws ==> ',' !in w
    ensures SplitKeywords(JoinWords(ws)) == ws
    decreases |ws|
  {
    assert ws[0] in ws;
    if |ws| == 1 {
      SplitSingle(ws[0]);
    } else {
      SplitStep(ws[0], JoinWords(ws[1..]));
      SplitJoin(ws[1..]);
      assert ws == [ws[0]] + ws[1..];
    }
  }

  /** The keyword cell of one group: its five most common tokens, joined. */
  function KeywordString(tokens: seq<string>): string {
    JoinWords(Words(MostCommon(tokens, TopKeywordCount)))
  }

  /** The tokens of the (place, sentiment) group, concatenated in row order (line 51). */
  function GroupTokens(rows: seq<Review>, p: Place, s: Sentiment): seq<string> {
    Flatten(WithSentiment(RowsAt(rows, p), s))
  }

  /** The labels among a place's group are the labels of the rows with that place. */
  lemma PlaceLabels(rows: seq<Review>, p: Place)
    ensures forall s :: s in SentimentsOf(RowsAt(rows, p)) <==> s in set row | row in rows && row.place == p :: row.sentiment
  {
    var g := RowsAt(rows, p);
    var keys := set row | row in rows && row.place == p :: row.sentiment;
    RowsAtMembers(rows, p);
    SentimentColumnMembers(g);
    forall s | s in SentimentsOf(g) ensures s in keys {
      var row :| row in g && row.sentiment == s;
    }
    forall s | s in keys ensures s in SentimentsOf(g) {
      var row :| row in rows && row.place == p && row.sentiment == s;
      assert row in g;
    }
  }

  /** `top_keywords[p]`: one entry per label that occurs among the rows of `p`. */
  function PlaceKeywords(rows: seq<Review>, p: Place): (m: map<Sentiment, string>)
    ensures forall s :: s in m <==> s in SentimentsOf(RowsAt(rows, p))
    ensures m.Keys == set row | row in rows && row.place == p :: row.sentiment
    ensures forall s :: s in m ==> m[s] == KeywordString(GroupTokens(rows, p, s))
  {
    PlaceLabels(rows, p);
    map s | s in SentimentsOf(RowsAt(rows, p)) :: KeywordString(GroupTokens(rows, p, s))
  }

  /** `top_keywords` after the loop: an entry for exactly the places of the rows. */
  function KeywordTable(rows: seq<Review>): (t: map<Place, map<Sentiment, string>>)
    ensures t.Keys == PlaceSet(rows)
  {
    map p | p in PlaceSet(rows) :: PlaceKeywords(rows, p)
  }

  /** Lines 47-54: the outer loop over the place groups; each place's dictionary
      is filled by the inner loop, `FillPlaceKeywords`. */
  method TopKeywords(rows: seq<Review>) returns (top: map<Place, map<Sentiment, string>>)
    ensures top == KeywordTable(rows)
  {
    top := map[];
    var places := Distinct(PlacesOf(rows));
    var i := 0;
    while i < |places|
      invariant 0 <= i <= |places|
      invariant forall p :: p in top <==> p in places[..i]
      invariant forall p :: p in top ==> top[p] == PlaceKeywords(rows, p)
    {
      var place := places[i];
      var inner := FillPlaceKeywords(rows, place);
      top := top[place := inner];
      assert places[..i + 1] == places[..i] + [place];
      i := i + 1;
    }
    assert places[..i] == places;
    KeywordTableByCells(rows, top);
  }

  /** A dictionary with an entry for every place of the rows, each holding that
      place's keyword cells, is the keyword table. */
  lemma KeywordTableByCells(rows: seq<Review>, top: map<Place, map<Sentiment, string>>)
    requires forall p :: p in top <==> p in PlacesOf(rows)
    requires forall p :: p in top ==> top[p] == PlaceKeywords(rows, p)
    ensures top == KeywordTable(rows)
  {
    PlaceColumnMembers(rows);
    var t := KeywordTable(rows);
    assert forall p :: p in top <==> p in t;
    assert forall p :: p in t ==> top[p] == t[p];
  }

  /** Lines 49-54, the inner loop: over the sentiment groups of one place's rows,
      one entry per group holding its joined top-five tokens. */
  method FillPlaceKeywords(rows: seq<Review>, place: Place) returns (inner: map<Sentiment, string>)
    ensures inner == PlaceKeywords(rows, place)
  {
    var groupPlace := RowsAt(rows, place);
    inner := map[];
    var sentiments := Distinct(SentimentsOf(groupPlace));
    var j := 0;
    while j < |sentiments|
      invariant 0 <= j <= |sentiments|
      invariant forall s :: s in inner <==> s in sentiments[..j]
      invariant forall s :: s in inner ==> inner[s] == KeywordString(GroupTokens(rows, place, s))
    {
      var sentiment := sentiments[j];
      var tokens := Flatten(WithSentiment(groupPlace, sentiment));
      var top5 := Words(MostCommon(tokens, TopKeywordCount));
      inner := inner[sentiment := JoinWords(top5)];
      assert sentiments[..j + 1] == sentiments[..j] + [sentiment];
      j := j + 1;
    }
    assert sentiments[..j] == sentiments;
    PlaceKeywordsByCells(rows, place, inner);
  }

  /** A dictionary with an entry for every label among a place's rows, each holding
      that group's keyword string, is the place's keyword row. */
  lemma PlaceKeywordsByCells(rows: seq<Review>, p: Place, inner: map<Sentiment, string>)
    requires forall s :: s in inner <==> s in SentimentsOf(RowsAt(rows, p))
    requires forall s :: s in inner ==> inner[s] == KeywordString(GroupTokens(rows, p, s))
    ensures inner == PlaceKeywords(rows, p)
  {
    var m := PlaceKeywords(rows, p);
    assert forall s :: s in inner <==> s in m;
  }

  /** One record of the list at lines 56-60: a row of `keywords_df`. */
  datatype KeywordRecord = KeywordRecord(place: Place, sentiment: Sentiment, keywords: string)

  /** The records of `keywords_df`, one per (place, sentiment) cell of `top`. The
      frame's row order plays no part in the pivot, so they are a set. */
  function KeywordRecords(top: map<Place, map<Sentiment, string>>): set<KeywordRecord> {
    set p, s | p in top && s in top[p] :: KeywordRecord(p, s, top[p][s])
  }

  /** There are no records exactly when no place has a cell. */
  lemma RecordsEmptyIff(top: map<Place, map<Sentiment, string>>)
    ensures KeywordRecords(top) == {} <==> forall p :: p in top ==> |top[p]| == 0
  {
    if exists p :: p in top && |top[p]| != 0 {
      var p :| p in top && |top[p]| != 0;
      var s :| s in top[p];
      assert KeywordRecord(p, s, top[p][s]) in KeywordRecords(top);
    }
  }

  /** Lines 56-62 as written: with no records the frame has no `place` column and
      `pivot` raises KeyError; otherwise it gives one row per place of a record. */
  function KeywordPivot(top: map<Place, map<Sentiment, string>>): (r: Result<map<Place, map<Sentiment, string>>, ScriptError>)
    ensures r.Failure? <==> forall p :: p in top ==> |top[p]| == 0
    ensures r.Success? ==> r.value == KeywordPivotGuarded(top)
  {
    RecordsEmptyIff(top);
    if KeywordRecords(top) == {} then Failure(MissingPlaceColumn)
    else Success(KeywordPivotGuarded(top))
  }

  /** The pivot with an empty keyword frame giving an empty table. */
  function KeywordPivotGuarded(top: map<Place, map<Sentiment, string>>): (t: map<Place, map<Sentiment, string>>)
    ensures forall p :: p in t <==> p in top && |top[p]| != 0
    ensures forall p :: p in t ==> t[p] == top[p]
  {
    map p | p in top && |top[p]| != 0 :: top[p]
  }

  /** The pivot rebuilds exactly the cells of the records: each record is a cell
      holding its keywords, each cell comes from a record, and every pivot row has
      at least one cell. */
  lemma PivotRebuildsRecords(top: map<Place, map<Sentiment, string>>)
    ensures var t := KeywordPivotGuarded(top);
      && (forall r :: r in KeywordRecords(top) ==>
            r.place in t && r.sentiment in t[r.place] && t[r.place][r.sentiment] == r.keywords)
      && (forall p, s :: p in t && s in t[p] ==> KeywordRecord(p, s, t[p][s]) in KeywordRecords(top))
      && (forall p :: p in t ==> |t[p]| != 0)
  {
    var t := KeywordPivotGuarded(top);
    forall r | r in KeywordRecords(top)
      ensures r.place in t && r.sentiment in t[r.place] && t[r.place][r.sentiment] == r.keywords
    {
      var p, s :| p in top && s in top[p] && r == KeywordRecord(p, s, top[p][s]);
      assert |top[p]| != 0;
    }
  }

  /** Every place of the rows has at least one keyword cell. */
  lemma PlaceKeywordsNonEmpty(rows: seq<Review>, p: Place)
    requires p in PlaceSet(rows)
    ensures |PlaceKeywords(rows, p)| != 0
  {
    var row :| row in rows && row.place == p;
    var g := RowsAt(rows, p);
    RowsAtMembers(rows, p);
    assert row in g;
    var i :| 0 <= i < |g| && g[i] == row;
    assert SentimentsOf(g)[i] == row.sentiment;
    assert row.sentiment in PlaceKeywords(rows, p);
  }

  /** A place has a keyword cell for a label exactly when one of its rows carries it. */
  lemma KeywordCellPresent(rows: seq<Review>, p: Place, s: Sentiment)
    requires p in PlaceSet(rows)
    ensures p in KeywordTable(rows)
    ensures s in KeywordTable(rows)[p] <==> exists row :: row in rows && row.place == p && row.sentiment == s
  {
    var g := RowsAt(rows, p);
    RowsAtMembers(rows, p);
    SentimentColumnMembers(g);
    assert KeywordTable(rows)[p] == PlaceKeywords(rows, p);
    if s in PlaceKeywords(rows, p) {
      var row :| row in g && row.sentiment == s;
    }
  }

  /** The pivot keeps a table in which every place has a cell unchanged. */
  lemma PivotGuardedKeepsFullRows(top: map<Place, map<Sentiment, string>>)
    requires forall p :: p in top ==> |top[p]| != 0
    ensures KeywordPivotGuarded(top) == top
  {
    var g := KeywordPivotGuarded(top);
    assert forall p :: p in g <==> p in top;
  }

  /** Pivoting the keyword table loses no place and changes no cell, and the
      pivot as written fails exactly when there are no rows. */
  lemma PivotKeepsKeywordTable(rows: seq<Review>)
    ensures KeywordPivotGuarded(KeywordTable(rows)) == KeywordTable(rows)
    ensures KeywordPivot(KeywordTable(rows)).Failure? <==> rows == []
  {
    var t := KeywordTable(rows);
    forall p | p in t ensures |t[p]| != 0 {
      PlaceKeywordsNonEmpty(rows, p);
    }
    PivotGuardedKeepsFullRows(t);
    if rows != [] {
      assert rows[0] in rows;
      assert rows[0].place in t;
    }
  }

  /** The input that shows the failure: deselecting every place. */
  lemma EmptySelectionBreaksPivot(table: seq<Review>)
    ensures KeywordPivot(KeywordTable(Filter(table, {}))) == Failure(MissingPlaceColumn)
  {
    FilterEmptySelection(table);
    PivotKeepsKeywordTable([]);
  }

  /** Every keyword cell is the join of its group's top-five tokens, each of which
      occurs in a review of that place with that sentiment; when no token holds a
      comma the cell splits back into exactly those words. */
  lemma KeywordCell(rows: seq<Review>, p: Place, s: Sentiment)
    requires exists row :: row in rows && row.place == p && row.sentiment == s
    ensures p in KeywordTable(rows) && s in KeywordTable(rows)[p]
    ensures var top := TopWords(GroupTokens(rows, p, s), TopKeywordCount);
            && KeywordTable(rows)[p][s] == JoinWords(top)
            && (forall w :: w in top ==> exists row :: row in rows && row.place == p && row.sentiment == s && w in row.tokens)
            && (top != [] && (forall w :: w in top ==> ',' !in w) ==> SplitKeywords(KeywordTable(rows)[p][s]) == top)
  {
    var row :| row in rows && row.place == p && row.sentiment == s;
    assert p in PlaceSet(rows);
    KeywordCellPresent(rows, p, s);
    var toks := GroupTokens(rows, p, s);
    var top := TopWords(toks, TopKeywordCount);
    assert KeywordTable(rows)[p][s] == KeywordString(toks);
    RowsAtMembers(rows, p);
    WithSentimentMembers(RowsAt(rows, p), s);
    FlattenMembers(WithSentiment(RowsAt(rows, p), s));
    forall w | w in top
      ensures exists row :: row in rows && row.place == p && row.sentiment == s && w in row.tokens
    {
      var row :| row in WithSentiment(RowsAt(rows, p), s) && w in row.tokens;
    }
    if top != [] && (forall w :: w in top ==> ',' !in w) {
      SplitJoin(top);
    }
  }
}
