/** The review table after loading (one row per review) and the row-level
    operations the dashboard applies to it: the place filter, grouping by place
    and sentiment, and concatenating token lists. */
module Reviews {
  import opened Counter

  type Place = string
  type Sentiment = string

  /** One row of the loaded table. `tokens` is the already-parsed `review_tokens`. */
  datatype Review = Review(place: Place, lat: real, lng: real, sentiment: Sentiment, tokens: seq<string>)

  /** `df[df['place'].isin(selected)]`: the rows whose place is selected, in table order. */
  function Filter(table: seq<Review>, selected: set<Place>): (r: seq<Review>)
    ensures forall row :: row in r ==> row.place in selected
    ensures |r| <= |table|
  {
    if table == [] then []
    else
      (if table[0].place in selected then [table[0]] else []) + Filter(table[1..], selected)
  }

  /** The filter keeps exactly the rows of selected places, each as often as in the
      table, and drops every other row. */
  lemma {:induction false} FilterKeepsSelected(table: seq<Review>, selected: set<Place>)
    ensures forall row :: multiset(Filter(table, selected))[row] ==
              if row.place in selected then multiset(table)[row] else 0
    decreases |table|
  {
    if table != [] {
      FilterKeepsSelected(table[1..], selected);
      assert table == [table[0]] + table[1..];
    }
  }

  /** The filter keeps the relative order of rows: filtering a concatenation is the
      concatenation of the filtered parts. */
  lemma {:induction false} FilterAppend(a: seq<Review>, b: seq<Review>, selected: set<Place>)
    ensures Filter(a + b, selected) == Filter(a, selected) + Filter(b, selected)
    decreases |a|
  {
    if a != [] {
      var head := if a[0].place in selected then [a[0]] else [];
      assert (a + b)[0] == a[0] && (a + b)[1..] == a[1..] + b;
      calc {
        Filter(a + b, selected);
        head + Filter(a[1..] + b, selected);
        { FilterAppend(a[1..], b, selected); }
        head + (Filter(a[1..], selected) + Filter(b, selected));
        (head + Filter(a[1..], selected)) + Filter(b, selected);
      }
    } else {
      assert a + b == b;
    }
  }

  /** Deselecting every place leaves no rows (not the whole table). */
  lemma {:induction false} FilterEmptySelection(table: seq<Review>)
    ensures Filter(table, {}) == []
    decreases |table|
  {
    if table != [] {
      FilterEmptySelection(table[1..]);
    }
  }

  /** Selecting every place of the table leaves the table unchanged. */
  lemma {:induction false} FilterAllPlaces(table: seq<Review>, selected: set<Place>)
    requires forall row :: row in table ==> row.place in selected
    ensures Filter(table, selected) == table
    decreases |table|
  {
    if table != [] {
      assert table == [table[0]] + table[1..];
      FilterAllPlaces(table[1..], selected);
    }
  }

  /** Filtering twice is filtering once by the common places. */
  lemma {:induction false} FilterTwice(table: seq<Review>, a: set<Place>, b: set<Place>)
    ensures Filter(Filter(table, a), b) == Filter(table, a * b)
    decreases |table|
  {
    if table != [] {
      FilterTwice(table[1..], a, b);
      var head := if table[0].place in a then [table[0]] else [];
      FilterAppend(head, Filter(table[1..], a), b);
      if table[0].place in a {
        assert Filter(head, b) == (if table[0].place in b then [table[0]] else []) + Filter([], b);
      }
    }
  }

  /** The `place` column. */
  function PlacesOf(rows: seq<Review>): (ps: seq<Place>)
    ensures |ps| == |rows| && forall i :: 0 <= i < |rows| ==> ps[i] == rows[i].place
  {
    seq(|rows|, i requires 0 <= i < |rows| => rows[i].place)
  }

  /** The `sentiment` column. */
  function SentimentsOf(rows: seq<Review>): (ss: seq<Sentiment>)
    ensures |ss| == |rows| && forall i :: 0 <= i < |rows| ==> ss[i] == rows[i].sentiment
  {
    seq(|rows|, i requires 0 <= i < |rows| => rows[i].sentiment)
  }

  /** The places that occur in the rows. */
  function PlaceSet(rows: seq<Review>): set<Place>
  {
    set row | row in rows :: row.place
  }

  /** The labels that occur in the rows. */
  function SentimentSet(rows: seq<Review>): set<Sentiment>
  {
    set row | row in rows :: row.sentiment
  }

  lemma PlaceColumnMembers(rows: seq<Review>)
    ensures forall p :: p in PlacesOf(rows) <==> p in PlaceSet(rows)
  {
    forall p | p in PlaceSet(rows) ensures p in PlacesOf(rows) {
      var row :| row in rows && row.place == p;
      var i :| 0 <= i < |rows| && rows[i] == row;
      assert PlacesOf(rows)[i] == p;
    }
  }

  lemma SentimentColumnMembers(rows: seq<Review>)
    ensures forall s :: s in SentimentsOf(rows) <==> s in SentimentSet(rows)
  {
    forall s | s in SentimentSet(rows) ensures s in SentimentsOf(rows) {
      var row :| row in rows && row.sentiment == s;
      var i :| 0 <= i < |rows| && rows[i] == row;
      assert SentimentsOf(rows)[i] == s;
    }
  }

  /** The rows of one place (`groupby("place")`, one group). */
  function RowsAt(rows: seq<Review>, p: Place): seq<Review> {
    Filter(rows, {p})
  }

  lemma RowsAtMembers(rows: seq<Review>, p: Place)
    ensures forall row :: row in RowsAt(rows, p) <==> row in rows && row.place == p
  {
    FilterKeepsSelected(rows, {p});
    var g := RowsAt(rows, p);
    assert forall row :: row in g <==> row in multiset(g);
  }

  /** The rows with one sentiment label, in order (`groupby("sentiment")`, one group). */
  function WithSentiment(rows: seq<Review>, s: Sentiment): seq<Review> {
    if rows == [] then []
    else (if rows[0].sentiment == s then [rows[0]] else []) + WithSentiment(rows[1..], s)
  }

  lemma {:induction false} WithSentimentMembers(rows: seq<Review>, s: Sentiment)
    ensures forall row :: row in WithSentiment(rows, s) <==> row in rows && row.sentiment == s
    decreases |rows|
  {
    if rows != [] {
      WithSentimentMembers(rows[1..], s);
      assert forall row :: row in rows <==> row == rows[0] || row in rows[1..];
    }
  }

  /** A label group is no larger than the rows it is drawn from. */
  lemma {:induction false} WithSentimentLength(rows: seq<Review>, s: Sentiment)
    ensures |WithSentiment(rows, s)| <= |rows|
    decreases |rows|
  {
    if rows != [] {
      WithSentimentLength(rows[1..], s);
    }
  }

  /** `sum(group['review_tokens'], [])`: all token lists of the rows, concatenated in order. */
  function Flatten(rows: seq<Review>): seq<string> {
    if rows == [] then [] else rows[0].tokens + Flatten(rows[1..])
  }

  /** Every concatenated token comes from some row, and every row's tokens are in. */
  lemma {:induction false} FlattenMembers(rows: seq<Review>)
    ensures forall t :: t in Flatten(rows) <==> exists row :: row in rows && t in row.tokens
    decreases |rows|
  {
    if rows != [] {
      FlattenMembers(rows[1..]);
      assert forall row :: row in rows <==> row == rows[0] || row in rows[1..];
    }
  }

  /** Concatenation is compatible with splitting the rows. */
  lemma {:induction false} FlattenAppend(a: seq<Review>, b: seq<Review>)
    ensures Flatten(a + b) == Flatten(a) + Flatten(b)
    decreases |a|
  {
    if a != [] {
      assert (a + b)[0] == a[0] && (a + b)[1..] == a[1..] + b;
      calc {
        Flatten(a + b);
        a[0].tokens + Flatten(a[1..] + b);
        { FlattenAppend(a[1..], b); }
        a[0].tokens + (Flatten(a[1..]) + Flatten(b));
        (a[0].tokens + Flatten(a[1..])) + Flatten(b);
      }
    } else {
      assert a + b == b;
    }
  }

  /** A place's rows are exactly as many as its occurrences in the `place` column. */
  lemma {:induction false} RowsAtCount(rows: seq<Review>, p: Place)
    ensures |RowsAt(rows, p)| == Count(PlacesOf(rows), p)
    decreases |rows|
  {
    if rows != [] {
      RowsAtCount(rows[1..], p);
      assert PlacesOf(rows) == [rows[0].place] + PlacesOf(rows[1..]);
    }
  }

  /** The rows of a selected place are the same in the filtered and in the full table. */
  lemma {:induction false} RowsAtFiltered(table: seq<Review>, selected: set<Place>, p: Place)
    requires p in selected
    ensures RowsAt(Filter(table, selected), p) == RowsAt(table, p)
  {
    FilterTwice(table, selected, {p});
    assert selected * {p} == {p};
  }
}
