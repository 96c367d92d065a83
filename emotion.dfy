/** The per-place tables built from the filtered rows: review counts per
    (place, sentiment) with a per-place total, and one coordinate pair per place. */
module Emotion {
  import opened Counter
  import opened Reviews

  /** `emotion_counts`: `groupby(['place','sentiment']).size().unstack(fill_value=0)`
      plus the `total_reviews` column. One row per place, one column per sentiment
      label that occurs anywhere in the rows. */
  datatype EmotionCounts = EmotionCounts(
    places: seq<Place>,
    columns: seq<Sentiment>,
    count: map<Place, map<Sentiment, nat>>,
    total: map<Place, nat>)

  /** Sum of the values of `m` at `keys`: `sum(axis=1)` over the columns `keys`. */
  function SumAt(keys: seq<string>, m: map<string, nat>): nat
    requires forall k :: k in keys ==> k in m
  {
    if keys == [] then 0 else m[keys[0]] + SumAt(keys[1..], m)
  }

  /** The columns of the unstacked table: every label that occurs in the rows. */
  function Columns(rows: seq<Review>): (cols: seq<Sentiment>)
    ensures NoDup(cols) && forall s :: s in cols <==> s in SentimentSet(rows)
  {
    SentimentColumnMembers(rows);
    Distinct(SentimentsOf(rows))
  }

  /** One row of the unstacked table: the count of every column label among the
      rows of place `p` (0 where there is none). */
  function CountRow(rows: seq<Review>, p: Place): (m: map<Sentiment, nat>)
    ensures forall s :: s in m <==> s in SentimentSet(rows)
  {
    map s | s in Columns(rows) :: Count(SentimentsOf(RowsAt(rows, p)), s)
  }

  /** `total_reviews` of place `p`: the row sum over all columns. */
  function Total(rows: seq<Review>, p: Place): nat {
    SumAt(Columns(rows), CountRow(rows, p))
  }

  /** Lines 38-39. Places and labels are listed in first-appearance order; pandas
      sorts them, which changes no count. */
  function EmotionCountsOf(rows: seq<Review>): (ec: EmotionCounts)
    ensures ec.count.Keys == ec.total.Keys == PlaceSet(rows)
    ensures ec.columns == Columns(rows)
    ensures NoDup(ec.places) && (forall p :: p in ec.places <==> p in PlaceSet(rows))
    ensures forall p :: p in ec.count ==> ec.count[p] == CountRow(rows, p) && ec.total[p] == Total(rows, p)
  {
    var places := Distinct(PlacesOf(rows));
    PlaceColumnMembers(rows);
    var count := map p | p in places :: CountRow(rows, p);
    var total := map p | p in places :: Total(rows, p);
    EmotionCounts(places, Columns(rows), count, total)
  }

  /** `Count` over a projected column is the size of the matching group. */
  lemma {:induction false} CountIsGroupSize(g: seq<Review>, s: Sentiment)
    ensures Count(SentimentsOf(g), s) == |WithSentiment(g, s)|
    decreases |g|
  {
    if g != [] {
      CountIsGroupSize(g[1..], s);
      assert SentimentsOf(g) == [g[0].sentiment] + SentimentsOf(g[1..]);
    }
  }

  /** A sum over keys of values that are counts is the sum of those counts. */
  lemma {:induction false} SumAtCounts(keys: seq<string>, m: map<string, nat>, xs: seq<string>)
    requires forall k :: k in keys ==> k in m && m[k] == Count(xs, k)
    ensures SumAt(keys, m) == SumOfCounts(keys, xs)
    decreases |keys|
  {
    if keys != [] {
      SumAtCounts(keys[1..], m, xs);
    }
  }

  /** Every (place, label) cell is the number of rows with that place and label; a
      label that occurs in the selection but never at this place reads 0 rather
      than being omitted. */
  lemma CountCell(rows: seq<Review>, p: Place, s: Sentiment)
    requires p in PlaceSet(rows) && s in SentimentSet(rows)
    ensures s in EmotionCountsOf(rows).count[p]
    ensures EmotionCountsOf(rows).count[p][s] == |WithSentiment(RowsAt(rows, p), s)|
    ensures EmotionCountsOf(rows).count[p][s] == 0 <==>
              forall row :: row in rows && row.place == p ==> row.sentiment != s
  {
    var ec := EmotionCountsOf(rows);
    assert ec.count[p] == CountRow(rows, p);
    CountIsGroupSize(RowsAt(rows, p), s);
    RowsAtMembers(rows, p);
    WithSentimentMembers(RowsAt(rows, p), s);
    var g := WithSentiment(RowsAt(rows, p), s);
    if g != [] {
      assert g[0] in g;
    }
  }

  /** A place's row sum is the number of its rows. */
  lemma TotalIsGroupSize(rows: seq<Review>, p: Place)
    ensures Total(rows, p) == |RowsAt(rows, p)|
  {
    var cols := Columns(rows);
    var g := RowsAt(rows, p);
    var ss := SentimentsOf(g);
    SumAtCounts(cols, CountRow(rows, p), ss);
    RowsAtMembers(rows, p);
    forall s | s in ss ensures s in cols {
      var i :| 0 <= i < |g| && ss[i] == s;
      assert g[i] in rows;
    }
    SumOfCountsIsLength(cols, ss);
  }

  /** `total_reviews` of a place is the number of its rows, hence at least 1. */
  lemma TotalIsReviewCount(rows: seq<Review>, p: Place)
    requires p in PlaceSet(rows)
    ensures EmotionCountsOf(rows).total[p] == |RowsAt(rows, p)| >= 1
  {
    TotalIsGroupSize(rows, p);
    RowsAtMembers(rows, p);
    var row :| row in rows && row.place == p;
    assert row in RowsAt(rows, p);
  }

  /** Summed over all places, the totals are the number of rows. */
  lemma TotalsSumToRowCount(rows: seq<Review>)
    ensures SumAt(EmotionCountsOf(rows).places, EmotionCountsOf(rows).total) == |rows|
  {
    var ec := EmotionCountsOf(rows);
    forall p | p in ec.places ensures ec.total[p] == Count(PlacesOf(rows), p) {
      TotalIsReviewCount(rows, p);
      RowsAtCount(rows, p);
    }
    SumAtCounts(ec.places, ec.total, PlacesOf(rows));
    forall p | p in PlacesOf(rows) ensures p in ec.places {
      var i :| 0 <= i < |rows| && PlacesOf(rows)[i] == p;
      assert rows[i] in rows;
    }
    SumOfCountsIsLength(ec.places, PlacesOf(rows));
  }

  /** One row of `place_info`. */
  datatype PlaceCoords = PlaceCoords(place: Place, lat: real, lng: real)

  function InfoPlaces(info: seq<PlaceCoords>): (ps: seq<Place>)
    ensures |ps| == |info| && forall i :: 0 <= i < |info| ==> ps[i] == info[i].place
  {
    seq(|info|, i requires 0 <= i < |info| => info[i].place)
  }

  /** `df_filtered[['place','lat','lng']].drop_duplicates(subset=['place'])`: the
      coordinates of the first row of each place, in table order. */
  function PlaceInfo(rows: seq<Review>): (info: seq<PlaceCoords>)
  {
    if rows == [] then []
    else
      var info := PlaceInfo(rows[..|rows| - 1]);
      var last := rows[|rows| - 1];
      if last.place in InfoPlaces(info) then info
      else info + [PlaceCoords(last.place, last.lat, last.lng)]
  }

  /** `place_info` lists each place once, in order of first appearance. */
  lemma {:induction false} PlaceInfoPlaces(rows: seq<Review>)
    ensures InfoPlaces(PlaceInfo(rows)) == Distinct(PlacesOf(rows))
    decreases |rows|
  {
    if rows != [] {
      var pre, last := rows[..|rows| - 1], rows[|rows| - 1];
      PlaceInfoPlaces(pre);
      var ps := PlacesOf(rows);
      assert ps == PlacesOf(pre) + [last.place];
      assert ps[..|ps| - 1] == PlacesOf(pre);
      var info := PlaceInfo(pre);
      if last.place !in InfoPlaces(info) {
        assert InfoPlaces(info + [PlaceCoords(last.place, last.lat, last.lng)]) == InfoPlaces(info) + [last.place];
      }
    }
  }

  /** Appending a new element puts its first occurrence at the end. */
  lemma FirstIndexOfNew(xs: seq<string>, x: string)
    requires x !in xs
    ensures x in xs + [x] && FirstIndex(xs + [x], x) == |xs|
  {
    var ys := xs + [x];
    forall k | 0 <= k < |xs| ensures ys[k] != x {
      assert ys[k] == xs[k] && xs[k] in xs;
    }
    FirstIndexUnique(ys, x, |xs|);
  }

  /** Each `place_info` entry holds the coordinates of that place's first row. */
  lemma {:induction false} PlaceInfoFirstRows(rows: seq<Review>)
    ensures forall k :: 0 <= k < |PlaceInfo(rows)| ==>
              PlaceInfo(rows)[k].place in PlacesOf(rows) &&
              var first := rows[FirstIndex(PlacesOf(rows), PlaceInfo(rows)[k].place)];
              PlaceInfo(rows)[k] == PlaceCoords(first.place, first.lat, first.lng)
    decreases |rows|
  {
    if rows != [] {
      var pre, last := rows[..|rows| - 1], rows[|rows| - 1];
      PlaceInfoFirstRows(pre);
      PlaceInfoPlaces(pre);
      PlaceColumnMembers(pre);
      var ps := PlacesOf(rows);
      assert ps == PlacesOf(pre) + [last.place];
      var info := PlaceInfo(pre);
      forall k | 0 <= k < |info|
        ensures info[k].place in ps
        ensures FirstIndex(ps, info[k].place) == FirstIndex(PlacesOf(pre), info[k].place)
      {
        FirstIndexPrefix(PlacesOf(pre), [last.place], info[k].place);
      }
      if last.place !in InfoPlaces(info) {
        var info' := info + [PlaceCoords(last.place, last.lat, last.lng)];
        FirstIndexOfNew(PlacesOf(pre), last.place);
        forall k | 0 <= k < |info'|
          ensures info'[k].place in ps
          ensures var first := rows[FirstIndex(ps, info'[k].place)];
                  info'[k] == PlaceCoords(first.place, first.lat, first.lng)
        {
          if k < |info| {
            assert info'[k] == info[k];
          }
        }
      }
    }
  }

  /** The `place_info` row of a place (the left merge on `place`). */
  function GeoOf(info: seq<PlaceCoords>, p: Place): (c: PlaceCoords)
    requires p in InfoPlaces(info)
    ensures c in info && c.place == p
  {
    if info[0].place == p then info[0]
    else
      assert InfoPlaces(info) == [info[0].place] + InfoPlaces(info[1..]);
      GeoOf(info[1..], p)
  }

  /** Each filtered place gets exactly the coordinates of its first row. */
  lemma GeoFromFirstRow(rows: seq<Review>, p: Place)
    requires p in PlaceSet(rows)
    ensures p in InfoPlaces(PlaceInfo(rows)) && p in PlacesOf(rows)
    ensures var first := rows[FirstIndex(PlacesOf(rows), p)];
            GeoOf(PlaceInfo(rows), p) == PlaceCoords(p, first.lat, first.lng)
  {
    PlaceInfoPlaces(rows);
    PlaceInfoFirstRows(rows);
    var row :| row in rows && row.place == p;
    var i :| 0 <= i < |rows| && rows[i] == row;
    assert PlacesOf(rows)[i] == p;
    var c := GeoOf(PlaceInfo(rows), p);
    var k :| 0 <= k < |PlaceInfo(rows)| && PlaceInfo(rows)[k] == c;
  }
}
