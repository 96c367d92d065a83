/** Python's `collections.Counter` as the script uses it: counting how often each
    token occurs, the keys in first-encounter order, and `most_common(n)`.

    `most_common(n)` is `heapq.nlargest(n, items, key=count)`, which behaves like a
    stable sort by descending count cut to n entries: among equal counts, the token
    met first in the input comes first. `SelectTop` below reaches the same list by
    repeatedly taking the best-ranked remaining token. */
module Counter {

  /** `Counter(xs)[x]`: how often `x` occurs in `xs`. */
  function Count(xs: seq<string>, x: string): nat {
    multiset(xs)[x]
  }

  predicate NoDup(xs: seq<string>) {
    forall i, j :: 0 <= i < j < |xs| ==> xs[i] != xs[j]
  }

  /** The keys of `Counter(xs)`: each distinct element once, in first-encounter order. */
  function Distinct(xs: seq<string>): (d: seq<string>)
    ensures NoDup(d)
    ensures forall x :: x in d <==> x in xs
    ensures |d| <= |xs|
  {
    if xs == [] then []
    else
      var pre, last := xs[..|xs| - 1], xs[|xs| - 1];
      assert xs == pre + [last];
      var d := Distinct(pre);
      if last in d then d else d + [last]
  }

  /** Position of the first occurrence of `x` in `xs`. */
  function FirstIndex(xs: seq<string>, x: string): (i: nat)
    requires x in xs
    ensures i < |xs| && xs[i] == x
  {
    if xs[0] == x then 0 else 1 + FirstIndex(xs[1..], x)
  }

  /** No occurrence of `x` comes before `FirstIndex(xs, x)`. */
  lemma {:induction false} FirstIndexIsFirst(xs: seq<string>, x: string)
    requires x in xs
    ensures forall k :: 0 <= k < FirstIndex(xs, x) ==> xs[k] != x
  {
    if xs[0] != x {
      FirstIndexIsFirst(xs[1..], x);
    }
  }

  /** The first occurrence is the only position before which `x` does not occur. */
  lemma {:induction false} FirstIndexUnique(xs: seq<string>, x: string, i: nat)
    requires i < |xs| && xs[i] == x
    requires forall k :: 0 <= k < i ==> xs[k] != x
    ensures FirstIndex(xs, x) == i
    decreases i
  {
    if i > 0 {
      assert xs[0] != x && xs[1..][i - 1] == x;
      FirstIndexUnique(xs[1..], x, i - 1);
    }
  }

  /** Extending a sequence at the end does not move first occurrences. */
  lemma FirstIndexPrefix(a: seq<string>, b: seq<string>, x: string)
    requires x in a
    ensures x in a + b && FirstIndex(a + b, x) == FirstIndex(a, x)
  {
    FirstIndexIsFirst(a, x);
    FirstIndexUnique(a + b, x, FirstIndex(a, x));
  }

  /** `ws` lists elements of `xs` in the order of their first occurrence in `xs`. */
  predicate InEncounterOrder(xs: seq<string>, ws: seq<string>) {
    && (forall w :: w in ws ==> w in xs)
    && (forall i, j :: 0 <= i < j < |ws| ==> FirstIndex(xs, ws[i]) < FirstIndex(xs, ws[j]))
  }

  lemma {:induction false} DistinctInEncounterOrder(xs: seq<string>)
    ensures InEncounterOrder(xs, Distinct(xs))
    decreases |xs|
  {
    if xs != [] {
      var pre, last := xs[..|xs| - 1], xs[|xs| - 1];
      assert xs == pre + [last];
      DistinctInEncounterOrder(pre);
      var d := Distinct(pre);
      forall w | w in d
        ensures FirstIndex(xs, w) == FirstIndex(pre, w) < |xs| - 1
      {
        FirstIndexPrefix(pre, [last], w);
      }
      if last !in d {
        assert xs[..|xs| - 1] == pre;
        FirstIndexUnique(xs, last, |xs| - 1);
        var d' := d + [last];
        forall i, j | 0 <= i < j < |d'|
          ensures FirstIndex(xs, d'[i]) < FirstIndex(xs, d'[j])
        {
          assert d'[i] == d[i];
          if j < |d| {
            assert d'[j] == d[j];
          }
        }
      }
    }
  }

  lemma InEncounterOrderTail(xs: seq<string>, ws: seq<string>)
    requires ws != [] && InEncounterOrder(xs, ws)
    ensures InEncounterOrder(xs, ws[1..])
    ensures forall w :: w in ws[1..] ==> FirstIndex(xs, ws[0]) < FirstIndex(xs, w)
  {
    forall w | w in ws[1..]
      ensures FirstIndex(xs, ws[0]) < FirstIndex(xs, w)
    {
      var k :| 0 <= k < |ws[1..]| && ws[1..][k] == w;
      assert ws[k + 1] == w;
    }
    forall i, j | 0 <= i < j < |ws[1..]|
      ensures FirstIndex(xs, ws[1..][i]) < FirstIndex(xs, ws[1..][j])
    {
      assert ws[1..][i] == ws[i + 1] && ws[1..][j] == ws[j + 1];
    }
  }

  /** The ranking `most_common` sorts by: more occurrences first, and among equal
      counts the element met first in `xs`. */
  predicate Outranks(xs: seq<string>, u: string, v: string)
    requires u in xs && v in xs
  {
    || Count(xs, u) > Count(xs, v)
    || (Count(xs, u) == Count(xs, v) && FirstIndex(xs, u) < FirstIndex(xs, v))
  }

  /** The best-ranked element of a non-empty candidate list given in encounter order:
      the first one with the largest count. */
  function Best(xs: seq<string>, cands: seq<string>): (b: string)
    requires cands != [] && InEncounterOrder(xs, cands)
    ensures b in cands
    ensures forall c :: c in cands && c != b ==> Outranks(xs, b, c)
  {
    if |cands| == 1 then cands[0]
    else
      InEncounterOrderTail(xs, cands);
      var rest := Best(xs, cands[1..]);
      assert forall c :: c in cands && c != cands[0] ==> c in cands[1..];
      if Count(xs, cands[0]) >= Count(xs, rest) then cands[0] else rest
  }

  /** `ws` with every occurrence of `b` removed, order kept. */
  function Without(ws: seq<string>, b: string): (r: seq<string>)
    ensures forall x :: x in r <==> x in ws && x != b
  {
    if ws == [] then []
    else (if ws[0] == b then [] else [ws[0]]) + Without(ws[1..], b)
  }

  /** An element met before every element of a list in encounter order may head it. */
  lemma InEncounterOrderCons(xs: seq<string>, w: string, rest: seq<string>)
    requires w in xs && InEncounterOrder(xs, rest)
    requires forall v :: v in rest ==> FirstIndex(xs, w) < FirstIndex(xs, v)
    ensures InEncounterOrder(xs, [w] + rest)
  {
    ConsOrdered(xs, w, rest);
    var r := [w] + rest;
    assert forall v :: v in r ==> v == w || v in rest;
  }

  lemma ConsOrdered(xs: seq<string>, w: string, rest: seq<string>)
    requires w in xs && InEncounterOrder(xs, rest)
    requires forall v :: v in rest ==> FirstIndex(xs, w) < FirstIndex(xs, v)
    ensures forall i, j :: 0 <= i < j < |[w] + rest| ==>
              FirstIndex(xs, ([w] + rest)[i]) < FirstIndex(xs, ([w] + rest)[j])
  {
    var r := [w] + rest;
    forall i, j | 0 <= i < j < |r|
      ensures FirstIndex(xs, r[i]) < FirstIndex(xs, r[j])
    {
      if i == 0 {
        assert r[i] == w && r[j] == rest[j - 1] && rest[j - 1] in rest;
      } else {
        assert r[i] == rest[i - 1] && r[j] == rest[j - 1];
      }
    }
  }

  lemma {:induction false} WithoutInEncounterOrder(xs: seq<string>, ws: seq<string>, b: string)
    requires InEncounterOrder(xs, ws)
    ensures InEncounterOrder(xs, Without(ws, b))
    decreases |ws|
  {
    if ws != [] {
      InEncounterOrderTail(xs, ws);
      WithoutInEncounterOrder(xs, ws[1..], b);
      if ws[0] != b {
        assert ws[0] in ws;
        InEncounterOrderCons(xs, ws[0], Without(ws[1..], b));
      }
    }
  }

  /** `r` is what `most_common(n)` keeps from the candidates `cands`: at most `n`
      of them, all of them when fewer are kept, strictly in rank order, and each
      outranking every candidate left out. */
  ghost predicate RankedSelection(xs: seq<string>, cands: seq<string>, n: nat, r: seq<string>)
    requires forall c :: c in cands ==> c in xs
  {
    && |r| <= n
    && (forall w :: w in r ==> w in cands)
    && (|r| < n ==> forall c :: c in cands ==> c in r)
    && (forall i, j :: 0 <= i < j < |r| ==> Outranks(xs, r[i], r[j]))
    && (forall i, c :: 0 <= i < |r| && c in cands && c !in r ==> Outranks(xs, r[i], c))
  }

  /** Putting the best candidate in front of a ranked selection from the others. */
  lemma RankedSelectionCons(xs: seq<string>, cands: seq<string>, n: nat, b: string, rest: seq<string>)
    requires n > 0 && cands != [] && InEncounterOrder(xs, cands)
    requires b == Best(xs, cands)
    requires RankedSelection(xs, Without(cands, b), n - 1, rest)
    ensures RankedSelection(xs, cands, n, [b] + rest)
  {
    var r := [b] + rest;
    assert forall i :: 0 < i < |r| ==> r[i] == rest[i - 1];
    assert forall w :: w in r ==> w == b || w in rest;
    forall i, j | 0 <= i < j < |r| ensures Outranks(xs, r[i], r[j]) {
      if i > 0 {
        assert r[i] == rest[i - 1] && r[j] == rest[j - 1];
      } else {
        assert r[j] in rest;
      }
    }
    forall i, c | 0 <= i < |r| && c in cands && c !in r ensures Outranks(xs, r[i], c) {
      assert c in Without(cands, b);
      if i > 0 {
        assert r[i] == rest[i - 1];
      }
    }
  }

  /** The `n` best-ranked candidates, best first. */
  function SelectTop(xs: seq<string>, cands: seq<string>, n: nat): (r: seq<string>)
    requires InEncounterOrder(xs, cands)
    ensures RankedSelection(xs, cands, n, r)
    decreases n
  {
    if n == 0 || cands == [] then []
    else
      var b := Best(xs, cands);
      WithoutInEncounterOrder(xs, cands, b);
      var rest := SelectTop(xs, Without(cands, b), n - 1);
      RankedSelectionCons(xs, cands, n, b, rest);
      [b] + rest
  }

  /** The words of `Counter(xs).most_common(n)`, best-ranked first. */
  function TopWords(xs: seq<string>, n: nat): (ws: seq<string>)
    ensures |ws| <= n
    ensures forall w :: w in ws ==> w in xs
  {
    DistinctInEncounterOrder(xs);
    SelectTop(xs, Distinct(xs), n)
  }

  /** What `most_common(n)` promises: at most `n` distinct elements of `xs`, by
      non-increasing count with ties in first-encounter order; every element left
      out ranks below every element kept (so when the list is full, none occurs
      more often than its last word), and when fewer than `n` are kept none is
      left out. */
  lemma TopWordsRanked(xs: seq<string>, n: nat)
    ensures var ws := TopWords(xs, n);
      && NoDup(ws)
      && (forall i, j :: 0 <= i < j < |ws| ==> Count(xs, ws[i]) >= Count(xs, ws[j]))
      && (forall i, j :: 0 <= i < j < |ws| && Count(xs, ws[i]) == Count(xs, ws[j]) ==>
            FirstIndex(xs, ws[i]) < FirstIndex(xs, ws[j]))
      && (forall i, w :: 0 <= i < |ws| && w in xs && w !in ws ==>
            Count(xs, w) < Count(xs, ws[i]) ||
            (Count(xs, w) == Count(xs, ws[i]) && FirstIndex(xs, ws[i]) < FirstIndex(xs, w)))
      && (|ws| == n > 0 ==> forall w :: w in xs && w !in ws ==> Count(xs, w) <= Count(xs, ws[n - 1]))
      && (|ws| < n ==> forall w :: w in xs ==> w in ws)
  {
    DistinctInEncounterOrder(xs);
    var ws := TopWords(xs, n);
    assert RankedSelection(xs, Distinct(xs), n, ws);
  }

  /** `Counter(xs).most_common(n)`: the top words paired with their counts. */
  function MostCommon(xs: seq<string>, n: nat): (r: seq<(string, nat)>)
    ensures Words(r) == TopWords(xs, n)
    ensures forall i :: 0 <= i < |r| ==> r[i].1 == Count(xs, r[i].0) >= 1
    ensures forall i, j :: 0 <= i < j < |r| ==> r[i].1 >= r[j].1
  {
    TopWordsRanked(xs, n);
    var ws := TopWords(xs, n);
    var r := seq(|ws|, i requires 0 <= i < |ws| => (ws[i], Count(xs, ws[i])));
    forall i | 0 <= i < |ws| ensures ws[i] in multiset(xs) {
      assert ws[i] in ws;
    }
    r
  }

  /** The first components of a list of pairs (`zip(*pairs)[0]`). */
  function Words(r: seq<(string, nat)>): (ws: seq<string>)
    ensures |ws| == |r| && forall i :: 0 <= i < |r| ==> ws[i] == r[i].0
  {
    seq(|r|, i requires 0 <= i < |r| => r[i].0)
  }

  /** The second components of a list of pairs (`zip(*pairs)[1]`). */
  function Counts(r: seq<(string, nat)>): (cs: seq<nat>)
    ensures |cs| == |r| && forall i :: 0 <= i < |r| ==> cs[i] == r[i].1
  {
    seq(|r|, i requires 0 <= i < |r| => r[i].1)
  }

  /** Sum of the counts of `keys` in `xs`. */
  function SumOfCounts(keys: seq<string>, xs: seq<string>): nat {
    if keys == [] then 0 else Count(xs, keys[0]) + SumOfCounts(keys[1..], xs)
  }

  lemma {:induction false} SumOfCountsSnoc(keys: seq<string>, xs: seq<string>, x: string)
    requires NoDup(keys)
    ensures SumOfCounts(keys, xs + [x]) == SumOfCounts(keys, xs) + (if x in keys then 1 else 0)
    decreases |keys|
  {
    if keys != [] {
      assert NoDup(keys[1..]) by {
        forall i, j | 0 <= i < j < |keys[1..]| ensures keys[1..][i] != keys[1..][j] {
          assert keys[1..][i] == keys[i + 1] && keys[1..][j] == keys[j + 1];
        }
      }
      SumOfCountsSnoc(keys[1..], xs, x);
      assert x in keys <==> x == keys[0] || x in keys[1..];
      assert x == keys[0] ==> x !in keys[1..];
      assert multiset(xs + [x]) == multiset(xs) + multiset{x};
    }
  }

  /** Counting every key that occurs, each once, accounts for every element. */
  lemma {:induction false} SumOfCountsIsLength(keys: seq<string>, xs: seq<string>)
    requires NoDup(keys)
    requires forall x :: x in xs ==> x in keys
    ensures SumOfCounts(keys, xs) == |xs|
    decreases |xs|
  {
    if xs == [] {
      SumOfCountsEmpty(keys);
    } else {
      var pre, last := xs[..|xs| - 1], xs[|xs| - 1];
      assert xs == pre + [last];
      SumOfCountsIsLength(keys, pre);
      SumOfCountsSnoc(keys, pre, last);
    }
  }

  lemma {:induction false} SumOfCountsEmpty(keys: seq<string>)
    ensures SumOfCounts(keys, []) == 0
    decreases |keys|
  {
    if keys != [] {
      SumOfCountsEmpty(keys[1..]);
    }
  }
}
