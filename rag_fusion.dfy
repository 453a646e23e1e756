/** Reciprocal rank fusion of several ranked retrieval lists
    (backend/llm/query_translation/rag_fusion.py). */
module RagFusion {
  import opened Docs

  /** The default `k` of the RRF formula. */
  const DefaultK: nat := 60

  /** The single document returned when every retrieval came back empty. */
  const Placeholder := Document("No relevant documents found.", map[])

  /** What one occurrence at 0-based position `rank` adds to a document's score: 1/(rank+k). */
  function Contribution(rank: nat, k: nat): (r: real)
    requires k > 0
    ensures r > 0.0
  {
    1.0 / ((rank + k) as real)
  }

  /** The score one ranked list gives `d`: the sum of 1/(rank+k) over every position
      that holds `d`, so a document repeated within the list counts once per occurrence. */
  function ListScore(docs: seq<Document>, d: Document, k: nat): real
    requires k > 0
  {
    if docs == [] then 0.0
    else
      ListScore(docs[..|docs| - 1], d, k)
      + (if docs[|docs| - 1] == d then Contribution(|docs| - 1, k) else 0.0)
  }

  lemma ListScoreStep(docs: seq<Document>, rank: nat, k: nat)
    requires k > 0 && rank < |docs|
    ensures forall d ::
      ListScore(docs[..rank + 1], d, k)
      == ListScore(docs[..rank], d, k) + (if docs[rank] == d then Contribution(rank, k) else 0.0)
  {
    assert docs[..rank + 1][..rank] == docs[..rank];
  }

  /** The fused score of `d`: the sum of its scores over all lists. */
  function FusedScore(results: seq<seq<Document>>, d: Document, k: nat): real
    requires k > 0
  {
    if results == [] then 0.0
    else FusedScore(results[..|results| - 1], d, k) + ListScore(results[|results| - 1], d, k)
  }

  /** The distinct documents of all lists in the order the loops first meet them,
      which is the insertion order of the `fused_scores` dictionary. */
  function DiscoveryOrder(results: seq<seq<Document>>): seq<Document>
  {
    Dedup(Flatten(results))
  }

  /** The `fused_scores` dictionary once every list has been read. */
  function FusedScores(results: seq<seq<Document>>, k: nat): map<Document, real>
    requires k > 0
  {
    map d | d in DiscoveryOrder(results) :: FusedScore(results, d, k)
  }

  // ---------------------------------------------------------------------------
  // `sorted(items, key=score, reverse=True)`: a stable sort by non-increasing score.

  predicate Scored(docs: seq<Document>, scores: map<Document, real>)
  {
    forall d :: d in docs ==> d in scores
  }

  predicate SortedDesc(docs: seq<Document>, scores: map<Document, real>)
    requires Scored(docs, scores)
  {
    forall i, j :: 0 <= i < j < |docs| ==> scores[docs[i]] >= scores[docs[j]]
  }

  /** The documents of `docs` whose score is exactly `v`, in their order in `docs`. */
  function Tied(docs: seq<Document>, scores: map<Document, real>, v: real): seq<Document>
    requires Scored(docs, scores)
  {
    if docs == [] then []
    else (if scores[docs[0]] == v then [docs[0]] else []) + Tied(docs[1..], scores, v)
  }

  /** Places `d` after every element whose score is at least its own. */
  function Insert(sorted: seq<Document>, d: Document, scores: map<Document, real>): (r: seq<Document>)
    requires Scored(sorted, scores) && d in scores
    ensures |r| == |sorted| + 1
    ensures forall x :: x in r <==> x in sorted || x == d
    ensures multiset(r) == multiset(sorted) + multiset{d}
  {
    if sorted == [] then [d]
    else if scores[sorted[0]] < scores[d] then [d] + sorted
    else
      var rest := Insert(sorted[1..], d, scores);
      assert sorted == [sorted[0]] + sorted[1..];
      [sorted[0]] + rest
  }

  /** Insertion sort by non-increasing score; equal scores keep their input order. */
  function SortByScoreDesc(docs: seq<Document>, scores: map<Document, real>): (r: seq<Document>)
    requires Scored(docs, scores)
    ensures Scored(r, scores)
  {
    if docs == [] then []
    else Insert(SortByScoreDesc(docs[..|docs| - 1], scores), docs[|docs| - 1], scores)
  }

  /** The sort returns a permutation of its input. */
  lemma {:induction false} SortPermutation(docs: seq<Document>, scores: map<Document, real>)
    requires Scored(docs, scores)
    ensures multiset(SortByScoreDesc(docs, scores)) == multiset(docs)
  {
    if docs != [] {
      var init := docs[..|docs| - 1];
      SortPermutation(init, scores);
      assert docs == init + [docs[|docs| - 1]];
    }
  }

  lemma {:induction false} InsertSorted(sorted: seq<Document>, d: Document, scores: map<Document, real>)
    requires Scored(sorted, scores) && d in scores && SortedDesc(sorted, scores)
    ensures SortedDesc(Insert(sorted, d, scores), scores)
  {
    if sorted != [] && scores[sorted[0]] >= scores[d] {
      var rest := Insert(sorted[1..], d, scores);
      InsertSorted(sorted[1..], d, scores);
      forall j | 0 <= j < |rest| ensures scores[sorted[0]] >= scores[rest[j]] {
        assert rest[j] in rest;
        if rest[j] != d {
          var m :| 0 <= m < |sorted[1..]| && sorted[1..][m] == rest[j];
          assert sorted[m + 1] == rest[j];
        }
      }
    }
  }

  /** The sort's output is ordered by non-increasing score. */
  lemma {:induction false} SortSorted(docs: seq<Document>, scores: map<Document, real>)
    requires Scored(docs, scores)
    ensures SortedDesc(SortByScoreDesc(docs, scores), scores)
  {
    if docs != [] {
      SortSorted(docs[..|docs| - 1], scores);
      InsertSorted(SortByScoreDesc(docs[..|docs| - 1], scores), docs[|docs| - 1], scores);
    }
  }

  lemma {:induction false} TiedAppend(a: seq<Document>, b: seq<Document>, scores: map<Document, real>, v: real)
    requires Scored(a, scores) && Scored(b, scores)
    ensures Scored(a + b, scores)
    ensures Tied(a + b, scores, v) == Tied(a, scores, v) + Tied(b, scores, v)
  {
    if a == [] {
      assert a + b == b;
    } else {
      TiedAppend(a[1..], b, scores, v);
      assert (a + b)[0] == a[0];
      assert (a + b)[1..] == a[1..] + b;
      assert Tied(a + b, scores, v)
          == (if scores[a[0]] == v then [a[0]] else []) + Tied(a[1..] + b, scores, v);
    }
  }

  lemma {:induction false} TiedNone(docs: seq<Document>, scores: map<Document, real>, v: real)
    requires Scored(docs, scores)
    requires forall i :: 0 <= i < |docs| ==> scores[docs[i]] < v
    ensures Tied(docs, scores, v) == []
  {
    if docs != [] {
      TiedNone(docs[1..], scores, v);
    }
  }

  lemma TiedCons(x: Document, rest: seq<Document>, scores: map<Document, real>, v: real)
    requires x in scores && Scored(rest, scores)
    ensures Scored([x] + rest, scores)
    ensures Tied([x] + rest, scores, v) == (if scores[x] == v then [x] else []) + Tied(rest, scores, v)
  {
    assert ([x] + rest)[0] == x && ([x] + rest)[1..] == rest;
  }

  /** Putting the same document in front of two lists whose tied parts differ by a
      suffix keeps that difference. */
  lemma TiedBehind(x: Document, s: seq<Document>, rest: seq<Document>, tail: seq<Document>, scores: map<Document, real>, v: real)
    requires x in scores && Scored(s, scores) && Scored(rest, scores)
    requires Tied(rest, scores, v) == Tied(s, scores, v) + tail
    ensures Scored([x] + s, scores) && Scored([x] + rest, scores)
    ensures Tied([x] + rest, scores, v) == Tied([x] + s, scores, v) + tail
  {
    TiedCons(x, s, scores, v);
    TiedCons(x, rest, scores, v);
    var head: seq<Document> := if scores[x] == v then [x] else [];
    assert head + (Tied(s, scores, v) + tail) == (head + Tied(s, scores, v)) + tail;
  }

  /** A document scored above the head of a sorted list is above all of it. */
  lemma SortedBelow(sorted: seq<Document>, scores: map<Document, real>, v: real)
    requires Scored(sorted, scores) && SortedDesc(sorted, scores)
    requires sorted != [] && scores[sorted[0]] < v
    ensures Tied(sorted, scores, v) == []
  {
    forall i | 0 <= i < |sorted| ensures scores[sorted[i]] < v {
      if i > 0 {
        assert scores[sorted[0]] >= scores[sorted[i]];
      }
    }
    TiedNone(sorted, scores, v);
  }

  lemma SortedTail(sorted: seq<Document>, scores: map<Document, real>)
    requires Scored(sorted, scores) && SortedDesc(sorted, scores) && sorted != []
    ensures Scored(sorted[1..], scores) && SortedDesc(sorted[1..], scores)
  {
    forall i, j | 0 <= i < j < |sorted| - 1 ensures scores[sorted[1..][i]] >= scores[sorted[1..][j]] {
      assert scores[sorted[i + 1]] >= scores[sorted[j + 1]];
    }
  }

  lemma {:induction false} InsertStable(sorted: seq<Document>, d: Document, scores: map<Document, real>, v: real)
    requires Scored(sorted, scores) && d in scores && SortedDesc(sorted, scores)
    ensures Tied(Insert(sorted, d, scores), scores, v)
            == Tied(sorted, scores, v) + (if scores[d] == v then [d] else [])
  {
    if sorted == [] {
      TiedCons(d, [], scores, v);
    } else if scores[sorted[0]] < scores[d] {
      if scores[d] == v {
        SortedBelow(sorted, scores, v);
      }
      TiedCons(d, sorted, scores, v);
    } else {
      var x := sorted[0];
      assert sorted == [x] + sorted[1..];
      SortedTail(sorted, scores);
      var rest := Insert(sorted[1..], d, scores);
      assert Insert(sorted, d, scores) == [x] + rest;
      InsertStable(sorted[1..], d, scores, v);
      TiedBehind(x, sorted[1..], rest, if scores[d] == v then [d] else [], scores, v);
    }
  }

  /** Stability: for every score value, the documents with that score come out in
      the same relative order as they went in. */
  lemma {:induction false} SortStable(docs: seq<Document>, scores: map<Document, real>, v: real)
    requires Scored(docs, scores)
    ensures Tied(SortByScoreDesc(docs, scores), scores, v) == Tied(docs, scores, v)
  {
    if docs != [] {
      var init := docs[..|docs| - 1];
      var last := docs[|docs| - 1];
      var sortedInit := SortByScoreDesc(init, scores);
      var tail: seq<Document> := if scores[last] == v then [last] else [];
      assert docs == init + [last];
      SortStable(init, scores, v);
      SortSorted(init, scores);
      InsertStable(sortedInit, last, scores, v);
      assert SortByScoreDesc(docs, scores) == Insert(sortedInit, last, scores);
      assert Tied(SortByScoreDesc(docs, scores), scores, v) == Tied(init, scores, v) + tail;
      TiedAppend(init, [last], scores, v);
      assert Tied([last], scores, v) == tail;
    }
  }

  // ---------------------------------------------------------------------------
  // The fused ranking.

  lemma FusedScoresCoverOrder(results: seq<seq<Document>>, k: nat)
    requires k > 0
    ensures Scored(DiscoveryOrder(results), FusedScores(results, k))
  {
  }

  /** What `reciprocal_rank_fusion(results, k)` returns. */
  function Fused(results: seq<seq<Document>>, k: nat): (r: seq<Document>)
    requires k > 0
    ensures multiset(r) == multiset(DiscoveryOrder(results))
    ensures Scored(r, FusedScores(results, k)) && SortedDesc(r, FusedScores(results, k))
  {
    FusedScoresCoverOrder(results, k);
    SortPermutation(DiscoveryOrder(results), FusedScores(results, k));
    SortSorted(DiscoveryOrder(results), FusedScores(results, k));
    SortByScoreDesc(DiscoveryOrder(results), FusedScores(results, k))
  }

  lemma {:induction false} ListScoreAbsent(docs: seq<Document>, d: Document, k: nat)
    requires k > 0 && d !in docs
    ensures ListScore(docs, d, k) == 0.0
  {
    if docs != [] {
      ListScoreAbsent(docs[..|docs| - 1], d, k);
    }
  }

  lemma {:induction false} FusedScoreAbsent(results: seq<seq<Document>>, d: Document, k: nat)
    requires k > 0 && d !in Flatten(results)
    ensures FusedScore(results, d, k) == 0.0
  {
    if results != [] {
      var init := results[..|results| - 1];
      FusedScoreAbsent(init, d, k);
      ListScoreAbsent(results[|results| - 1], d, k);
    }
  }

  lemma FusedScoreSnoc(before: seq<seq<Document>>, docs: seq<Document>, k: nat)
    requires k > 0
    ensures Flatten(before + [docs]) == Flatten(before) + docs
    ensures forall d ::
      FusedScore(before + [docs], d, k) == FusedScore(before, d, k) + ListScore(docs, d, k)
  {
    assert (before + [docs])[..|before|] == before;
  }

  lemma FusedScoresComplete(results: seq<seq<Document>>, k: nat, order: seq<Document>, scores: map<Document, real>)
    requires k > 0
    requires order == DiscoveryOrder(results)
    requires forall d :: d in scores <==> d in order
    requires forall d :: d in scores ==> scores[d] == FusedScore(results, d, k)
    ensures scores == FusedScores(results, k)
  {
  }

  /** One iteration of the inner loop keeps the discovery order. */
  lemma AddOneOrder(
    before: seq<seq<Document>>, docs: seq<Document>, rank: nat, order: seq<Document>, present: bool)
    requires rank < |docs|
    requires order == Dedup(Flatten(before) + docs[..rank])
    requires present <==> docs[rank] in order
    ensures (if present then order else order + [docs[rank]]) == Dedup(Flatten(before) + docs[..rank + 1])
  {
    var seen := Flatten(before) + docs[..rank];
    assert docs[..rank + 1] == docs[..rank] + [docs[rank]];
    assert seen + [docs[rank]] == Flatten(before) + docs[..rank + 1];
    DedupSnoc(seen, docs[rank]);
  }

  /** One iteration of the inner loop keeps the loop's invariant. */
  lemma AddOneStep(
    before: seq<seq<Document>>, docs: seq<Document>, rank: nat, k: nat,
    order: seq<Document>, scores: map<Document, real>, order': seq<Document>, scores': map<Document, real>)
    requires k > 0 && rank < |docs|
    requires order == Dedup(Flatten(before) + docs[..rank])
    requires forall d :: d in scores <==> d in order
    requires forall d :: d in scores ==> scores[d] == FusedScore(before, d, k) + ListScore(docs[..rank], d, k)
    requires order' == if docs[rank] in scores then order else order + [docs[rank]]
    requires scores' == scores[docs[rank] := (if docs[rank] in scores then scores[docs[rank]] else 0.0) + Contribution(rank, k)]
    ensures order' == Dedup(Flatten(before) + docs[..rank + 1])
    ensures forall d :: d in scores' <==> d in order'
    ensures forall d :: d in scores' ==> scores'[d] == FusedScore(before, d, k) + ListScore(docs[..rank + 1], d, k)
  {
    var doc := docs[rank];
    AddOneOrder(before, docs, rank, order, doc in scores);
    ListScoreStep(docs, rank, k);
    if doc !in scores {
      var seen := Flatten(before) + docs[..rank];
      DedupMembers(seen);
      FusedScoreAbsent(before, doc, k);
      ListScoreAbsent(docs[..rank], doc, k);
    }
  }

  /** One pass of the inner loop: the (rank, document) pairs of one list are added to
      the scores gathered from the lists before it. */
  method AddListScores(
    order: seq<Document>, scores: map<Document, real>, docs: seq<Document>, k: nat,
    ghost before: seq<seq<Document>>)
    returns (order': seq<Document>, scores': map<Document, real>)
    requires k > 0
    requires order == DiscoveryOrder(before)
    requires forall d :: d in scores <==> d in order
    requires forall d :: d in scores ==> scores[d] == FusedScore(before, d, k)
    ensures order' == DiscoveryOrder(before + [docs])
    ensures forall d :: d in scores' <==> d in order'
    ensures forall d :: d in scores' ==> scores'[d] == FusedScore(before + [docs], d, k)
  {
    ghost var base := Flatten(before);
    order', scores' := order, scores;
    var rank := 0;
    assert base + docs[..rank] == base;
    while rank < |docs|
      invariant 0 <= rank <= |docs|
      invariant order' == Dedup(base + docs[..rank])
      invariant forall d :: d in scores' <==> d in order'
      invariant forall d :: d in scores' ==> scores'[d] == FusedScore(before, d, k) + ListScore(docs[..rank], d, k)
    {
      var doc := docs[rank];
      ghost var order0, scores0 := order', scores';
      if doc !in scores' {
        scores' := scores'[doc := 0.0];
        order' := order' + [doc];
      }
      scores' := scores'[doc := scores'[doc] + Contribution(rank, k)];
      AddOneStep(before, docs, rank, k, order0, scores0, order', scores');
      rank := rank + 1;
    }
    assert docs[..rank] == docs;
    FusedScoreSnoc(before, docs, k);
  }

  /** `reciprocal_rank_fusion(results, k)`: the `fused_scores` dictionary is filled list
      by list, in insertion order, and its items are then sorted by score. */
  method ReciprocalRankFusion(results: seq<seq<Document>>, k: nat) returns (reranked: seq<Document>)
    requires k > 0
    ensures reranked == Fused(results, k)
  {
    var order: seq<Document> := [];
    var scores: map<Document, real> := map[];
    var i := 0;
    while i < |results|
      invariant 0 <= i <= |results|
      invariant order == DiscoveryOrder(results[..i])
      invariant forall d :: d in scores <==> d in order
      invariant forall d :: d in scores ==> scores[d] == FusedScore(results[..i], d, k)
    {
      assert results[..i + 1] == results[..i] + [results[i]];
      order, scores := AddListScores(order, scores, results[i], k, results[..i]);
      i := i + 1;
    }
    assert results[..i] == results;
    FusedScoresComplete(results, k, order, scores);
    reranked := SortByScoreDesc(order, scores);
  }

  /** Sorting keeps exactly the input's elements. */
  lemma {:induction false} SortMembers(docs: seq<Document>, scores: map<Document, real>)
    requires Scored(docs, scores)
    ensures forall x :: x in SortByScoreDesc(docs, scores) <==> x in docs
  {
    if docs != [] {
      var init := docs[..|docs| - 1];
      SortMembers(init, scores);
      assert docs == init + [docs[|docs| - 1]];
    }
  }

  lemma {:induction false} InsertDistinct(sorted: seq<Document>, d: Document, scores: map<Document, real>)
    requires Scored(sorted, scores) && d in scores
    requires NoDuplicates(sorted) && d !in sorted
    ensures NoDuplicates(Insert(sorted, d, scores))
  {
    if sorted != [] && scores[sorted[0]] >= scores[d] {
      var rest := Insert(sorted[1..], d, scores);
      InsertDistinct(sorted[1..], d, scores);
      assert sorted[0] !in sorted[1..];
      assert sorted[0] !in rest;
    }
  }

  /** Sorting a list without repeats gives a list without repeats. */
  lemma {:induction false} SortDistinct(docs: seq<Document>, scores: map<Document, real>)
    requires Scored(docs, scores) && NoDuplicates(docs)
    ensures NoDuplicates(SortByScoreDesc(docs, scores))
  {
    if docs != [] {
      var init := docs[..|docs| - 1];
      var last := docs[|docs| - 1];
      SortDistinct(init, scores);
      SortMembers(init, scores);
      assert last !in init;
      InsertDistinct(SortByScoreDesc(init, scores), last, scores);
    }
  }

  /** Every distinct input document appears exactly once in the fused ranking, and
      nothing else does. */
  lemma FusedMembers(results: seq<seq<Document>>, k: nat)
    requires k > 0
    ensures NoDuplicates(Fused(results, k))
    ensures forall d :: d in Fused(results, k) <==> exists i :: 0 <= i < |results| && d in results[i]
  {
    var order := DiscoveryOrder(results);
    var scores := FusedScores(results, k);
    DedupSpec(Flatten(results));
    SortMembers(order, scores);
    SortDistinct(order, scores);
    forall d ensures d in Fused(results, k) <==> exists i :: 0 <= i < |results| && d in results[i] {
      FlattenMembers(results, d);
    }
  }

  /** The fused ranking is ordered by non-increasing fused score. */
  lemma FusedSorted(results: seq<seq<Document>>, k: nat)
    requires k > 0
    ensures forall i, j :: 0 <= i < j < |Fused(results, k)| ==>
      FusedScore(results, Fused(results, k)[i], k) >= FusedScore(results, Fused(results, k)[j], k)
  {
    var out := Fused(results, k);
    var scores := FusedScores(results, k);
    SortSorted(DiscoveryOrder(results), scores);
    forall i, j | 0 <= i < j < |out|
      ensures FusedScore(results, out[i], k) >= FusedScore(results, out[j], k)
    {
      assert scores[out[i]] >= scores[out[j]];
    }
  }

  /** Ties keep first-discovery order: the documents sharing a fused score `v` come
      out in the order the loops first met them. */
  lemma FusedStable(results: seq<seq<Document>>, k: nat, v: real)
    requires k > 0
    ensures Scored(Fused(results, k), FusedScores(results, k))
    ensures Tied(Fused(results, k), FusedScores(results, k), v)
            == Tied(DiscoveryOrder(results), FusedScores(results, k), v)
  {
    SortStable(DiscoveryOrder(results), FusedScores(results, k), v);
  }

  /** A document has a positive fused score exactly when some list contains it. */
  lemma {:induction false} FusedScorePositive(results: seq<seq<Document>>, d: Document, k: nat)
    requires k > 0
    ensures FusedScore(results, d, k) >= 0.0
    ensures FusedScore(results, d, k) > 0.0 <==> exists i :: 0 <= i < |results| && d in results[i]
  {
    if results != [] {
      var init := results[..|results| - 1];
      var last := results[|results| - 1];
      FusedScorePositive(init, d, k);
      ListScorePositive(last, d, k);
      if exists i :: 0 <= i < |results| && d in results[i] {
        var i :| 0 <= i < |results| && d in results[i];
        if i < |results| - 1 { assert d in init[i]; }
      }
    }
  }

  lemma {:induction false} ListScorePositive(docs: seq<Document>, d: Document, k: nat)
    requires k > 0
    ensures ListScore(docs, d, k) >= 0.0
    ensures ListScore(docs, d, k) > 0.0 <==> d in docs
  {
    if docs != [] {
      var init := docs[..|docs| - 1];
      ListScorePositive(init, d, k);
      assert docs == init + [docs[|docs| - 1]];
    }
  }

  lemma ListScorePair(x: Document, y: Document, d: Document, k: nat)
    requires k > 0
    ensures ListScore([x, y], d, k)
      == (if x == d then Contribution(0, k) else 0.0) + (if y == d then Contribution(1, k) else 0.0)
  {
    assert [x, y][..1] == [x];
    assert [x][..0] == [];
    assert ListScore([x], d, k) == 0.0 + (if x == d then Contribution(0, k) else 0.0);
  }

  lemma ExampleDedup<T>(a: T, b: T, c: T)
    requires a != b && b != c && a != c
    ensures Dedup([a, b, b, c]) == [a, b, c]
  {
    DedupSnoc([], a);
    assert [] + [a] == [a];
    DedupSnoc([a], b);
    assert [a] + [b] == [a, b];
    DedupSnoc([a, b], b);
    assert [a, b] + [b] == [a, b, b];
    DedupSnoc([a, b, b], c);
    assert [a, b, b] + [c] == [a, b, b, c];
  }

  lemma ExampleOrder(a: Document, b: Document, c: Document)
    requires a != b && b != c && a != c
    ensures DiscoveryOrder([[a, b], [b, c]]) == [a, b, c]
  {
    var results := [[a, b], [b, c]];
    assert results[..1] == [[a, b]];
    assert [[a, b]][..0] == [];
    assert Flatten(results) == [a, b, b, c] by {
      assert Flatten([[a, b]]) == [a, b];
    }
    ExampleDedup(a, b, c);
  }

  lemma ExampleScores(a: Document, b: Document, c: Document)
    requires a != b && b != c && a != c
    ensures FusedScore([[a, b], [b, c]], b, DefaultK) == 1.0 / 60.0 + 1.0 / 61.0
    ensures FusedScore([[a, b], [b, c]], a, DefaultK) == 1.0 / 60.0
    ensures FusedScore([[a, b], [b, c]], c, DefaultK) == 1.0 / 61.0
  {
    var results := [[a, b], [b, c]];
    assert results[..1] == [[a, b]];
    assert [[a, b]][..0] == [];
    forall d ensures FusedScore(results, d, DefaultK) == ListScore([a, b], d, DefaultK) + ListScore([b, c], d, DefaultK) {
      assert FusedScore([[a, b]], d, DefaultK) == 0.0 + ListScore([a, b], d, DefaultK);
    }
    ListScorePair(a, b, a, DefaultK);
    ListScorePair(a, b, b, DefaultK);
    ListScorePair(a, b, c, DefaultK);
    ListScorePair(b, c, a, DefaultK);
    ListScorePair(b, c, b, DefaultK);
    ListScorePair(b, c, c, DefaultK);
  }

  lemma ExampleSort(a: Document, b: Document, c: Document, scores: map<Document, real>)
    requires a in scores && b in scores && c in scores
    requires scores[b] > scores[a] > scores[c]
    ensures Scored([a, b, c], scores)
    ensures SortByScoreDesc([a, b, c], scores) == [b, a, c]
  {
    assert [a, b, c][..2] == [a, b];
    assert [a, b][..1] == [a];
    assert [a][..0] == [];
    assert SortByScoreDesc([a], scores) == [a];
    assert SortByScoreDesc([a, b], scores) == [b, a];
    assert SortByScoreDesc([a, b, c], scores) == Insert([b, a], c, scores);
    assert [b, a][1..] == [a];
    assert Insert([a], c, scores) == [a, c];
    assert Insert([b, a], c, scores) == [b] + [a, c];
  }

  /** `[[a, b], [b, c]]` fuses to `[b, a, c]`, with scores 1/60 + 1/61, 1/60 and 1/61. */
  lemma FusionExample(a: Document, b: Document, c: Document)
    requires a != b && b != c && a != c
    ensures Fused([[a, b], [b, c]], DefaultK) == [b, a, c]
    ensures FusedScore([[a, b], [b, c]], b, DefaultK) == 1.0 / 60.0 + 1.0 / 61.0
    ensures FusedScore([[a, b], [b, c]], a, DefaultK) == 1.0 / 60.0
    ensures FusedScore([[a, b], [b, c]], c, DefaultK) == 1.0 / 61.0
  {
    ExampleOrder(a, b, c);
    ExampleScores(a, b, c);
    ExampleSort(a, b, c, FusedScores([[a, b], [b, c]], DefaultK));
  }

  /** `handle_empty_results`: the placeholder when every list is empty (or there are
      none), the fused ranking otherwise. */
  function HandleEmptyResults(results: seq<seq<Document>>): (r: seq<Document>)
    ensures (forall i :: 0 <= i < |results| ==> results[i] == []) ==> r == [Placeholder]
    ensures (exists i :: 0 <= i < |results| && results[i] != []) ==> r == Fused(results, DefaultK)
  {
    if forall i :: 0 <= i < |results| ==> results[i] == [] then [Placeholder]
    else Fused(results, DefaultK)
  }

  /** The fallback never yields an empty context, and whatever it yields is either
      the placeholder or a retrieved document. */
  lemma HandleEmptyResultsNonEmpty(results: seq<seq<Document>>)
    ensures HandleEmptyResults(results) != []
    ensures forall d :: d in HandleEmptyResults(results) ==>
      d == Placeholder || exists i :: 0 <= i < |results| && d in results[i]
  {
    FusedMembers(results, DefaultK);
    if exists i :: 0 <= i < |results| && results[i] != [] {
      var i :| 0 <= i < |results| && results[i] != [];
      assert results[i][0] in Fused(results, DefaultK);
    }
  }
}
