/**
 * recommendation_engine/tfidf_reviews.py, the second (effective) definition of
 * tfidf_recommendations_from_reviews: recommendations from the text of product reviews.
 * The TF-IDF vectoriser and the cosine similarity are a parameter: `similarity(corpus, i)` is
 * the score of document i of the corpus against document 0, the target's.
 */
module ReviewRecommender {
  import opened Wrappers
  import opened Seqs
  import opened Models
  import opened Ranking

  const PRODUCT_LIMIT: nat := 5000

  /** The slice [:PRODUCT_LIMIT * 10] on the review queries, lines 44 and 78. */
  const REVIEW_SAMPLE_LIMIT: nat := PRODUCT_LIMIT * 10

  /** review_text__isnull=False and .exclude(review_text=''). */
  predicate HasText(rv: Review)
  {
    rv.reviewText.Some? && rv.reviewText.value != ""
  }

  /** A row of values_list('review_text', 'product_id'). */
  datatype TextRow = TextRow(text: string, productId: ProductId)

  function RowOf(rv: Review): TextRow
    requires HasText(rv)
  {
    TextRow(rv.reviewText.value, rv.productId)
  }

  function RowsOf(s: seq<Review>): (r: seq<TextRow>)
    requires forall i :: 0 <= i < |s| ==> HasText(s[i])
    ensures |r| == |s| && forall i :: 0 <= i < |s| ==> r[i] == RowOf(s[i])
  {
    seq(|s|, i requires 0 <= i < |s| => RowOf(s[i]))
  }

  predicate OfTarget(target: ProductId, rv: Review)
  {
    rv.productId == target && HasText(rv)
  }

  /** The target's reviews with a usable text, in table order. */
  function TargetReviews(reviews: seq<Review>, target: ProductId): seq<Review>
  {
    Filter(reviews, rv => OfTarget(target, rv))
  }

  /** Lines 29-32: the non-empty review texts of the target, in table order. */
  function TargetTexts(reviews: seq<Review>, target: ProductId): (r: seq<string>)
    ensures |r| == |TargetReviews(reviews, target)|
    ensures forall i :: 0 <= i < |r| ==> r[i] == TargetReviews(reviews, target)[i].reviewText.value
    ensures forall i :: 0 <= i < |r| ==> r[i] != ""
    ensures forall i :: 0 <= i < |r| ==>
      exists k :: 0 <= k < |reviews| && OfTarget(target, reviews[k]) && r[i] == reviews[k].reviewText.value
    ensures forall k :: 0 <= k < |reviews| && OfTarget(target, reviews[k]) ==> reviews[k].reviewText.value in r
    ensures r == [] <==> forall k :: 0 <= k < |reviews| ==> !OfTarget(target, reviews[k])
  {
    var rows := TargetReviews(reviews, target);
    var r := seq(|rows|, i requires 0 <= i < |rows| => rows[i].reviewText.value);
    assert rows != [] ==> rows[0] in reviews;
    forall i | 0 <= i < |r|
      ensures exists k :: 0 <= k < |reviews| && OfTarget(target, reviews[k]) && r[i] == reviews[k].reviewText.value
    {
      var k :| 0 <= k < |reviews| && reviews[k] == rows[i];
    }
    forall k | 0 <= k < |reviews| && OfTarget(target, reviews[k]) ensures reviews[k].reviewText.value in r {
      var i :| 0 <= i < |rows| && rows[i] == reviews[k];
      assert r[i] == reviews[k].reviewText.value;
    }
    r
  }

  /**
   * The filter of the review queries on lines 39-43 and 71-77: the product is in the Product
   * table, the text is usable and, on line 75, the product is not the target.
   */
  predicate Eligible(products: seq<Product>, excluded: Option<ProductId>, rv: Review)
  {
    rv.productId in ProductIds(products) && HasText(rv) && (excluded.Some? ==> rv.productId != excluded.value)
  }

  /** The reviews the query's filter keeps, in table order. */
  function EligibleReviews(products: seq<Product>, reviews: seq<Review>, excluded: Option<ProductId>): (e: seq<Review>)
    ensures forall i :: 0 <= i < |e| ==> e[i] in reviews && Eligible(products, excluded, e[i])
    ensures forall k :: 0 <= k < |reviews| && Eligible(products, excluded, reviews[k]) ==> reviews[k] in e
  {
    Filter(reviews, rv => Eligible(products, excluded, rv))
  }

  /** The review rows the query returns: the eligible reviews in table order, cut at REVIEW_SAMPLE_LIMIT. */
  function ReviewSample(products: seq<Product>, reviews: seq<Review>, excluded: Option<ProductId>): (r: seq<TextRow>)
    ensures |r| == Min(|EligibleReviews(products, reviews, excluded)|, REVIEW_SAMPLE_LIMIT)
    ensures forall i :: 0 <= i < |r| ==>
      HasText(EligibleReviews(products, reviews, excluded)[i]) && r[i] == RowOf(EligibleReviews(products, reviews, excluded)[i])
    ensures |r| <= REVIEW_SAMPLE_LIMIT
    ensures forall i :: 0 <= i < |r| ==>
      r[i].text != "" && r[i].productId in ProductIds(products) && (excluded.Some? ==> r[i].productId != excluded.value)
    ensures r == [] <==> forall k :: 0 <= k < |reviews| ==> !Eligible(products, excluded, reviews[k])
    ensures |r| < REVIEW_SAMPLE_LIMIT ==>
      forall k :: 0 <= k < |reviews| && Eligible(products, excluded, reviews[k]) ==> RowOf(reviews[k]) in r
  {
    var rows := EligibleReviews(products, reviews, excluded);
    var capped := rows[..Min(|rows|, REVIEW_SAMPLE_LIMIT)];
    var r := RowsOf(capped);
    assert rows != [] ==> rows[0] in reviews;

    assert |r| < REVIEW_SAMPLE_LIMIT ==>
      forall k :: 0 <= k < |reviews| && Eligible(products, excluded, reviews[k]) ==> RowOf(reviews[k]) in r
    by {
      if |r| < REVIEW_SAMPLE_LIMIT {
        assert capped == rows;
        forall k | 0 <= k < |reviews| && Eligible(products, excluded, reviews[k]) ensures RowOf(reviews[k]) in r {
          var m :| 0 <= m < |rows| && rows[m] == reviews[k];
          assert r[m] == RowOf(reviews[k]);
        }
      }
    }
    r
  }

  /** Every row's product is listed in r. */
  predicate Covers(rows: seq<TextRow>, r: seq<ProductId>)
  {
    forall i :: 0 <= i < |rows| ==> rows[i].productId in r
  }

  /** Every product listed in r has a row. */
  predicate Sourced(rows: seq<TextRow>, r: seq<ProductId>)
  {
    forall k :: 0 <= k < |r| ==> exists i :: 0 <= i < |rows| && rows[i].productId == r[k]
  }

  /** Whenever r lists a product before another, some row of the first comes before every row of the second. */
  predicate InAppearanceOrder(rows: seq<TextRow>, r: seq<ProductId>)
  {
    forall k, l, j :: 0 <= k < l < |r| && 0 <= j < |rows| && rows[j].productId == r[l] ==>
      exists i :: 0 <= i < j && rows[i].productId == r[k]
  }

  /** The product ids of the rows in order of first appearance: the key order of the defaultdict on line 85. */
  function FirstAppearance(rows: seq<TextRow>): (r: seq<ProductId>)
    ensures Distinct(r)
    ensures forall i :: 0 <= i < |rows| ==> rows[i].productId in r
    ensures forall k :: 0 <= k < |r| ==> exists i :: 0 <= i < |rows| && rows[i].productId == r[k]
    ensures InAppearanceOrder(rows, r)
    decreases |rows|
  {
    if rows == [] then []
    else
      var init := rows[..|rows| - 1];
      var p := rows[|rows| - 1].productId;
      var before := FirstAppearance(init);
      var r := if p in before then before else before + [p];
      AppearanceStep(init, rows, before, r);
      r
  }

  /** One more row either repeats a product already listed or brings a new one to the end; the four properties of FirstAppearance carry over. */
  lemma AppearanceStep(init: seq<TextRow>, rows: seq<TextRow>, before: seq<ProductId>, r: seq<ProductId>)
    requires |rows| == |init| + 1 && rows[..|init|] == init
    requires r == if rows[|init|].productId in before then before else before + [rows[|init|].productId]
    requires Distinct(before)
    requires Covers(init, before)
    requires Sourced(init, before)
    requires InAppearanceOrder(init, before)
    ensures Distinct(r)
    ensures Covers(rows, r)
    ensures Sourced(rows, r)
    ensures InAppearanceOrder(rows, r)
  {
    CoverageStep(init, rows, before, r);
    SourceStep(init, rows, before, r);
    if rows[|init|].productId in before {
      RepeatKeepsOrder(init, rows, before);
    } else {
      NotListedNotEarlier(init, before, rows[|init|].productId);
      DistinctSnoc(before, rows[|init|].productId);
      assert r[..|before|] == before;
      NewKeepsOrder(init, rows, before, r);
    }
  }

  /** Every row's product stays listed after one more row. */
  lemma CoverageStep(init: seq<TextRow>, rows: seq<TextRow>, before: seq<ProductId>, r: seq<ProductId>)
    requires |rows| == |init| + 1 && rows[..|init|] == init
    requires r == if rows[|init|].productId in before then before else before + [rows[|init|].productId]
    requires Covers(init, before)
    ensures Covers(rows, r)
  {
    forall i | 0 <= i < |rows|
      ensures rows[i].productId in r
    {
      if i < |init| {
        assert rows[i] == init[i];
        assert init[i].productId in before;
      } else if rows[|init|].productId !in before {
        assert r[|before|] == rows[i].productId;
      }
    }
  }

  /** Every listed product still has a row after one more row. */
  lemma SourceStep(init: seq<TextRow>, rows: seq<TextRow>, before: seq<ProductId>, r: seq<ProductId>)
    requires |rows| == |init| + 1 && rows[..|init|] == init
    requires r == if rows[|init|].productId in before then before else before + [rows[|init|].productId]
    requires Sourced(init, before)
    ensures Sourced(rows, r)
  {
    forall k | 0 <= k < |r|
      ensures exists i :: 0 <= i < |rows| && rows[i].productId == r[k]
    {
      if k < |before| {
        assert r[k] == before[k];
        var i :| 0 <= i < |init| && init[i].productId == before[k];
        assert rows[i] == init[i];
      } else {
        assert rows[|init|].productId == r[k];
      }
    }
  }

  /** A product not listed has no row among those already read. */
  lemma NotListedNotEarlier(init: seq<TextRow>, before: seq<ProductId>, p: ProductId)
    requires Covers(init, before)
    requires p !in before
    ensures forall i :: 0 <= i < |init| ==> init[i].productId != p
  {
  }

  /** A row of a product already listed leaves the order intact. */
  lemma RepeatKeepsOrder(init: seq<TextRow>, rows: seq<TextRow>, before: seq<ProductId>)
    requires |rows| == |init| + 1 && rows[..|init|] == init
    requires Sourced(init, before)
    requires InAppearanceOrder(init, before)
    ensures InAppearanceOrder(rows, before)
  {
    forall k, l, j | 0 <= k < l < |before| && 0 <= j < |rows| && rows[j].productId == before[l]
      ensures exists i :: 0 <= i < j && rows[i].productId == before[k]
    {
      if j < |init| {
        assert init[j] == rows[j];
        var i :| 0 <= i < j && init[i].productId == before[k];
        assert rows[i] == init[i];
      } else {
        var i :| 0 <= i < |init| && init[i].productId == before[k];
        assert rows[i] == init[i];
      }
    }
  }

  /** A row of a product no earlier row has puts it after every product already listed. */
  lemma NewKeepsOrder(init: seq<TextRow>, rows: seq<TextRow>, before: seq<ProductId>, r: seq<ProductId>)
    requires |rows| == |init| + 1 && rows[..|init|] == init
    requires |r| == |before| + 1 && r[..|before|] == before && r[|before|] == rows[|init|].productId
    requires forall i :: 0 <= i < |init| ==> init[i].productId != rows[|init|].productId
    requires Sourced(init, before)
    requires InAppearanceOrder(init, before)
    ensures InAppearanceOrder(rows, r)
  {
    forall k, l, j | 0 <= k < l < |r| && 0 <= j < |rows| && rows[j].productId == r[l]
      ensures exists i :: 0 <= i < j && rows[i].productId == r[k]
    {
      assert r[k] == before[k];
      if j < |init| {
        assert init[j] == rows[j];
        assert r[l] != rows[|init|].productId;
        assert l < |before| && r[l] == before[l];
        var i :| 0 <= i < j && init[i].productId == before[k];
        assert rows[i] == init[i];
      } else {
        var i :| 0 <= i < |init| && init[i].productId == before[k];
        assert rows[i] == init[i];
      }
    }
  }

  /** The texts of one product's rows, in row order: the list the defaultdict holds for it. */
  function TextsOf(rows: seq<TextRow>, p: ProductId): (r: seq<string>)
    ensures |r| <= |rows|
    decreases |rows|
  {
    if rows == [] then []
    else
      var last := rows[|rows| - 1];
      TextsOf(rows[..|rows| - 1], p) + (if last.productId == p then [last.text] else [])
  }

  /** The defaultdict after the loop on lines 86-87: each row's text appended to its product's list. */
  function GroupsOf(rows: seq<TextRow>): map<ProductId, seq<string>>
    decreases |rows|
  {
    if rows == [] then map[]
    else
      var before := GroupsOf(rows[..|rows| - 1]);
      var last := rows[|rows| - 1];
      before[last.productId := (if last.productId in before then before[last.productId] else []) + [last.text]]
  }

  /** Reading one more row adds its product at the end of the key order if it is new. */
  lemma FirstAppearanceStep(rows: seq<TextRow>, i: nat)
    requires i < |rows|
    ensures FirstAppearance(rows[..i + 1]) ==
      (if rows[i].productId in FirstAppearance(rows[..i]) then FirstAppearance(rows[..i]) else FirstAppearance(rows[..i]) + [rows[i].productId])
  {
    assert rows[..i + 1][..i] == rows[..i];
  }

  /** A product that has not appeared has no texts yet. */
  lemma {:induction false} TextsOfAbsent(rows: seq<TextRow>, p: ProductId)
    requires p !in FirstAppearance(rows)
    ensures TextsOf(rows, p) == []
    decreases |rows|
  {
    if rows != [] {
      var init := rows[..|rows| - 1];
      assert forall i :: 0 <= i < |init| ==> init[i] == rows[i];
      assert p !in FirstAppearance(init);
      TextsOfAbsent(init, p);
    }
  }

  /** Reading one more row appends its text to its product's list, creating the list if the product is new. */
  lemma GroupsOfStep(rows: seq<TextRow>, i: nat)
    requires i < |rows|
    ensures var before := GroupsOf(rows[..i]);
      var p := rows[i].productId;
      GroupsOf(rows[..i + 1]) == before[p := (if p in before then before[p] else []) + [rows[i].text]]
  {
    assert rows[..i + 1][..i] == rows[..i];
  }

  /** The dictionary holds, for each product that appears and for no other, its texts in row order. */
  lemma {:induction false} GroupsHoldTexts(rows: seq<TextRow>)
    ensures forall p :: p in GroupsOf(rows) <==> p in FirstAppearance(rows)
    ensures forall p :: p in GroupsOf(rows) ==> GroupsOf(rows)[p] == TextsOf(rows, p)
    decreases |rows|
  {
    if rows != [] {
      var init := rows[..|rows| - 1];
      GroupsHoldTexts(init);
      var p := rows[|rows| - 1].productId;
      if p !in GroupsOf(init) {
        TextsOfAbsent(init, p);
      }
    }
  }

  /** Lines 85-87: group the rows' texts by product, keys in insertion order. */
  method GroupByProduct(rows: seq<TextRow>) returns (order: seq<ProductId>, groups: map<ProductId, seq<string>>)
    ensures order == FirstAppearance(rows)
    ensures groups == GroupsOf(rows)
    ensures forall p :: p in groups <==> p in order
    ensures forall p :: p in groups ==> groups[p] == TextsOf(rows, p)
  {
    order := [];
    groups := map[];
    for i := 0 to |rows|
      invariant order == FirstAppearance(rows[..i])
      invariant groups == GroupsOf(rows[..i])
    {
      var row := rows[i];
      FirstAppearanceStep(rows, i);
      GroupsOfStep(rows, i);
      GroupsHoldTexts(rows[..i]);
      var texts := if row.productId in groups then groups[row.productId] else [];
      if row.productId !in groups {
        order := order + [row.productId];
      }
      groups := groups[row.productId := texts + [row.text]];
    }
    assert rows[..|rows|] == rows;
    GroupsHoldTexts(rows);
  }

  /** The ranking key of line 92, the length of each product's list, indexed like the key order. */
  function Counts(order: seq<ProductId>, groups: map<ProductId, seq<string>>): (c: seq<Score>)
    requires forall k :: 0 <= k < |order| ==> order[k] in groups
    ensures |c| == |order|
  {
    seq(|order|, k requires 0 <= k < |order| => |groups[order[k]]| as real)
  }

  /** The first position of x in s. */
  function IndexOf(s: seq<ProductId>, x: ProductId): (i: nat)
    requires x in s
    ensures i < |s| && s[i] == x
    ensures forall j :: 0 <= j < i ==> s[j] != x
  {
    if s[0] == x then 0 else 1 + IndexOf(s[1..], x)
  }

  /** In a sequence without repetitions every element is found at its own position. */
  lemma IndexOfDistinct(s: seq<ProductId>, k: nat)
    requires Distinct(s) && k < |s|
    ensures IndexOf(s, s[k]) == k
  {
  }

  /**
   * Lines 90-94: sorted(..., key=len, reverse=True)[:PRODUCT_LIMIT]. Python's sort is stable with
   * reverse=True too, so products are ordered by descending review count and, among equal counts,
   * by first appearance; Precedes on the positions in the key order says exactly that. The cut
   * keeps the first PRODUCT_LIMIT of that order: every product left out comes after every one kept.
   */
  function RankByReviewCount(order: seq<ProductId>, groups: map<ProductId, seq<string>>): (r: seq<ProductId>)
    requires Distinct(order)
    requires forall k :: 0 <= k < |order| ==> order[k] in groups
    ensures |r| == Min(|order|, PRODUCT_LIMIT)
    ensures Distinct(r)
    ensures forall k :: 0 <= k < |r| ==> r[k] in order
    ensures forall i, j :: 0 <= i < j < |r| ==>
      Precedes(Counts(order, groups), IndexOf(order, r[i]), IndexOf(order, r[j]))
    ensures forall k, p :: 0 <= k < |r| && p in order && p !in r ==>
      Precedes(Counts(order, groups), IndexOf(order, r[k]), IndexOf(order, p))
  {
    var counts := Counts(order, groups);
    var sorted := SortAll(counts);
    var n := Min(|order|, PRODUCT_LIMIT);
    var r := Pick(order, sorted[..n]);
    PickPositions(order, sorted[..n]);
    PickDistinct(order, sorted[..n]);
    PickOrdered(order, counts, sorted, n);
    PickExcludes(order, counts, sorted, n);
    r
  }

  /** The elements of s at the given positions. */
  function Pick(s: seq<ProductId>, positions: seq<nat>): (r: seq<ProductId>)
    requires forall k :: 0 <= k < |positions| ==> positions[k] < |s|
    ensures |r| == |positions| && forall k :: 0 <= k < |r| ==> r[k] == s[positions[k]]
  {
    seq(|positions|, k requires 0 <= k < |positions| => s[positions[k]])
  }

  lemma PickPositions(s: seq<ProductId>, positions: seq<nat>)
    requires Distinct(s) && forall k :: 0 <= k < |positions| ==> positions[k] < |s|
    ensures forall k :: 0 <= k < |positions| ==> Pick(s, positions)[k] in s && IndexOf(s, Pick(s, positions)[k]) == positions[k]
  {
    forall k | 0 <= k < |positions| ensures IndexOf(s, Pick(s, positions)[k]) == positions[k] {
      IndexOfDistinct(s, positions[k]);
    }
  }

  lemma PickDistinct(s: seq<ProductId>, positions: seq<nat>)
    requires Distinct(s) && Distinct(positions) && forall k :: 0 <= k < |positions| ==> positions[k] < |s|
    ensures Distinct(Pick(s, positions))
  {
    var r := Pick(s, positions);
    forall i, j | 0 <= i < j < |r| ensures r[i] != r[j] {
      assert r[i] == s[positions[i]] && r[j] == s[positions[j]];
    }
  }

  lemma PickOrdered(order: seq<ProductId>, counts: seq<Score>, sorted: seq<nat>, n: nat)
    requires Distinct(order) && |counts| == |order| && Indices(counts, sorted) && SortedBy(counts, sorted) && n <= |sorted|
    ensures forall i, j :: 0 <= i < j < n ==>
      Precedes(counts, IndexOf(order, Pick(order, sorted[..n])[i]), IndexOf(order, Pick(order, sorted[..n])[j]))
  {
    PickPositions(order, sorted[..n]);
  }

  lemma PickExcludes(order: seq<ProductId>, counts: seq<Score>, sorted: seq<nat>, n: nat)
    requires Distinct(order) && |counts| == |order| && Indices(counts, sorted) && SortedBy(counts, sorted) && n <= |sorted|
    requires forall j :: 0 <= j < |order| ==> j in sorted
    ensures forall k, p :: 0 <= k < n && p in order && p !in Pick(order, sorted[..n]) ==>
      Precedes(counts, IndexOf(order, Pick(order, sorted[..n])[k]), IndexOf(order, p))
  {
    var r := Pick(order, sorted[..n]);
    PickPositions(order, sorted[..n]);
    forall k, p | 0 <= k < n && p in order && p !in r
      ensures Precedes(counts, IndexOf(order, r[k]), IndexOf(order, p))
    {
      var q := IndexOf(order, p);
      assert q in sorted;
      var t :| 0 <= t < |sorted| && sorted[t] == q;
      assert t >= n by {
        assert forall u :: 0 <= u < n ==> r[u] != p;
        assert forall u :: 0 <= u < n ==> r[u] == order[sorted[u]];
      }
      assert Precedes(counts, sorted[k], sorted[t]);
    }
  }

  /** The ranked candidates of line 94 for the given review rows. */
  function Ranked(rows: seq<TextRow>): (r: seq<ProductId>)
    ensures forall k :: 0 <= k < |r| ==> r[k] in GroupsOf(rows)
  {
    GroupsHoldTexts(rows);
    RankByReviewCount(FirstAppearance(rows), GroupsOf(rows))
  }

  /** Lines 97-102: the target's texts joined by spaces, then each ranked product's, in ranking order. */
  function Corpus(targetTexts: seq<string>, ranked: seq<ProductId>, groups: map<ProductId, seq<string>>): (c: seq<string>)
    requires forall k :: 0 <= k < |ranked| ==> ranked[k] in groups
    ensures |c| == |ranked| + 1
    ensures c[0] == Join(" ", targetTexts)
  {
    [Join(" ", targetTexts)] + seq(|ranked|, k requires 0 <= k < |ranked| => Join(" ", groups[ranked[k]]))
  }

  /** Document k + 1 of the corpus is candidate k's texts: the id and text lists stay index-aligned. */
  lemma CorpusAligned(targetTexts: seq<string>, ranked: seq<ProductId>, groups: map<ProductId, seq<string>>, k: nat)
    requires forall j :: 0 <= j < |ranked| ==> ranked[j] in groups
    requires k < |ranked|
    ensures Corpus(targetTexts, ranked, groups)[k + 1] == Join(" ", groups[ranked[k]])
  {
  }

  /** Line 112: the similarity of every document after the first to the first. */
  function Similarities(corpus: seq<string>, similarity: (seq<string>, nat) -> Score): (s: seq<Score>)
    requires corpus != []
    ensures |s| == |corpus| - 1
    ensures forall k :: 0 <= k < |s| ==> s[k] == similarity(corpus, k + 1)
  {
    seq(|corpus| - 1, i requires 0 <= i => similarity(corpus, i + 1))
  }

  /** The scores of the ranked candidates, indexed like Ranked(rows). */
  function Scores(targetTexts: seq<string>, rows: seq<TextRow>, similarity: (seq<string>, nat) -> Score): (s: seq<Score>)
    ensures |s| == |Ranked(rows)|
    ensures forall k :: 0 <= k < |s| ==> s[k] == similarity(Corpus(targetTexts, Ranked(rows), GroupsOf(rows)), k + 1)
  {
    Similarities(Corpus(targetTexts, Ranked(rows), GroupsOf(rows)), similarity)
  }

  /**
   * Score k is the similarity, against document 0 (the target's texts joined by spaces), of
   * document k + 1, which is the texts of ranked candidate k joined by spaces, in row order.
   */
  lemma ScoreOfCandidate(targetTexts: seq<string>, rows: seq<TextRow>, similarity: (seq<string>, nat) -> Score, k: nat)
    requires k < |Ranked(rows)|
    ensures var corpus := Corpus(targetTexts, Ranked(rows), GroupsOf(rows));
      && corpus[0] == Join(" ", targetTexts)
      && corpus[k + 1] == Join(" ", TextsOf(rows, Ranked(rows)[k]))
      && Scores(targetTexts, rows, similarity)[k] == similarity(corpus, k + 1)
  {
    GroupsHoldTexts(rows);
    CorpusAligned(targetTexts, Ranked(rows), GroupsOf(rows), k);
  }

  /** Lines 115-123: the ids of the candidates at the top indices of their scores, best score first. */
  function ChosenIds(ranked: seq<ProductId>, scores: seq<Score>): (ids: seq<ProductId>)
    requires |scores| == |ranked|
    ensures |ids| == Min(|ranked|, TOP_N)
    ensures forall k :: 0 <= k < |ids| ==> ids[k] in ranked
    ensures Distinct(ranked) ==> Distinct(ids)
  {
    var top := TopIndices(scores);
    var ids := seq(|top|, k requires 0 <= k < |top| => ranked[top[k]]);
    assert Distinct(ranked) ==> Distinct(ids) by {
      if Distinct(ranked) {
        forall i, j | 0 <= i < j < |ids| ensures ids[i] != ids[j] {
          assert top[i] != top[j];
        }
      }
    }
    ids
  }

  /** Chosen id k is the candidate at the k-th top index. */
  lemma ChosenAtTop(ranked: seq<ProductId>, scores: seq<Score>)
    requires |scores| == |ranked|
    ensures |ChosenIds(ranked, scores)| == |TopIndices(scores)|
    ensures forall k :: 0 <= k < |TopIndices(scores)| ==> ChosenIds(ranked, scores)[k] == ranked[TopIndices(scores)[k]]
  {
  }

  /** The product_id of each product. */
  function IdsOf(r: seq<Product>): (ids: seq<ProductId>)
    ensures |ids| == |r| && forall k :: 0 <= k < |r| ==> ids[k] == r[k].productId
  {
    seq(|r|, k requires 0 <= k < |r| => r[k].productId)
  }

  /** The id names a row of the Product table. */
  function InTable(products: seq<Product>): ProductId -> bool
  {
    id => id in ProductIds(products)
  }

  /**
   * Lines 126-132: the products with the given ids in the order of the ids, with the ids that
   * name no product left out. With a unique primary key the dictionary entry of an id is its one row.
   */
  function Fetched(products: seq<Product>, ids: seq<ProductId>): (r: seq<Product>)
    ensures IdsOf(r) == Filter(ids, InTable(products))
    ensures forall k :: 0 <= k < |r| ==> r[k] in products
    decreases |ids|
  {
    if ids == [] then []
    else
      var init := ids[..|ids| - 1];
      var before := Fetched(products, init);
      match Lookup(products, ids[|ids| - 1])
      case Some(p) =>
        var r := before + [p];
        assert IdsOf(r) == IdsOf(before) + [p.productId];
        r
      case None => before
  }

  /** The ids of the products the rows speak of. */
  function SampleIds(rows: seq<TextRow>): set<ProductId>
  {
    set row | row in rows :: row.productId
  }

  predicate Similar(rows: seq<TextRow>, target: ProductId, p: Product)
  {
    p.productId != target && p.productId in SampleIds(rows)
  }

  /**
   * Lines 60-64: the fallback when the target has no review text, the first TOP_N other products
   * in table order that have a review in the sample.
   */
  function Fallback(products: seq<Product>, rows: seq<TextRow>, target: ProductId): (r: seq<Product>)
    ensures |r| <= TOP_N
    ensures forall k :: 0 <= k < |r| ==> r[k] in products && Similar(rows, target, r[k])
    ensures |r| < TOP_N ==> forall k :: 0 <= k < |products| && Similar(rows, target, products[k]) ==> products[k] in r
    ensures UniqueIds(products) ==> Distinct(r)
  {
    var similar := Filter(products, p => Similar(rows, target, p));
    var r := similar[..Min(|similar|, TOP_N)];
    assert UniqueIds(products) ==> Distinct(r) by {
      if UniqueIds(products) {
        FilterDistinct(products, p => Similar(rows, target, p));
        forall i, j | 0 <= i < j < |r| ensures r[i] != r[j] {
          assert r[i] == similar[i] && r[j] == similar[j];
        }
      }
    }
    assert |r| < TOP_N ==> r == similar;
    r
  }

  /** tfidf_recommendations_from_reviews, lines 22-134. */
  function Recommendations(products: seq<Product>, reviews: seq<Review>, target: ProductId,
                           similarity: (seq<string>, nat) -> Score): (r: seq<Product>)
    ensures TargetTexts(reviews, target) == [] && target !in ProductIds(products) ==> r == []
    ensures TargetTexts(reviews, target) == [] && target in ProductIds(products) ==>
      r == Fallback(products, ReviewSample(products, reviews, None), target)
    ensures TargetTexts(reviews, target) != [] && (forall k :: 0 <= k < |reviews| ==> !Eligible(products, Some(target), reviews[k])) ==>
      r == []
  {
    var targetTexts := TargetTexts(reviews, target);
    if targetTexts == [] then
      if target !in ProductIds(products) then []
      else Fallback(products, ReviewSample(products, reviews, None), target)
    else
      var other := ReviewSample(products, reviews, Some(target));
      if other == [] then []
      else Fetched(products, ChosenIds(Ranked(other), Scores(targetTexts, other, similarity)))
  }

  /** The whole function, with the grouping done by the loop of lines 85-87. */
  method RecommendFromReviews(products: seq<Product>, reviews: seq<Review>, target: ProductId,
                              similarity: (seq<string>, nat) -> Score) returns (r: seq<Product>)
    ensures r == Recommendations(products, reviews, target, similarity)
  {
    var targetTexts := TargetTexts(reviews, target);
    if targetTexts == [] {
      var allReviews := ReviewSample(products, reviews, None);
      if target !in ProductIds(products) {
        return [];
      }
      return Fallback(products, allReviews, target);
    }
    var other := ReviewSample(products, reviews, Some(target));
    if other == [] {
      return [];
    }
    var order, groups := GroupByProduct(other);
    var ranked := RankByReviewCount(order, groups);
    var corpus := Corpus(targetTexts, ranked, groups);
    var scores := Similarities(corpus, similarity);
    r := Fetched(products, ChosenIds(ranked, scores));
  }

  /** Every ranked candidate is a product some row speaks of, and none is named twice. */
  lemma RankedFromRows(rows: seq<TextRow>)
    ensures Distinct(Ranked(rows))
    ensures forall k :: 0 <= k < |Ranked(rows)| ==> Ranked(rows)[k] in SampleIds(rows)
  {
    var ranked := Ranked(rows);
    forall k | 0 <= k < |ranked| ensures ranked[k] in SampleIds(rows) {
      var order := FirstAppearance(rows);
      assert ranked[k] in order;
      var m :| 0 <= m < |order| && order[m] == ranked[k];
      var i :| 0 <= i < |rows| && rows[i].productId == order[m];
      assert rows[i] in rows;
    }
  }

  /** Every product the sample speaks of is in the Product table, and is not the excluded one. */
  lemma SampleInTable(products: seq<Product>, reviews: seq<Review>, excluded: Option<ProductId>)
    ensures forall id :: id in SampleIds(ReviewSample(products, reviews, excluded)) ==>
      id in ProductIds(products) && (excluded.Some? ==> id != excluded.value)
  {
    var rows := ReviewSample(products, reviews, excluded);
    forall id | id in SampleIds(rows) ensures id in ProductIds(products) && (excluded.Some? ==> id != excluded.value) {
      var row :| row in rows && row.productId == id;
      var i :| 0 <= i < |rows| && rows[i] == row;
    }
  }

  /** The ranked candidates of the main branch are distinct products of the table other than the target. */
  lemma RankedInTable(products: seq<Product>, reviews: seq<Review>, target: ProductId)
    ensures var ranked := Ranked(ReviewSample(products, reviews, Some(target)));
      && Distinct(ranked)
      && forall k :: 0 <= k < |ranked| ==> ranked[k] in ProductIds(products) && ranked[k] != target
  {
    var other := ReviewSample(products, reviews, Some(target));
    RankedFromRows(other);
    SampleInTable(products, reviews, Some(target));
  }

  /** Choosing among distinct stored candidates other than the target keeps all three facts. */
  lemma ChosenInTable(products: seq<Product>, ranked: seq<ProductId>, scores: seq<Score>, target: ProductId)
    requires |scores| == |ranked| && Distinct(ranked)
    requires forall k :: 0 <= k < |ranked| ==> ranked[k] in ProductIds(products) && ranked[k] != target
    ensures var ids := ChosenIds(ranked, scores);
      && Distinct(ids)
      && forall k :: 0 <= k < |ids| ==> ids[k] in ProductIds(products) && ids[k] != target
  {
    var ids := ChosenIds(ranked, scores);
    forall k | 0 <= k < |ids| ensures ids[k] in ProductIds(products) && ids[k] != target {
      var m :| 0 <= m < |ranked| && ranked[m] == ids[k];
    }
  }

  /** Fetching ids that all name products returns one product per id, distinct when the ids are. */
  lemma FetchedAllPresent(products: seq<Product>, ids: seq<ProductId>)
    requires forall k :: 0 <= k < |ids| ==> ids[k] in ProductIds(products)
    ensures |Fetched(products, ids)| == |ids|
    ensures forall k :: 0 <= k < |ids| ==> Fetched(products, ids)[k].productId == ids[k]
    ensures Distinct(ids) ==> Distinct(Fetched(products, ids))
  {
    var r := Fetched(products, ids);
    FilterAll(ids, InTable(products));
    if Distinct(ids) {
      forall i, j | 0 <= i < j < |r| ensures r[i] != r[j] {
        assert r[i].productId == ids[i] && r[j].productId == ids[j];
      }
    }
  }

  /** Fetching the chosen candidates gives at most TOP_N distinct stored products, none of them the target. */
  lemma FetchedChosenSound(products: seq<Product>, ranked: seq<ProductId>, scores: seq<Score>, target: ProductId)
    requires |scores| == |ranked| && Distinct(ranked)
    requires forall k :: 0 <= k < |ranked| ==> ranked[k] in ProductIds(products) && ranked[k] != target
    ensures
      var r := Fetched(products, ChosenIds(ranked, scores));
      && |r| <= TOP_N
      && (forall k :: 0 <= k < |r| ==> r[k] in products && r[k].productId != target)
      && Distinct(r)
  {
    ChosenInTable(products, ranked, scores, target);
    FetchedAllPresent(products, ChosenIds(ranked, scores));
  }

  /** The main branch's result: at most TOP_N distinct stored products, none of them the target. */
  lemma MainBranchSound(products: seq<Product>, reviews: seq<Review>, target: ProductId, scores: seq<Score>)
    requires |scores| == |Ranked(ReviewSample(products, reviews, Some(target)))|
    ensures
      var r := Fetched(products, ChosenIds(Ranked(ReviewSample(products, reviews, Some(target))), scores));
      && |r| <= TOP_N
      && (forall k :: 0 <= k < |r| ==> r[k] in products && r[k].productId != target)
      && Distinct(r)
  {
    RankedInTable(products, reviews, target);
    FetchedChosenSound(products, Ranked(ReviewSample(products, reviews, Some(target))), scores, target);
  }

  /**
   * Whatever branch is taken, at most TOP_N products come back, each a row of the Product table
   * other than the target, and with a unique primary key none comes back twice.
   */
  lemma RecommendationsSound(products: seq<Product>, reviews: seq<Review>, target: ProductId,
                             similarity: (seq<string>, nat) -> Score)
    ensures var r := Recommendations(products, reviews, target, similarity);
      && |r| <= TOP_N
      && (forall k :: 0 <= k < |r| ==> r[k] in products && r[k].productId != target)
      && (UniqueIds(products) ==> Distinct(r))
  {
    var targetTexts := TargetTexts(reviews, target);
    var other := ReviewSample(products, reviews, Some(target));
    if targetTexts != [] && other != [] {
      MainBranchSound(products, reviews, target, Scores(targetTexts, other, similarity));
    }
  }

  /**
   * The ranked candidates' products fetched in the order of their top scores: one per chosen
   * index, and the chosen indices are a top-TOP_N selection however ties are broken.
   */
  lemma FetchedChosenIsTop(products: seq<Product>, ranked: seq<ProductId>, scores: seq<Score>)
    requires |scores| == |ranked|
    requires forall k :: 0 <= k < |ranked| ==> ranked[k] in ProductIds(products)
    ensures
      var r := Fetched(products, ChosenIds(ranked, scores));
      && |r| == Min(|ranked|, TOP_N)
      && exists sel :: IsTopSelection(scores, sel, TOP_N) && |sel| == |r| &&
           forall k :: 0 <= k < |r| ==> r[k].productId == ranked[sel[k]]
  {
    var sel := TopIndices(scores);
    FetchedAtTop(products, ranked, scores);
    assert IsTopSelection(scores, sel, TOP_N);
  }

  /** Fetched product k carries the id of the candidate at the k-th top index. */
  lemma FetchedAtTop(products: seq<Product>, ranked: seq<ProductId>, scores: seq<Score>)
    requires |scores| == |ranked|
    requires forall k :: 0 <= k < |ranked| ==> ranked[k] in ProductIds(products)
    ensures var r := Fetched(products, ChosenIds(ranked, scores));
      && |r| == |TopIndices(scores)|
      && forall k :: 0 <= k < |r| ==> r[k].productId == ranked[TopIndices(scores)[k]]
  {
    var ids := ChosenIds(ranked, scores);
    forall k | 0 <= k < |ids| ensures ids[k] in ProductIds(products) {
      var m :| 0 <= m < |ranked| && ranked[m] == ids[k];
    }
    FetchedAllPresent(products, ids);
    ChosenAtTop(ranked, scores);
  }

  /**
   * When the target has review text and other products do too, the result is the chosen
   * candidates in order: a top-TOP_N selection by similarity score out of the ranked candidates,
   * however numpy breaks ties, with every chosen candidate found in the Product table.
   */
  lemma MainBranchIsTopSelection(products: seq<Product>, reviews: seq<Review>, target: ProductId,
                                 similarity: (seq<string>, nat) -> Score)
    requires TargetTexts(reviews, target) != []
    requires ReviewSample(products, reviews, Some(target)) != []
    ensures
      var other := ReviewSample(products, reviews, Some(target));
      var ranked := Ranked(other);
      var scores := Scores(TargetTexts(reviews, target), other, similarity);
      var r := Recommendations(products, reviews, target, similarity);
      && |r| == Min(|ranked|, TOP_N)
      && exists sel :: IsTopSelection(scores, sel, TOP_N) && |sel| == |r| &&
           forall k :: 0 <= k < |r| ==> r[k].productId == ranked[sel[k]]
  {
    var other := ReviewSample(products, reviews, Some(target));
    RankedInTable(products, reviews, target);
    FetchedChosenIsTop(products, Ranked(other), Scores(TargetTexts(reviews, target), other, similarity));
  }
}
