/**
 * recommendation_engine/tfidf.py, tfidf_recommendations: recommendations from the positive and
 * negative sentiment summaries. The two TF-IDF vectorisers with their cosine similarities are
 * parameters: `similarity(documents, text, i)` is the score of documents[i] against text.
 */
module SummaryRecommender {
  import opened Wrappers
  import opened Seqs
  import opened Models
  import opened Ranking

  /** A product's positive and negative sentiment texts. */
  datatype Sentiments = Sentiments(positive: string, negative: string)

  /**
   * The sentiments of a product: those of its first summary row with both texts non-null,
   * the row the join on lines 27-30 matches (one summary per product is intended).
   */
  function SentimentsOf(summaries: seq<Summary>, id: ProductId): (r: Option<Sentiments>)
    ensures r.Some? <==> exists k :: 0 <= k < |summaries| && Complete(summaries[k], id)
    ensures r.Some? ==> exists k :: 0 <= k < |summaries| && Complete(summaries[k], id) && RowSentiments(summaries[k]) == r.value
    decreases |summaries|
  {
    if summaries == [] then None
    else if Complete(summaries[0], id) then
      Some(RowSentiments(summaries[0]))
    else
      var r := SentimentsOf(summaries[1..], id);
      assert forall k :: 0 < k < |summaries| ==> summaries[k] == summaries[1..][k - 1];
      r
  }

  predicate Complete(s: Summary, id: ProductId)
  {
    s.productId == id && s.positiveSentiment.Some? && s.negativeSentiment.Some?
  }

  /** The two texts of a summary row with both sentiments. */
  function RowSentiments(s: Summary): Sentiments
    requires s.positiveSentiment.Some? && s.negativeSentiment.Some?
  {
    Sentiments(s.positiveSentiment.value, s.negativeSentiment.value)
  }

  predicate IsCandidate(summaries: seq<Summary>, target: ProductId, p: Product)
  {
    p.productId != target && SentimentsOf(summaries, p.productId).Some?
  }

  /** Lines 27-31: the other products with both sentiments, in table order. */
  function Candidates(products: seq<Product>, summaries: seq<Summary>, target: ProductId): (c: seq<Product>)
    ensures forall k :: 0 <= k < |c| ==> c[k] in products && IsCandidate(summaries, target, c[k])
    ensures forall k :: 0 <= k < |products| && IsCandidate(summaries, target, products[k]) ==> products[k] in c
    ensures UniqueIds(products) ==> Distinct(c)
  {
    var c := Filter(products, p => IsCandidate(summaries, target, p));
    assert UniqueIds(products) ==> Distinct(c) by {
      if UniqueIds(products) {
        FilterDistinct(products, p => IsCandidate(summaries, target, p));
      }
    }
    c
  }

  /** text is the positive (or negative) sentiment of a summary row of the product with both sentiments. */
  predicate SentimentText(summaries: seq<Summary>, id: ProductId, positive: bool, text: string)
  {
    exists j :: 0 <= j < |summaries| && Complete(summaries[j], id) && text == SideOf(RowSentiments(summaries[j]), positive)
  }

  function SideOf(s: Sentiments, positive: bool): string
  {
    if positive then s.positive else s.negative
  }

  /** Lines 34-37: one positive and one negative text per candidate, index-aligned with the candidates. */
  function Texts(summaries: seq<Summary>, candidates: seq<Product>, positive: bool): (t: seq<string>)
    requires forall k :: 0 <= k < |candidates| ==> SentimentsOf(summaries, candidates[k].productId).Some?
    ensures |t| == |candidates|
    ensures forall k :: 0 <= k < |t| ==> SentimentText(summaries, candidates[k].productId, positive, t[k])
  {
    var t := seq(|candidates|, k requires 0 <= k < |candidates| =>
      SideOf(SentimentsOf(summaries, candidates[k].productId).value, positive));
    assert forall k :: 0 <= k < |t| ==> t[k] == SideOf(SentimentsOf(summaries, candidates[k].productId).value, positive);
    t
  }

  /** Both texts of a candidate come from one and the same summary row with both sentiments. */
  lemma TextsFromOneRow(summaries: seq<Summary>, candidates: seq<Product>)
    requires forall k :: 0 <= k < |candidates| ==> SentimentsOf(summaries, candidates[k].productId).Some?
    ensures forall k :: 0 <= k < |candidates| ==>
      exists j :: 0 <= j < |summaries| && Complete(summaries[j], candidates[k].productId)
        && Texts(summaries, candidates, true)[k] == summaries[j].positiveSentiment.value
        && Texts(summaries, candidates, false)[k] == summaries[j].negativeSentiment.value
  {
    var pos := Texts(summaries, candidates, true);
    var neg := Texts(summaries, candidates, false);
    forall k | 0 <= k < |candidates|
      ensures exists j :: (&& 0 <= j < |summaries| && Complete(summaries[j], candidates[k].productId)
                           && pos[k] == summaries[j].positiveSentiment.value
                           && neg[k] == summaries[j].negativeSentiment.value)
    {
      var id := candidates[k].productId;
      var j :| 0 <= j < |summaries| && Complete(summaries[j], id) && RowSentiments(summaries[j]) == SentimentsOf(summaries, id).value;
      assert pos[k] == SideOf(SentimentsOf(summaries, id).value, true);
      assert neg[k] == SideOf(SentimentsOf(summaries, id).value, false);
    }
  }

  /** Line 51: the mean of the two scores of each candidate. */
  function CombinedScores(pos: seq<Score>, neg: seq<Score>): (c: seq<Score>)
    requires |pos| == |neg|
    ensures |c| == |pos|
    ensures forall i :: 0 <= i < |c| ==> c[i] + c[i] == pos[i] + neg[i]
    ensures forall i :: 0 <= i < |c| ==>
      (if pos[i] <= neg[i] then pos[i] else neg[i]) <= c[i] <= (if pos[i] <= neg[i] then neg[i] else pos[i])
  {
    seq(|pos|, i requires 0 <= i < |pos| => (pos[i] + neg[i]) / 2.0)
  }

  /** Why no ranking comes out: fit_transform on an empty list (line 40) or a target without both sentiments (lines 41, 44). */
  datatype RankError = EmptyCandidates | NoTargetSentiments

  /** The scores of line 51 for the candidates, against the target's sentiments. */
  function SummaryScores(summaries: seq<Summary>, candidates: seq<Product>, target: Sentiments,
                         posSim: (seq<string>, string, nat) -> Score, negSim: (seq<string>, string, nat) -> Score): (s: seq<Score>)
    requires forall k :: 0 <= k < |candidates| ==> SentimentsOf(summaries, candidates[k].productId).Some?
    ensures |s| == |candidates|
    ensures forall i :: 0 <= i < |s| ==>
      s[i] + s[i] == posSim(Texts(summaries, candidates, true), target.positive, i)
                     + negSim(Texts(summaries, candidates, false), target.negative, i)
  {
    var positives := Texts(summaries, candidates, true);
    var negatives := Texts(summaries, candidates, false);
    CombinedScores(seq(|candidates|, i requires 0 <= i => posSim(positives, target.positive, i)),
                   seq(|candidates|, i requires 0 <= i => negSim(negatives, target.negative, i)))
  }

  /** The candidates at the given indices, in index order. */
  function AtIndices(candidates: seq<Product>, sel: seq<nat>): (r: seq<Product>)
    requires forall k :: 0 <= k < |sel| ==> sel[k] < |candidates|
    ensures |r| == |sel| && forall k :: 0 <= k < |sel| ==> r[k] == candidates[sel[k]]
  {
    seq(|sel|, k requires 0 <= k < |sel| => candidates[sel[k]])
  }

  /** Distinct indices into distinct candidates pick distinct products. */
  lemma AtIndicesDistinct(candidates: seq<Product>, sel: seq<nat>)
    requires forall k :: 0 <= k < |sel| ==> sel[k] < |candidates|
    requires Distinct(candidates) && Distinct(sel)
    ensures Distinct(AtIndices(candidates, sel))
  {
    var r := AtIndices(candidates, sel);
    forall i, j | 0 <= i < j < |r| ensures r[i] != r[j] {
      assert sel[i] != sel[j];
    }
  }

  /** tfidf_recommendations, lines 24-58. */
  function SummaryRecommendations(products: seq<Product>, summaries: seq<Summary>, target: ProductId,
                                  posSim: (seq<string>, string, nat) -> Score, negSim: (seq<string>, string, nat) -> Score)
    : (r: Result<seq<Product>, RankError>)
    ensures r == Failure(EmptyCandidates) <==> Candidates(products, summaries, target) == []
    ensures r == Failure(NoTargetSentiments) <==>
      Candidates(products, summaries, target) != [] && SentimentsOf(summaries, target).None?
    ensures r.Success? ==> |r.value| == Min(|Candidates(products, summaries, target)|, TOP_N)
    ensures r.Success? ==> forall k :: 0 <= k < |r.value| ==> r.value[k] in products && IsCandidate(summaries, target, r.value[k])
  {
    var candidates := Candidates(products, summaries, target);
    if candidates == [] then Failure(EmptyCandidates)
    else match SentimentsOf(summaries, target)
      case None => Failure(NoTargetSentiments)
      case Some(t) =>
        var top := FirstByScore(SummaryScores(summaries, candidates, t, posSim, negSim));
        Success(AtIndices(candidates, top))
  }

  /**
   * A ranking is the candidates at a top-TOP_N selection of the combined scores, best first,
   * however numpy breaks ties; with a unique primary key no product comes twice.
   */
  lemma SummaryRecommendationsAreTop(products: seq<Product>, summaries: seq<Summary>, target: ProductId,
                                     posSim: (seq<string>, string, nat) -> Score, negSim: (seq<string>, string, nat) -> Score)
    requires SummaryRecommendations(products, summaries, target, posSim, negSim).Success?
    ensures
      var candidates := Candidates(products, summaries, target);
      var r := SummaryRecommendations(products, summaries, target, posSim, negSim).value;
      var scores := SummaryScores(summaries, candidates, SentimentsOf(summaries, target).value, posSim, negSim);
      && (exists sel :: IsTopSelection(scores, sel, TOP_N) && |sel| == |r| && forall k :: 0 <= k < |r| ==> r[k] == candidates[sel[k]])
      && (UniqueIds(products) ==> Distinct(r))
  {
    var candidates := Candidates(products, summaries, target);
    var r := SummaryRecommendations(products, summaries, target, posSim, negSim).value;
    var scores := SummaryScores(summaries, candidates, SentimentsOf(summaries, target).value, posSim, negSim);
    var sel := FirstByScore(scores);
    assert IsTopSelection(scores, sel, TOP_N);
    if UniqueIds(products) {
      AtIndicesDistinct(candidates, sel);
    }
  }
}
