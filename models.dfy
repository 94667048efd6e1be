/**
 * The tables of product_recommender/models.py as values, and the database that holds them.
 * Each table is a sequence of rows in storage order; a query without `order_by` is taken
 * to return rows in that order.
 */
module Models {
  import opened Wrappers
  import opened Seqs

  /** The Amazon ASIN, the primary key of Product. */
  type ProductId = string

  /** A DecimalField(max_digits=10, decimal_places=2); quantisation to two places is not modelled. */
  type Price = real

  /** class Product: every column is NOT NULL. */
  datatype Product = Product(productId: ProductId, name: string, imageUrl: string, price: Price)

  /** class Review: review_id, review_username and review_score are NOT NULL. */
  datatype Review = Review(
    productId: ProductId,
    reviewId: int,
    reviewTitle: Option<string>,
    reviewUsername: string,
    reviewScore: int,
    reviewText: Option<string>,
    createdAtUnix: Option<int>)

  /** class Summary: a foreign key to Product and two nullable sentiment texts. */
  datatype Summary = Summary(productId: ProductId, positiveSentiment: Option<string>, negativeSentiment: Option<string>)

  /** class Feedback. */
  datatype Feedback = Feedback(initialProductId: ProductId, recommendedProductId: int, goodRecommendation: bool, createdAtUnix: Option<int>)

  /** class RecommendationPerformance; recorded_at is a timestamp, kept as an integer. */
  datatype RecommendationPerformance = RecommendationPerformance(productId: ProductId, summaryTime: real, reviewsTime: real, numReviews: int, recordedAt: int)

  /** The five tables together. */
  datatype Tables = Tables(
    products: seq<Product>,
    reviews: seq<Review>,
    summaries: seq<Summary>,
    feedback: seq<Feedback>,
    performance: seq<RecommendationPerformance>)

  function ProductIds(products: seq<Product>): set<ProductId>
  {
    set p | p in products :: p.productId
  }

  /** product_id is the primary key. */
  predicate UniqueIds(products: seq<Product>)
  {
    forall i, j :: 0 <= i < j < |products| ==> products[i].productId != products[j].productId
  }

  /** The primary key is unique and every foreign key names an existing product. */
  predicate WellFormed(t: Tables)
  {
    && UniqueIds(t.products)
    && (forall r :: r in t.reviews ==> r.productId in ProductIds(t.products))
    && (forall s :: s in t.summaries ==> s.productId in ProductIds(t.products))
    && (forall f :: f in t.feedback ==> f.initialProductId in ProductIds(t.products))
    && (forall m :: m in t.performance ==> m.productId in ProductIds(t.products))
  }

  /** The position of the first row with the given id, if any. */
  function Find(products: seq<Product>, id: ProductId): (r: Option<nat>)
    ensures r.Some? ==> r.value < |products| && products[r.value].productId == id
    ensures r.Some? ==> forall j :: 0 <= j < r.value ==> products[j].productId != id
    ensures r.None? ==> forall j :: 0 <= j < |products| ==> products[j].productId != id
  {
    if products == [] then None
    else if products[0].productId == id then Some(0)
    else match Find(products[1..], id)
      case Some(k) => Some(k + 1)
      case None => None
  }

  /** Product.objects.get(product_id=id), with None for DoesNotExist. */
  function Lookup(products: seq<Product>, id: ProductId): (r: Option<Product>)
    ensures r.Some? ==> r.value in products && r.value.productId == id
    ensures r.None? <==> id !in ProductIds(products)
  {
    match Find(products, id)
    case Some(i) => Some(products[i])
    case None => None
  }

  /** Two tables with the same id in every position find every id at the same position. */
  lemma FindSameIds(s: seq<Product>, t: seq<Product>, id: ProductId)
    requires |s| == |t|
    requires forall k :: 0 <= k < |s| ==> s[k].productId == t[k].productId
    ensures Find(s, id) == Find(t, id)
  {
  }

  /** Find returns the first position holding the id. */
  lemma FindFirst(s: seq<Product>, k: nat, id: ProductId)
    requires k < |s| && s[k].productId == id
    requires forall j :: 0 <= j < k ==> s[j].productId != id
    ensures Find(s, id) == Some(k)
  {
  }

  /** In a table with a unique primary key, the row of a product is the one Lookup finds. */
  lemma LookupUnique(products: seq<Product>, i: nat)
    requires UniqueIds(products) && i < |products|
    ensures Lookup(products, products[i].productId) == Some(products[i])
  {
    var f := Find(products, products[i].productId);
    assert f.Some?;
  }

  /** Overwriting a row with a product of the same id moves no id. */
  lemma OverwriteKeepsIds(products: seq<Product>, i: nat, p: Product)
    requires i < |products| && products[i].productId == p.productId
    ensures forall id :: Find(products[i := p], id) == Find(products, id)
    ensures ProductIds(products[i := p]) == ProductIds(products)
  {
    var r := products[i := p];
    forall id ensures Find(r, id) == Find(products, id) {
      FindSameIds(r, products, id);
    }
    forall x | x in ProductIds(r) ensures x in ProductIds(products) {
      var q :| q in r && q.productId == x;
      var k :| 0 <= k < |r| && r[k] == q;
      assert products[k] in products;
    }
    forall x | x in ProductIds(products) ensures x in ProductIds(r) {
      var q :| q in products && q.productId == x;
      var k :| 0 <= k < |products| && products[k] == q;
      assert r[k] in r;
    }
  }

  /** Appending a product with a new id finds it at the end and every other id where it was. */
  lemma AppendNewId(products: seq<Product>, p: Product)
    requires p.productId !in ProductIds(products)
    ensures Find(products + [p], p.productId) == Some(|products|)
    ensures forall id :: id != p.productId ==> Find(products + [p], id) == Find(products, id)
  {
    var r := products + [p];
    FindFirst(r, |products|, p.productId);
    forall id | id != p.productId ensures Find(r, id) == Find(products, id) {
      match Find(products, id)
      case Some(i) =>
        FindFirst(r, i, id);
      case None =>
        assert forall j :: 0 <= j < |r| ==> r[j].productId != id;
    }
  }

  /**
   * Product.objects.update_or_create(product_id=p.productId, defaults=...): the row with that
   * id is overwritten where it stands, otherwise the product is appended.
   */
  function Upsert(products: seq<Product>, p: Product): (r: seq<Product>)
    ensures Lookup(r, p.productId) == Some(p)
    ensures forall id :: id != p.productId ==> Lookup(r, id) == Lookup(products, id)
    ensures ProductIds(r) == ProductIds(products) + {p.productId}
    ensures UniqueIds(products) ==> UniqueIds(r)
    ensures p.productId in ProductIds(products) ==> |r| == |products|
    ensures p.productId !in ProductIds(products) ==> |r| == |products| + 1
    ensures p.productId in ProductIds(products) ==> forall k :: 0 <= k < |r| ==> r[k].productId == products[k].productId
  {
    match Find(products, p.productId)
    case Some(i) =>
      OverwriteKeepsIds(products, i, p);
      assert products[i] in products;
      products[i := p]
    case None =>
      AppendNewId(products, p);
      products + [p]
  }

  /**
   * The rows left after deleting the products whose id is in doomed, with Django's
   * on_delete=CASCADE removing the reviews, summaries, feedback and performance rows
   * that point at them (models.py:16, 26, 34, 41).
   */
  function CascadeDelete(t: Tables, doomed: set<ProductId>): (r: Tables)
    ensures forall p :: p in r.products <==> p in t.products && p.productId !in doomed
    ensures forall v :: v in r.reviews <==> v in t.reviews && v.productId !in doomed
    ensures forall s :: s in r.summaries <==> s in t.summaries && s.productId !in doomed
    ensures forall f :: f in r.feedback <==> f in t.feedback && f.initialProductId !in doomed
    ensures forall m :: m in r.performance <==> m in t.performance && m.productId !in doomed
    ensures doomed == {} ==> r == t
    ensures (&& |r.products| == |t.products| && |r.reviews| == |t.reviews| && |r.summaries| == |t.summaries|
             && |r.feedback| == |t.feedback| && |r.performance| == |t.performance|) ==> r == t
  {
    var keepProduct := (p: Product) => p.productId !in doomed;
    var keepReview := (v: Review) => v.productId !in doomed;
    var keepSummary := (s: Summary) => s.productId !in doomed;
    var keepFeedback := (f: Feedback) => f.initialProductId !in doomed;
    var keepPerformance := (m: RecommendationPerformance) => m.productId !in doomed;
    var r := Tables(
      Filter(t.products, keepProduct),
      Filter(t.reviews, keepReview),
      Filter(t.summaries, keepSummary),
      Filter(t.feedback, keepFeedback),
      Filter(t.performance, keepPerformance));
    FilterFull(t.products, keepProduct);
    FilterFull(t.reviews, keepReview);
    FilterFull(t.summaries, keepSummary);
    FilterFull(t.feedback, keepFeedback);
    FilterFull(t.performance, keepPerformance);
    assert doomed == {} ==> r == t by {
      if doomed == {} {
        FilterAll(t.products, keepProduct);
        FilterAll(t.reviews, keepReview);
        FilterAll(t.summaries, keepSummary);
        FilterAll(t.feedback, keepFeedback);
        FilterAll(t.performance, keepPerformance);
      }
    }
    r
  }

  /** The first value of QuerySet.delete(): every row removed, cascaded rows included. */
  function CascadeCount(t: Tables, doomed: set<ProductId>): (n: nat)
    ensures n == 0 <==> CascadeDelete(t, doomed) == t
  {
    var r := CascadeDelete(t, doomed);
    (|t.products| - |r.products|) + (|t.reviews| - |r.reviews|) + (|t.summaries| - |r.summaries|)
      + (|t.feedback| - |r.feedback|) + (|t.performance| - |r.performance|)
  }

  lemma {:induction false} FilterUniqueIds(products: seq<Product>, keep: Product -> bool)
    requires UniqueIds(products)
    ensures UniqueIds(Filter(products, keep))
    decreases |products|
  {
    if products != [] {
      var init := products[..|products| - 1];
      var last := products[|products| - 1];
      assert UniqueIds(init);
      FilterUniqueIds(init, keep);
      forall q | q in Filter(init, keep) ensures q.productId != last.productId {
        var k :| 0 <= k < |init| && init[k] == q;
      }
    }
  }

  /** Deleting with cascade keeps the primary key unique and every foreign key valid. */
  lemma CascadeKeepsWellFormed(t: Tables, doomed: set<ProductId>)
    requires WellFormed(t)
    ensures WellFormed(CascadeDelete(t, doomed))
  {
    var r := CascadeDelete(t, doomed);
    FilterUniqueIds(t.products, (p: Product) => p.productId !in doomed);
    forall id | id in ProductIds(t.products) && id !in doomed ensures id in ProductIds(r.products) {
      var p :| p in t.products && p.productId == id;
      assert p in r.products;
    }
  }

  /** The database: the five tables, updated in place by the ORM operations the commands use. */
  class Database {
    var products: seq<Product>
    var reviews: seq<Review>
    var summaries: seq<Summary>
    var feedback: seq<Feedback>
    var performance: seq<RecommendationPerformance>

    function State(): Tables
      reads this
    {
      Tables(products, reviews, summaries, feedback, performance)
    }

    ghost predicate Valid()
      reads this
    {
      WellFormed(State())
    }

    constructor (t: Tables)
      requires WellFormed(t)
      ensures Valid() && State() == t
    {
      products, reviews, summaries, feedback, performance := t.products, t.reviews, t.summaries, t.feedback, t.performance;
    }

    /**
     * Product.objects.update_or_create keyed by product_id. A None in any column raises
     * IntegrityError (every Product column is NOT NULL) and the table is left as it was.
     */
    method UpdateOrCreateProduct(productId: Option<ProductId>, name: Option<string>, imageUrl: Option<string>, price: Option<Price>)
      returns (ok: bool)
      requires Valid()
      modifies this
      ensures Valid()
      ensures ok <==> productId.Some? && name.Some? && imageUrl.Some? && price.Some?
      ensures products == if ok then Upsert(old(products), Product(productId.value, name.value, imageUrl.value, price.value))
                          else old(products)
      ensures reviews == old(reviews) && summaries == old(summaries)
      ensures feedback == old(feedback) && performance == old(performance)
    {
      ok := productId.Some? && name.Some? && imageUrl.Some? && price.Some?;
      if ok {
        products := Upsert(products, Product(productId.value, name.value, imageUrl.value, price.value));
      }
    }

    /**
     * Review.objects.create(product_id=Product.objects.get(product_id=...), ...): raises when the
     * product does not exist (DoesNotExist) or when review_id or review_username is None
     * (IntegrityError on a NOT NULL column); otherwise appends one row.
     */
    method CreateReview(productId: ProductId, reviewId: Option<int>, reviewTitle: Option<string>,
                        reviewUsername: Option<string>, reviewScore: int, reviewText: Option<string>,
                        createdAtUnix: Option<int>)
      returns (ok: bool)
      requires Valid()
      modifies this
      ensures Valid()
      ensures ok <==> productId in ProductIds(products) && reviewId.Some? && reviewUsername.Some?
      ensures reviews == if ok then old(reviews) + [Review(productId, reviewId.value, reviewTitle, reviewUsername.value, reviewScore, reviewText, createdAtUnix)]
                         else old(reviews)
      ensures products == old(products) && summaries == old(summaries)
      ensures feedback == old(feedback) && performance == old(performance)
    {
      ok := productId in ProductIds(products) && reviewId.Some? && reviewUsername.Some?;
      if ok {
        reviews := reviews + [Review(productId, reviewId.value, reviewTitle, reviewUsername.value, reviewScore, reviewText, createdAtUnix)];
      }
    }

    /** QuerySet.delete() on the products whose id is in doomed; returns the total number of rows removed. */
    method DeleteProducts(doomed: set<ProductId>) returns (deleted: nat)
      requires Valid()
      modifies this
      ensures Valid()
      ensures State() == CascadeDelete(old(State()), doomed)
      ensures deleted == CascadeCount(old(State()), doomed)
    {
      var t := State();
      var r := CascadeDelete(t, doomed);
      deleted := CascadeCount(t, doomed);
      products, reviews, summaries, feedback, performance := r.products, r.reviews, r.summaries, r.feedback, r.performance;
      assert State() == r;
      CascadeKeepsWellFormed(t, doomed);
    }
  }
}
