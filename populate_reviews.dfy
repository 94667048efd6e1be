/**
 * management/commands/populate_reviews.py: reads the review records and creates one Review row
 * for every record whose ASIN is among the products that existed when the command started.
 */
module PopulateReviews {
  import opened Wrappers
  import opened JsonRecords
  import opened Models

  const DEFAULT_USER: string := "default user"

  /** review_data.get('overall', 1): the default score before int() is applied. */
  const DEFAULT_OVERALL: real := 1.0

  /** One record of home_and_kitchen_reviews_processed.json, with the keys the command reads. */
  datatype ReviewRecord = ReviewRecord(
    asin: Field<ProductId>,
    unixReviewTime: Field<int>,
    summary: Field<string>,
    reviewerName: Field<string>,
    overall: Field<real>,
    reviewText: Field<string>)

  /** Python's int() on a number: truncation toward zero. */
  function Truncate(x: real): (n: int)
    ensures 0.0 <= x ==> n as real <= x < n as real + 1.0
    ensures x < 0.0 ==> n as real - 1.0 < x <= n as real
    ensures 0.0 <= x ==> 0 <= n
    ensures x <= 0.0 ==> n <= 0
  {
    if x >= 0.0 then x.Floor else -((-x).Floor)
  }

  /**
   * The row created for a record whose ASIN names an existing product, or None when
   * Review.objects.create raises: unixReviewTime missing or null (review_id is NOT NULL),
   * reviewerName present but null (review_username is NOT NULL), or overall null (int(None)).
   */
  function RowFor(rec: ReviewRecord, asin: ProductId): (r: Option<Review>)
    ensures r.Some? <==> rec.unixReviewTime.Val? && !rec.reviewerName.Null? && !rec.overall.Null?
    ensures r.Some? ==> r.value.productId == asin
    ensures r.Some? ==> r.value.reviewId == rec.unixReviewTime.value && r.value.createdAtUnix == Some(rec.unixReviewTime.value)
    ensures r.Some? ==> r.value.reviewTitle == rec.summary.Get() && r.value.reviewText == rec.reviewText.Get()
    ensures r.Some? ==> r.value.reviewUsername == if rec.reviewerName.Absent? then DEFAULT_USER else rec.reviewerName.value
    ensures r.Some? ==> r.value.reviewScore == if rec.overall.Absent? then 1 else Truncate(rec.overall.value)
  {
    var overall := rec.overall.GetOr(DEFAULT_OVERALL);
    var username := rec.reviewerName.GetOr(DEFAULT_USER);
    if rec.unixReviewTime.Val? && username.Some? && overall.Some? then
      Some(Review(asin, rec.unixReviewTime.value, rec.summary.Get(), username.value,
                  Truncate(overall.value), rec.reviewText.Get(), Some(rec.unixReviewTime.value)))
    else None
  }

  /** `asin in existing_asins`, where a missing or null ASIN is None and never in the set. */
  predicate Known(existing: set<ProductId>, rec: ReviewRecord)
  {
    rec.asin.Val? && rec.asin.value in existing
  }

  /** The row one pass of the loop body creates, if any: only for a known ASIN, and only if create does not raise. */
  function Created(existing: set<ProductId>, rec: ReviewRecord): (r: Option<Review>)
    ensures r.Some? ==> Known(existing, rec) && r == RowFor(rec, rec.asin.value)
    ensures Known(existing, rec) ==> r == RowFor(rec, rec.asin.value)
  {
    if Known(existing, rec) then RowFor(rec, rec.asin.value) else None
  }

  /** The rows the loop appends, in record order, given the ASIN snapshot taken before it. */
  function NewReviews(existing: set<ProductId>, records: seq<ReviewRecord>): (rows: seq<Review>)
    ensures |rows| <= |records|
    ensures forall r :: r in rows ==> r.productId in existing && r.createdAtUnix == Some(r.reviewId)
    decreases |records|
  {
    if records == [] then []
    else
      var before := NewReviews(existing, records[..|records| - 1]);
      var rec := records[|records| - 1];
      match Created(existing, rec)
      case Some(row) => before + [row]
      case None => before
  }

  /** Records whose ASIN is not in the snapshot create nothing. */
  lemma {:induction false} UnknownRecordsIgnored(existing: set<ProductId>, records: seq<ReviewRecord>)
    requires forall i :: 0 <= i < |records| ==> !Known(existing, records[i])
    ensures NewReviews(existing, records) == []
    decreases |records|
  {
    if records != [] {
      UnknownRecordsIgnored(existing, records[..|records| - 1]);
    }
  }

  /** Every known, well-formed record creates exactly one row, the i-th row coming from the i-th record. */
  lemma {:induction false} KnownRecordsCreated(existing: set<ProductId>, records: seq<ReviewRecord>)
    requires forall i :: 0 <= i < |records| ==> Created(existing, records[i]).Some?
    ensures |NewReviews(existing, records)| == |records|
    ensures forall i :: 0 <= i < |records| ==> NewReviews(existing, records)[i] == Created(existing, records[i]).value
    decreases |records|
  {
    if records != [] {
      var init := records[..|records| - 1];
      assert forall i :: 0 <= i < |init| ==> init[i] == records[i];
      KnownRecordsCreated(existing, init);
      var row := Created(existing, records[|records| - 1]).value;
      assert NewReviews(existing, records) == NewReviews(existing, init) + [row];
    }
  }

  /** One more record through the loop: the row it creates, if any, is appended. */
  lemma NewReviewsStep(existing: set<ProductId>, records: seq<ReviewRecord>, i: nat)
    requires i < |records|
    ensures NewReviews(existing, records[..i + 1]) ==
      NewReviews(existing, records[..i]) + (if Created(existing, records[i]).Some? then [Created(existing, records[i]).value] else [])
  {
    var s := records[..i + 1];
    assert s[..|s| - 1] == records[..i] && s[|s| - 1] == records[i];
  }

  /** One pass of the loop body, lines 22-39: the row the record creates, if any, is appended. */
  method ProcessRecord(db: Database, existingAsins: set<ProductId>, rec: ReviewRecord) returns (ok: bool)
    requires db.Valid() && existingAsins == ProductIds(db.products)
    modifies db
    ensures db.Valid()
    ensures ok <==> Created(existingAsins, rec).Some?
    ensures db.reviews == old(db.reviews) + (if ok then [Created(existingAsins, rec).value] else [])
    ensures db.products == old(db.products) && db.summaries == old(db.summaries)
    ensures db.feedback == old(db.feedback) && db.performance == old(db.performance)
  {
    var created := Created(existingAsins, rec);
    var asin := rec.asin.Get();
    if asin.Some? && asin.value in existingAsins {
      assert created == RowFor(rec, asin.value);
      var overall := rec.overall.GetOr(DEFAULT_OVERALL);
      if overall.None? {
        // int(None) raises TypeError; the handler at line 41 swallows it
        return false;
      }
      ok := db.CreateReview(asin.value, rec.unixReviewTime.Get(), rec.summary.Get(),
                            rec.reviewerName.GetOr(DEFAULT_USER), Truncate(overall.value),
                            rec.reviewText.Get(), rec.unixReviewTime.Get());
    } else {
      ok := false;
    }
  }

  /** Command.handle: lines 20-39, on the database db. */
  method PopulateReviews(db: Database, records: seq<ReviewRecord>) returns (processed: nat)
    requires db.Valid()
    modifies db
    ensures db.Valid()
    ensures db.reviews == old(db.reviews) + NewReviews(ProductIds(old(db.products)), records)
    ensures processed == |NewReviews(ProductIds(old(db.products)), records)|
    ensures db.products == old(db.products) && db.summaries == old(db.summaries)
    ensures db.feedback == old(db.feedback) && db.performance == old(db.performance)
  {
    processed := 0;
    var existingAsins := ProductIds(db.products);
    for i := 0 to |records|
      invariant db.Valid()
      invariant db.reviews == old(db.reviews) + NewReviews(existingAsins, records[..i])
      invariant processed == |NewReviews(existingAsins, records[..i])|
      invariant db.products == old(db.products) && db.summaries == old(db.summaries)
      invariant db.feedback == old(db.feedback) && db.performance == old(db.performance)
    {
      NewReviewsStep(existingAsins, records, i);
      var ok := ProcessRecord(db, existingAsins, records[i]);
      if ok {
        processed := processed + 1;
      }
    }
    assert records[..|records|] == records;
  }

  /** Rows are created, not upserted: a second run on the same input appends the same rows again. */
  method PopulateReviewsTwice(db: Database, records: seq<ReviewRecord>) returns (first: nat, second: nat)
    requires db.Valid()
    modifies db
    ensures db.Valid()
    ensures var added := NewReviews(ProductIds(old(db.products)), records);
            db.reviews == old(db.reviews) + added + added && first == second == |added|
  {
    first := PopulateReviews(db, records);
    second := PopulateReviews(db, records);
  }
}
