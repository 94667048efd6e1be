/**
 * management/commands/remove_products_with_zero_reviews.py: deletes every product that no review
 * references; Django's on_delete=CASCADE removes the rows that point at the deleted products.
 */
module PruneProducts {
  import opened Seqs
  import opened Models

  /** Review.objects.values_list('product_id', flat=True).distinct() (line 9). */
  function ReviewedIds(reviews: seq<Review>): set<ProductId>
  {
    set r | r in reviews :: r.productId
  }

  /** The ids of Product.objects.exclude(product_id__in=...) (line 13). */
  function Unreviewed(t: Tables): set<ProductId>
  {
    ProductIds(t.products) - ReviewedIds(t.reviews)
  }

  /** The tables after the command. */
  function Prune(t: Tables): (r: Tables)
    ensures forall p :: p in r.products ==> p.productId in ReviewedIds(r.reviews)
    ensures forall p :: p in t.products ==> (p in r.products <==> p.productId in ReviewedIds(t.reviews))
    ensures forall p :: p in r.products ==> p in t.products
    ensures r.reviews == t.reviews
    ensures forall s :: s in r.summaries <==> s in t.summaries && s.productId !in Unreviewed(t)
    ensures forall f :: f in r.feedback <==> f in t.feedback && f.initialProductId !in Unreviewed(t)
    ensures forall m :: m in r.performance <==> m in t.performance && m.productId !in Unreviewed(t)
  {
    var doomed := Unreviewed(t);
    FilterAll(t.reviews, (v: Review) => v.productId !in doomed);
    CascadeDelete(t, doomed)
  }

  /** A second run deletes nothing and changes nothing. */
  lemma PruneIdempotent(t: Tables)
    ensures Unreviewed(Prune(t)) == {}
    ensures Prune(Prune(t)) == Prune(t)
    ensures CascadeCount(Prune(t), Unreviewed(Prune(t))) == 0
  {
    var once := Prune(t);
    forall id | id in ProductIds(once.products) ensures id in ReviewedIds(once.reviews) {
      var p :| p in once.products && p.productId == id;
    }
  }

  /** Command.handle, on the database db; returns deleted_count, which includes the cascaded rows. */
  method RemoveProductsWithZeroReviews(db: Database) returns (deletedCount: nat)
    requires db.Valid()
    modifies db
    ensures db.Valid()
    ensures db.State() == Prune(old(db.State()))
    ensures deletedCount == CascadeCount(old(db.State()), Unreviewed(old(db.State())))
  {
    var productIdsWithReviews := ReviewedIds(db.reviews);
    var productsToDelete := ProductIds(db.products) - productIdsWithReviews;
    deletedCount := db.DeleteProducts(productsToDelete);
  }
}
