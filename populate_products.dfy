/**
 * management/commands/populate_products.py: reads the items of metadata_processed.json, skips
 * the ones without a title, and upserts every Home & Kitchen item into the Product table keyed
 * by its ASIN, counting skipped and processed items.
 */
module PopulateProducts {
  import opened Wrappers
  import opened JsonRecords
  import opened Models

  const HOME_AND_KITCHEN: string := "Home & Kitchen"

  /** One item of the metadata array, with the keys the command reads. */
  datatype Item = Item(
    asin: Field<ProductId>,
    title: Field<string>,
    categories: Field<seq<seq<string>>>,
    imUrl: Field<string>,
    price: Field<Price>)

  /** What one pass of the loop body does with an item. */
  datatype Outcome =
    | Skipped                  // no 'title': skip_count += 1
    | KeyErrorOnAsin           // no 'title' and no 'asin': item['asin'] raises before skip_count += 1
    | OutsideCategory          // titled, but no category list names Home & Kitchen
    | Rejected                 // update_or_create raised: a NOT NULL column would be None
    | Written(product: Product)

  /** `categories and any("Home & Kitchen" in sublist for sublist in categories)`. */
  predicate InHomeAndKitchen(categories: Option<seq<seq<string>>>)
  {
    categories.Some? && categories.value != [] && exists sub :: sub in categories.value && HOME_AND_KITCHEN in sub
  }

  /** The fate of one item (lines 30-56). */
  function Classify(item: Item): (o: Outcome)
    ensures o.Written? <==> item.title.Present() && InHomeAndKitchen(item.categories.Get())
                            && item.asin.Val? && item.title.Val? && item.imUrl.Val? && item.price.Val?
    ensures o.Written? ==> o.product == Product(item.asin.value, item.title.value, item.imUrl.value, item.price.value)
    ensures o.Skipped? <==> !item.title.Present() && item.asin.Present()
    ensures o.KeyErrorOnAsin? <==> !item.title.Present() && !item.asin.Present()
  {
    if !item.title.Present() then
      if item.asin.Present() then Skipped else KeyErrorOnAsin
    else if !InHomeAndKitchen(item.categories.Get()) then OutsideCategory
    else if item.asin.Val? && item.title.Val? && item.imUrl.Val? && item.price.Val? then
      Written(Product(item.asin.value, item.title.value, item.imUrl.value, item.price.value))
    else Rejected
  }

  /** The Product table after the items have gone through the loop, one upsert per written item. */
  function UpsertAll(products: seq<Product>, items: seq<Item>): (r: seq<Product>)
    ensures |products| <= |r| <= |products| + Processed(items)
    decreases |items|
  {
    if items == [] then products
    else
      var before := UpsertAll(products, items[..|items| - 1]);
      match Classify(items[|items| - 1])
      case Written(p) => Upsert(before, p)
      case _ => before
  }

  /** processed_count: the number of successful upserts. */
  function Processed(items: seq<Item>): (n: nat)
    ensures n <= |items|
    decreases |items|
  {
    if items == [] then 0
    else Processed(items[..|items| - 1]) + (if Classify(items[|items| - 1]).Written? then 1 else 0)
  }

  /** skip_count: the number of items without a title that do have an ASIN. */
  function SkippedCount(items: seq<Item>): (n: nat)
    ensures n <= |items|
    decreases |items|
  {
    if items == [] then 0
    else SkippedCount(items[..|items| - 1]) + (if Classify(items[|items| - 1]).Skipped? then 1 else 0)
  }

  /** The product the last item written with this ASIN carries, if any. */
  function LastWrite(items: seq<Item>, id: ProductId): (r: Option<Product>)
    ensures r.Some? ==> r.value.productId == id
    decreases |items|
  {
    if items == [] then None
    else
      var o := Classify(items[|items| - 1]);
      if o.Written? && o.product.productId == id then Some(o.product)
      else LastWrite(items[..|items| - 1], id)
  }

  /** processed_count stays 0 exactly when no item is written, and skip_count exactly when none is skipped. */
  lemma {:induction false} ZeroCounts(items: seq<Item>)
    ensures Processed(items) == 0 <==> forall i :: 0 <= i < |items| ==> !Classify(items[i]).Written?
    ensures SkippedCount(items) == 0 <==> forall i :: 0 <= i < |items| ==> !Classify(items[i]).Skipped?
    decreases |items|
  {
    if items != [] {
      var init := items[..|items| - 1];
      ZeroCounts(init);
      assert forall i :: 0 <= i < |init| ==> init[i] == items[i];
    }
  }

  /** Every item is counted at most once: processed_count + skip_count never exceeds the items read. */
  lemma {:induction false} CountsBounded(items: seq<Item>)
    ensures Processed(items) + SkippedCount(items) <= |items|
    decreases |items|
  {
    if items != [] {
      CountsBounded(items[..|items| - 1]);
    }
  }

  /**
   * Last write wins and nothing else changes: the row for an ASIN is the one the last item
   * written with that ASIN carries, and an ASIN no item wrote keeps its old row (or stays absent).
   */
  lemma {:induction false} LastWriteWins(products: seq<Product>, items: seq<Item>, id: ProductId)
    ensures Lookup(UpsertAll(products, items), id) == if LastWrite(items, id).Some? then LastWrite(items, id) else Lookup(products, id)
    decreases |items|
  {
    if items != [] {
      LastWriteWins(products, items[..|items| - 1], id);
    }
  }

  /** The primary key stays unique. */
  lemma {:induction false} UpsertAllUnique(products: seq<Product>, items: seq<Item>)
    requires UniqueIds(products)
    ensures UniqueIds(UpsertAll(products, items))
    decreases |items|
  {
    if items != [] {
      UpsertAllUnique(products, items[..|items| - 1]);
    }
  }

  /** The ASINs in the table afterwards are the old ones and the written ones. */
  lemma UpsertAllIds(products: seq<Product>, items: seq<Item>, id: ProductId)
    ensures id in ProductIds(UpsertAll(products, items)) <==> id in ProductIds(products) || LastWrite(items, id).Some?
  {
    LastWriteWins(products, items, id);
  }

  /** Upserting an id already present in a table with unique ids overwrites exactly that row. */
  lemma UpsertOverwrites(r: seq<Product>, p: Product)
    requires UniqueIds(r) && p.productId in ProductIds(r)
    ensures |Upsert(r, p)| == |r|
    ensures forall k :: 0 <= k < |r| ==> Upsert(r, p)[k] == (if r[k].productId == p.productId then p else r[k])
  {
    var r' := Upsert(r, p);
    forall k | 0 <= k < |r| ensures r'[k] == (if r[k].productId == p.productId then p else r[k]) {
      LookupUnique(r', k);
      LookupUnique(r, k);
    }
  }

  /** When every written ASIN is already in the table, each row is overwritten where it stands. */
  lemma {:induction false} UpsertAllInPlace(products: seq<Product>, items: seq<Item>)
    requires UniqueIds(products)
    requires forall id :: LastWrite(items, id).Some? ==> id in ProductIds(products)
    ensures |UpsertAll(products, items)| == |products|
    ensures forall k :: 0 <= k < |products| ==>
      UpsertAll(products, items)[k] == (if LastWrite(items, products[k].productId).Some?
                                        then LastWrite(items, products[k].productId).value else products[k])
    decreases |items|
  {
    if items != [] {
      var init, x := items[..|items| - 1], items[|items| - 1];
      forall id | LastWrite(init, id).Some? ensures id in ProductIds(products) {
        assert LastWrite(items, id).Some?;
      }
      UpsertAllInPlace(products, init);
      var r := UpsertAll(products, init);
      UpsertAllUnique(products, init);
      if Classify(x).Written? {
        var p := Classify(x).product;
        assert LastWrite(items, p.productId) == Some(p);
        assert p.productId in ProductIds(r) by {
          var q :| q in products && q.productId == p.productId;
          var k :| 0 <= k < |products| && products[k] == q;
          assert r[k].productId == p.productId;
          assert r[k] in r;
        }
        UpsertOverwrites(r, p);
      }
    }
  }

  /** Running the command twice on the same input leaves the same Product table as running it once. */
  lemma Idempotent(products: seq<Product>, items: seq<Item>)
    requires UniqueIds(products)
    ensures UpsertAll(UpsertAll(products, items), items) == UpsertAll(products, items)
  {
    var once := UpsertAll(products, items);
    UpsertAllUnique(products, items);
    forall id | LastWrite(items, id).Some? ensures id in ProductIds(once) {
      UpsertAllIds(products, items, id);
    }
    UpsertAllInPlace(once, items);
    var twice := UpsertAll(once, items);
    forall k | 0 <= k < |once| ensures twice[k] == once[k] {
      LookupUnique(once, k);
      LastWriteWins(products, items, once[k].productId);
    }
  }

  /** Two items with the same ASIN both count as processed but leave one row: the count can exceed the products stored. */
  lemma ProcessedCanExceedRows()
    ensures var item := Item(Val("B0001"), Val("Kettle"), Val([["Home & Kitchen"]]), Val("k.jpg"), Val(19.99));
            Processed([item, item]) == 2 && |UpsertAll([], [item, item])| == 1
  {
    var item := Item(Val("B0001"), Val("Kettle"), Val([["Home & Kitchen"]]), Val("k.jpg"), Val(19.99));
    var p := Product("B0001", "Kettle", "k.jpg", 19.99);
    assert [HOME_AND_KITCHEN] in item.categories.value && HOME_AND_KITCHEN in [HOME_AND_KITCHEN];
    assert Classify(item) == Written(p);
    assert [item, item][..1] == [item];
    assert [item][..0] == [];
    assert Processed([item]) == 1;
    assert UpsertAll([], [item]) == [p];
    assert Find([p], p.productId) == Some(0);
    assert UpsertAll([], [item, item]) == [p];
  }

  /** One more item through the loop: its outcome decides the upsert and the counters. */
  lemma LoopStep(products: seq<Product>, items: seq<Item>, i: nat)
    requires i < |items|
    ensures UpsertAll(products, items[..i + 1]) ==
      if Classify(items[i]).Written? then Upsert(UpsertAll(products, items[..i]), Classify(items[i]).product)
      else UpsertAll(products, items[..i])
    ensures Processed(items[..i + 1]) == Processed(items[..i]) + (if Classify(items[i]).Written? then 1 else 0)
    ensures SkippedCount(items[..i + 1]) == SkippedCount(items[..i]) + (if Classify(items[i]).Skipped? then 1 else 0)
  {
    var s := items[..i + 1];
    assert s[..|s| - 1] == items[..i] && s[|s| - 1] == items[i];
  }

  /** Command.handle: the loop of lines 29-56 over the items, on the database db. */
  method PopulateProducts(db: Database, items: seq<Item>) returns (processed: nat, skipped: nat)
    requires db.Valid()
    modifies db
    ensures db.Valid()
    ensures db.products == UpsertAll(old(db.products), items)
    ensures db.reviews == old(db.reviews) && db.summaries == old(db.summaries)
    ensures db.feedback == old(db.feedback) && db.performance == old(db.performance)
    ensures processed == Processed(items) && skipped == SkippedCount(items)
  {
    processed, skipped := 0, 0;
    for i := 0 to |items|
      invariant db.Valid()
      invariant db.products == UpsertAll(old(db.products), items[..i])
      invariant db.reviews == old(db.reviews) && db.summaries == old(db.summaries)
      invariant db.feedback == old(db.feedback) && db.performance == old(db.performance)
      invariant processed == Processed(items[..i]) && skipped == SkippedCount(items[..i])
    {
      var item := items[i];
      LoopStep(old(db.products), items, i);
      if !item.title.Present() {
        if !item.asin.Present() {
          // item['asin'] raises KeyError; the handler at line 54 swallows it
          continue;
        }
        skipped := skipped + 1;
        continue;
      }
      var categories := item.categories.Get();
      if InHomeAndKitchen(categories) {
        var ok := db.UpdateOrCreateProduct(item.asin.Get(), item.title.Get(), item.imUrl.Get(), item.price.Get());
        if ok {
          processed := processed + 1;
        }
      }
    }
    assert items[..|items|] == items;
  }
}
