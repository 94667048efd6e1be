# Product recommender: a Dafny model

A Django project recommends Home & Kitchen products from the Amazon review dataset. This model
covers five parts of it:

- the two recommenders: review-text TF-IDF in `tfidf_reviews.py` and sentiment-summary TF-IDF in
  `tfidf.py`;
- the three import commands that build the database: `clean_metadata_and_write_new_file`,
  `populate_products` and `populate_reviews`;
- the pruning command `remove_products_with_zero_reviews`;
- the tables of `product_recommender/models.py` that all of them read and write.

Modules, one per source file, over shared definitions:

- `Wrappers`: `Option` and `Result`.
- `Seqs`: distinctness, filtering and Python's `str.join`.
- `JsonRecords`: a JSON field that is `Absent`, `Null` or `Val(v)`. This separates `key in item`
  from `item.get(key)`.
- `Models`: one row datatype per Django model, plus the `Tables` value. `Database` is a class whose
  five table fields the ORM operations update in place:
  - `update_or_create`, an upsert by primary key;
  - `create`, which refuses NULL in a NOT NULL column;
  - `delete`, which cascades and counts every removed row.

  Each table is a sequence in storage order. A query without `order_by` is taken to return rows in that order.
- `Ranking`: the index orderings behind numpy's `argsort` and `argpartition`. These are a sort by
  descending key, a top-k selection, and `IsTopSelection`, the property of a top-k selection that
  does not depend on how ties are broken.
- `ReviewRecommender`: `tfidf_recommendations_from_reviews`. It covers:
  - the filtered, capped review sample;
  - the fallback when the target has no review text;
  - grouping by product, a loop over a dictionary;
  - the stable ranking by review count;
  - the corpus;
  - top-10 selection by similarity;
  - the reorder through the fetched dictionary.

  The similarity is a parameter.
- `SummaryRecommender`: `tfidf_recommendations`. It covers the candidates, the averaged
  positive/negative scores, and the first 10 by score. The two similarities are parameters.
- `CleanMetadata`: the command that frames the parsed lines as a JSON array. The array syntax is
  section 5 of RFC 8259. `eval` and `json.dumps` are partial functions given as parameters.
- `PopulateProducts`, `PopulateReviews`, `PruneProducts`: the three commands, as methods on a
  `Database`. Specification functions describe the tables they leave behind.

## Model

| member | source | states |
|---|---|---|
| Models.Find | product_recommender/models.py:9 | the position found holds the id and is the first such position; `None` only when no row has the id |
| Models.Lookup | product_recommender/models.py:9 | a found product is a row of the table with that id; `None` exactly when the id is not a primary key in the table |
| Models.LookupUnique | product_recommender/models.py:9 | with a unique primary key, looking up a row's id returns that row |
| Models.Upsert | product_recommender/management/commands/populate_products.py:43-50 | afterwards the id looks up the new product and every other id looks up what it did before; the id set gains the id; the key stays unique; an existing id is overwritten in place, with length and id order kept, and a new id adds exactly one row |
| Models.CascadeDelete | product_recommender/models.py:16-41 | a row of any table survives exactly when its product id is not doomed (on_delete=CASCADE on every foreign key); deleting nothing changes nothing, and a delete that removes no row of any table leaves the tables as they were |
| Models.CascadeCount | product_recommender/management/commands/remove_products_with_zero_reviews.py:13-14 | the count of removed rows is 0 exactly when the delete leaves every table as it was |
| Models.CascadeKeepsWellFormed | product_recommender/models.py:16-41 | a cascade delete keeps the primary key unique and every foreign key pointing at an existing product |
| Models.Database.constructor | product_recommender/models.py:8-45 | the database holds exactly the given well-formed tables |
| Models.Database.UpdateOrCreateProduct | product_recommender/management/commands/populate_products.py:43-50 | succeeds exactly when every NOT NULL column gets a value; then the product table is the upsert of the new row, otherwise it is unchanged; the other tables never change |
| Models.Database.CreateReview | product_recommender/management/commands/populate_reviews.py:30-38 | succeeds exactly when the product exists and review_id and review_username are non-null; then one row is appended, otherwise nothing changes; no other table changes |
| Models.Database.DeleteProducts | product_recommender/management/commands/remove_products_with_zero_reviews.py:13-14 | the new state is the cascade delete of the old one; the returned count is the number of rows removed from all tables |
| Ranking.Insert | product_recommender/recommendation_engine/tfidf_reviews.py:116 | inserting an index into a descending-ordered index list keeps it ordered and adds exactly that index |
| Ranking.Sort | product_recommender/recommendation_engine/tfidf_reviews.py:120 | the result is ordered by descending key, ties by position, and is a permutation of the input indices |
| Ranking.SortAll | product_recommender/recommendation_engine/tfidf.py:54 | every index exactly once, in descending key order |
| Ranking.PrefixIsTop | product_recommender/recommendation_engine/tfidf.py:54-55 | the first k indices of the descending order are a top-k selection: distinct, ordered, none left out beats one taken |
| Ranking.ArgPartition | product_recommender/recommendation_engine/tfidf_reviews.py:119 | k distinct in-range indices, and no index left out has a higher key than one taken |
| Ranking.TopIndices | product_recommender/recommendation_engine/tfidf_reviews.py:115-120 | with at most 10 scores, all indices in descending order; otherwise exactly 10 indices, the best ones, in descending order; no index repeated |
| Ranking.SortedPartitionIsTop | product_recommender/recommendation_engine/tfidf_reviews.py:119-120 | sorting the k indices argpartition picked by descending key gives a top-k selection |
| Ranking.FirstByScore | product_recommender/recommendation_engine/tfidf.py:54-55 | min(n, 10) distinct indices of the highest scores in non-increasing score order |
| ReviewRecommender.TargetTexts | product_recommender/recommendation_engine/tfidf_reviews.py:29-32 | one text per review of the target with a non-empty text, in table order, text i being review i's text (so a text two reviews share appears twice); each is non-empty; empty exactly when the target has no such review |
| ReviewRecommender.EligibleReviews | product_recommender/recommendation_engine/tfidf_reviews.py:71-77 | the reviews kept are reviews of the table that pass the filter, and every review that passes is kept |
| ReviewRecommender.ReviewSample | product_recommender/recommendation_engine/tfidf_reviews.py:71-78 | the rows of the first min(n, PRODUCT_LIMIT * 10) qualifying reviews in table order, n being the number that qualify, row i made from qualifying review i; each row has non-empty text, a product of the table and (when excluded) not the target; empty exactly when no review qualifies |
| ReviewRecommender.FirstAppearance | product_recommender/recommendation_engine/tfidf_reviews.py:85-87 | the products of the rows, each exactly once, and only those, in order of first appearance: when one product is listed before another, some row of the first comes before every row of the second |
| ReviewRecommender.AppearanceStep | product_recommender/recommendation_engine/tfidf_reviews.py:86-87 | one more row adds its product at the end of the key order when it is new and leaves the order as it was otherwise; the order stays free of repeats, complete, sourced from the rows and in order of first appearance |
| ReviewRecommender.GroupByProduct | product_recommender/recommendation_engine/tfidf_reviews.py:85-87 | the loop's keys are the products in order of first appearance, and each product's list is its texts in row order |
| ReviewRecommender.GroupsHoldTexts | product_recommender/recommendation_engine/tfidf_reviews.py:85-87 | a product is a key of the grouping exactly when it occurs in the rows, and its list is its texts in row order |
| ReviewRecommender.IndexOf | product_recommender/recommendation_engine/tfidf_reviews.py:91 | the position returned holds the element and is its first position |
| ReviewRecommender.RankByReviewCount | product_recommender/recommendation_engine/tfidf_reviews.py:90-94 | min(n, 5000) distinct products of the key order, by descending review count with ties in first-appearance order (a stable sort); every product cut off comes after every product kept in that order |
| ReviewRecommender.Ranked | product_recommender/recommendation_engine/tfidf_reviews.py:90-97 | every ranked candidate has a group of texts |
| ReviewRecommender.Corpus | product_recommender/recommendation_engine/tfidf_reviews.py:97-102 | one document more than there are candidates, document 0 being the target's texts joined by spaces |
| ReviewRecommender.CorpusAligned | product_recommender/recommendation_engine/tfidf_reviews.py:97-102 | document k+1 is candidate k's texts joined by spaces, so the id list and the text list stay index-aligned |
| ReviewRecommender.Similarities | product_recommender/recommendation_engine/tfidf_reviews.py:108-112 | one score per document after the first, score k being document k+1 against document 0 |
| ReviewRecommender.Scores | product_recommender/recommendation_engine/tfidf_reviews.py:105-112 | one score per ranked candidate, score k being the similarity of corpus document k+1 |
| ReviewRecommender.ScoreOfCandidate | product_recommender/recommendation_engine/tfidf_reviews.py:97-112 | score k is the similarity, against the target's texts joined by spaces, of ranked candidate k's review texts joined by spaces in row order |
| ReviewRecommender.ChosenIds | product_recommender/recommendation_engine/tfidf_reviews.py:115-123 | min(candidates, 10) ids, each a ranked candidate, with no repeats when the candidates have none |
| ReviewRecommender.Fetched | product_recommender/recommendation_engine/tfidf_reviews.py:126-132 | the ids of the result are the given ids, in order, with those not in the Product table left out; every product is a row of the table |
| ReviewRecommender.Fallback | product_recommender/recommendation_engine/tfidf_reviews.py:60-64 | at most 10 products of the table, none the target, each with a review in the sample; below 10, every such product is included; no duplicates under a unique key |
| ReviewRecommender.Recommendations | product_recommender/recommendation_engine/tfidf_reviews.py:37-82 | no target text and no target product gives []; no target text with the product present gives the fallback; target text but no qualifying review of another product gives [] |
| ReviewRecommender.RecommendFromReviews | product_recommender/recommendation_engine/tfidf_reviews.py:22-134 | the function computed with the grouping loop returns exactly the specified recommendations |
| ReviewRecommender.RankedFromRows | product_recommender/recommendation_engine/tfidf_reviews.py:86-97 | the ranked candidates are distinct products that occur in the review rows |
| ReviewRecommender.RankedInTable | product_recommender/recommendation_engine/tfidf_reviews.py:72-97 | the ranked candidates of the main branch are distinct products of the table, none the target |
| ReviewRecommender.ChosenInTable | product_recommender/recommendation_engine/tfidf_reviews.py:115-123 | choosing among distinct stored candidates other than the target gives distinct ids, each a product of the table other than the target |
| ReviewRecommender.FetchedAllPresent | product_recommender/recommendation_engine/tfidf_reviews.py:126-132 | when every id names a product, one product per id in id order, and distinct ids give distinct products |
| ReviewRecommender.FetchedChosenSound | product_recommender/recommendation_engine/tfidf_reviews.py:115-132 | fetching the chosen candidates gives at most 10 distinct rows of the table, none the target |
| ReviewRecommender.MainBranchSound | product_recommender/recommendation_engine/tfidf_reviews.py:66-132 | the main branch returns at most 10 distinct rows of the table, none the target |
| ReviewRecommender.FetchedChosenIsTop | product_recommender/recommendation_engine/tfidf_reviews.py:115-132 | the fetched products are min(candidates, 10), their ids the candidates at a top-10 selection of the scores, best first |
| ReviewRecommender.RecommendationsSound | product_recommender/recommendation_engine/tfidf_reviews.py:75 | in every branch at most 10 products, each a row of the table and not the target, with no duplicates under a unique key |
| ReviewRecommender.MainBranchIsTopSelection | product_recommender/recommendation_engine/tfidf_reviews.py:115-132 | with target text and other reviews, the result is min(ranked, 10) products whose ids are the ranked candidates at a top-10 selection of the similarity scores, best first |
| SummaryRecommender.SentimentsOf | product_recommender/recommendation_engine/tfidf.py:27-30 | a product has sentiments exactly when some summary row of it has both texts non-null, and then they are the two texts of such a row |
| SummaryRecommender.Candidates | product_recommender/recommendation_engine/tfidf.py:27-31 | exactly the products other than the target that have both sentiments, with no duplicates under a unique key |
| SummaryRecommender.Texts | product_recommender/recommendation_engine/tfidf.py:34-37 | one text per candidate, text k being the positive (or negative) sentiment of a summary row of candidate k that has both |
| SummaryRecommender.TextsFromOneRow | product_recommender/recommendation_engine/tfidf.py:34-37 | the positive and the negative text of candidate k are the two sentiments of one and the same summary row of that candidate |
| SummaryRecommender.CombinedScores | product_recommender/recommendation_engine/tfidf.py:51 | one score per candidate; twice the score is the sum of the two, so it is their mean and lies between them |
| SummaryRecommender.SummaryScores | product_recommender/recommendation_engine/tfidf.py:40-51 | one score per candidate, score i the mean of candidate i's positive-text similarity to the target's positive text and its negative-text similarity to the target's negative text |
| SummaryRecommender.SummaryRecommendations | product_recommender/recommendation_engine/tfidf.py:24-58 | fails on an empty candidate list and, only then with candidates, on a target without both sentiments; otherwise min(candidates, 10) products, each a candidate |
| SummaryRecommender.SummaryRecommendationsAreTop | product_recommender/recommendation_engine/tfidf.py:54-58 | a ranking is the candidates at a top-10 selection of the combined scores, best first, with no duplicates under a unique key |
| PopulateProducts.Classify | product_recommender/management/commands/populate_products.py:30-56 | an item is skipped exactly when it has no title but has an ASIN; without either, the KeyError leaves it uncounted; a titled item is written exactly when it is in Home & Kitchen and every NOT NULL column gets a value, as the product those fields make |
| PopulateProducts.UpsertAll | product_recommender/management/commands/populate_products.py:29-52 | the table after the loop keeps at least its rows and gains at most one row per processed item |
| PopulateProducts.Processed | product_recommender/management/commands/populate_products.py:43-52 | processed_count never exceeds the number of items |
| PopulateProducts.SkippedCount | product_recommender/management/commands/populate_products.py:31-34 | skip_count never exceeds the number of items |
| PopulateProducts.ZeroCounts | product_recommender/management/commands/populate_products.py:31-52 | processed_count is 0 exactly when no item is written, and skip_count exactly when none is skipped |
| PopulateProducts.LastWrite | product_recommender/management/commands/populate_products.py:40-50 | the product last written for an ASIN carries that ASIN |
| PopulateProducts.CountsBounded | product_recommender/management/commands/populate_products.py:31-52 | processed_count + skip_count never exceeds the number of items |
| PopulateProducts.LastWriteWins | product_recommender/management/commands/populate_products.py:43-50 | after the loop each ASIN looks up the last product written for it, or its old row if none was written |
| PopulateProducts.UpsertAllUnique | product_recommender/management/commands/populate_products.py:43-50 | the ASIN stays a unique key |
| PopulateProducts.UpsertAllIds | product_recommender/management/commands/populate_products.py:43-50 | an ASIN is in the table afterwards exactly when it was before or was written |
| PopulateProducts.UpsertAllInPlace | product_recommender/management/commands/populate_products.py:43-50 | when every written ASIN already exists, the rows are overwritten in place and none is added |
| PopulateProducts.Idempotent | product_recommender/management/commands/populate_products.py:43-50 | a second run on the same items leaves the table the first run left |
| PopulateProducts.ProcessedCanExceedRows | product_recommender/management/commands/populate_products.py:52 | two items with the same ASIN count twice as processed but leave one row |
| PopulateProducts.PopulateProducts | product_recommender/management/commands/populate_products.py:25-56 | the Product table becomes the upserts of the written items; the other tables are unchanged; the counters are the processed and skipped counts |
| PopulateReviews.Truncate | product_recommender/management/commands/populate_reviews.py:35 | Python's int() on a number: the integer next to x toward zero |
| PopulateReviews.RowFor | product_recommender/management/commands/populate_reviews.py:30-38 | a row exists exactly when unixReviewTime is a value and reviewerName and overall are not null; review_id and created_at_unix are both unixReviewTime; the username defaults to "default user" and the score to 1 when absent |
| PopulateReviews.Created | product_recommender/management/commands/populate_reviews.py:26-38 | a row is created only for a record whose ASIN is in the snapshot, and then it is the record's row |
| PopulateReviews.NewReviews | product_recommender/management/commands/populate_reviews.py:24-39 | at most one row per record, each of a product in the snapshot, with created_at_unix equal to review_id |
| PopulateReviews.UnknownRecordsIgnored | product_recommender/management/commands/populate_reviews.py:29 | records whose ASIN is not in the snapshot create nothing |
| PopulateReviews.KnownRecordsCreated | product_recommender/management/commands/populate_reviews.py:29-39 | when every record creates a row, the i-th new row comes from the i-th record |
| PopulateReviews.ProcessRecord | product_recommender/management/commands/populate_reviews.py:22-39 | one pass of the loop body appends the row the record creates, if any, reports whether it did, and changes no other table |
| PopulateReviews.PopulateReviews | product_recommender/management/commands/populate_reviews.py:20-39 | the Review table gains exactly the new rows, appended in record order against the ASINs read before the loop; processed_count is their number; no other table changes |
| PopulateReviews.PopulateReviewsTwice | product_recommender/management/commands/populate_reviews.py:30 | a second run appends the same rows again: reviews are created, not upserted |
| PruneProducts.Prune | product_recommender/management/commands/remove_products_with_zero_reviews.py:9-14 | every remaining product has a review; a product stays exactly when it has one; reviews are unchanged; summaries, feedback and performance rows of deleted products are gone and the rest stay |
| PruneProducts.PruneIdempotent | product_recommender/management/commands/remove_products_with_zero_reviews.py:13-14 | after one run no product lacks a review, so a second run deletes nothing and changes nothing |
| PruneProducts.RemoveProductsWithZeroReviews | product_recommender/management/commands/remove_products_with_zero_reviews.py:7-14 | the database becomes the pruned tables; deleted_count is the number of rows removed, cascaded rows included |
| CleanMetadata.Step | product_recommender/management/commands/clean_metadata_and_write_new_file.py:26-39 | a line eval rejects changes nothing; a parsed line clears first_line and only appends, and after the first parsed line the appended text starts with ",\n" whether or not json.dumps succeeds |
| CleanMetadata.Run | product_recommender/management/commands/clean_metadata_and_write_new_file.py:24-39 | while first_line is set nothing has been written |
| CleanMetadata.Output | product_recommender/management/commands/clean_metadata_and_write_new_file.py:22-41 | the file starts with `[` and ends with `]` |
| CleanMetadata.CleanMetadataAndWrite | product_recommender/management/commands/clean_metadata_and_write_new_file.py:21-41 | the loop with the first_line flag writes exactly the specified output |
| CleanMetadata.FirstLineUntilParsed | product_recommender/management/commands/clean_metadata_and_write_new_file.py:24-33 | first_line stays set exactly until a line parses, and nothing is written before that |
| CleanMetadata.NothingParsed | product_recommender/management/commands/clean_metadata_and_write_new_file.py:22-41 | with no line parsed the file is exactly `[]` |
| CleanMetadata.ParsedNone | product_recommender/management/commands/clean_metadata_and_write_new_file.py:26-39 | when eval fails on every line, no object is produced |
| CleanMetadata.FailedEvalWritesNothing | product_recommender/management/commands/clean_metadata_and_write_new_file.py:26-39 | a line whose eval fails writes nothing, leaves first_line as it was and yields no object |
| CleanMetadata.DumpedWhenDumpsSucceed | product_recommender/management/commands/clean_metadata_and_write_new_file.py:28-36 | when json.dumps never fails, exactly one serialisation per parsed line, the k-th being json.dumps of the k-th parsed object |
| CleanMetadata.ArrayWhenDumpsSucceed | product_recommender/management/commands/clean_metadata_and_write_new_file.py:22-41 | when json.dumps never fails, the file is `[`, the serialisations in input order separated by ",\n" with none before the first, then `]` |
| CleanMetadata.RunExtends | product_recommender/management/commands/clean_metadata_and_write_new_file.py:25-36 | the file only grows: the text written after some lines is a prefix of the final text |
| CleanMetadata.DanglingSeparator | product_recommender/management/commands/clean_metadata_and_write_new_file.py:31-36 | if the first parsed object fails json.dumps and the next line parses, the file begins `[,`, which no JSON array of values does |
| CleanMetadata.FixedIsArray | product_recommender/management/commands/clean_metadata_and_write_new_file.py:31-36 | with the separator written only after json.dumps succeeds, the file is always the JSON array of the serialised objects in input order |

## Left out

- Reading files, gzip, ijson streaming, `print`, `self.stdout`/`self.stderr`, logging and progress bars: the model takes the items, records and lines as sequences.
- The FileNotFoundError and generic exception handlers around the whole of clean_metadata_and_write_new_file (lines 45-48): these only report I/O failures.
- TF-IDF vectorising and cosine similarity (sklearn, floating point): scores are a parameter function of the corpus. sklearn errors other than fitting an empty corpus are not modelled. In the review recommender the corpus is never empty. A corpus made only of stop words is not modelled either.
- numpy's tie order in `argsort`/`argpartition` is unspecified. The model picks descending score, then lower index, and every lemma about the results states only what holds whatever the tie order (`IsTopSelection`).
- `ReviewRecommender.ReviewSample`, `ReviewRecommender.FirstAppearance`, `ReviewRecommender.RankByReviewCount`, `SummaryRecommender.Candidates`: no model declares `Meta.ordering` and no query has `order_by`, so the database may return rows in any order. The model takes storage order. With another order, other reviews can fall under the cap of 50 000 (tfidf_reviews.py line 78), ties in review count at the cut of 5000 (lines 90-94) are broken differently, and the candidates of tfidf.py lines 27-31 are listed differently.
- `ReviewRecommender.Fallback`: the fallback order depends on the database's unspecified row order. The model uses table order, and the contract states only bounds and membership.
- The first definition of tfidf_recommendations_from_reviews (tfidf_reviews.py lines 16-20) is shadowed by the second and is not part of this model.
- The module-level example call in tfidf.py (lines 61-62) and the module-level vectorisers it reuses (lines 9-10).
- `SummaryRecommender.SentimentsOf`: `product.summary` in tfidf.py is a reverse foreign-key manager (models.py line 26), not one row, so the code as written fails there. Rather than the failure, the model follows the evidently intended one summary per product: the first summary row with both sentiments.
- `SummaryRecommender.Candidates`: under the same one-summary-per-product reading, each candidate is listed once. The join on tfidf.py lines 27-30 has no `distinct()`, so it would list a product once per summary row with both sentiments.
- `SummaryRecommender.SummaryRecommendations`: every missing target sentiment is one error (`NoTargetSentiments`). The source would fail at line 41 or at line 44, after the positive vectoriser was fitted; which line is not modelled.
- `ReviewRecommender.Fetched`: the dictionary of line 131 keeps the last product per id. Under the unique primary key this is the one row, which is what the model looks up.
- views.py and urls.py: HTTP handling and `random.choice`.
- The LLM summary commands: generate_ai_summaries*.py and testing_proof.py.
- Price quantisation to two decimal places, CharField length limits, and the `choices` of review_score: Django does not enforce these on `create`/`update_or_create`. The model keeps prices as reals and scores as integers.
- Python values in the JSON records are typed per field (a string ASIN, a real price, and so on). Values of another type, which would raise in `int()` or in the database, are not modelled.
- The stale migration and product_recommender/product_recommender/models.py, whose integer product_id the application does not use.

## Findings

| source | as written | input that shows it | evidently intended | confidence | as-written member | corrected member |
|---|---|---|---|---|---|---|
| product_recommender/management/commands/clean_metadata_and_write_new_file.py:31-36 | the separator is written and first_line cleared before `json.dumps`, so a failure in `json.dumps` leaves ",\n" with no value after it | a first line that `eval` accepts but `json.dumps` rejects (a set, for instance), followed by any parsable line: the file begins `[,` | a valid JSON array of the objects that could be serialised | not executed | CleanMetadata.DanglingSeparator | CleanMetadata.FixedIsArray |
