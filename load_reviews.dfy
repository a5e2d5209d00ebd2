/**
 * db/etl/load_reviews.py: olist_order_reviews_dataset.csv into
 * order_reviews with INSERT IGNORE, then the customer_id back-fill and the
 * decision whether to tighten customer_id to NOT NULL. The UPDATE and the
 * orphan count are the database's; the count is an input here.
 */
module LoadReviews {
  import opened Wrappers
  import opened PyText
  import opened Sql
  import opened EtlUtils
  import opened EtlCommon

  /** One yielded tuple (review_id, order_id, score, comment, creation date); customer_id is not inserted. */
  datatype Review = Review(
    reviewId: string,
    orderId: Option<string>,
    score: Option<int>,
    comment: Option<string>,
    created: Option<string>)

  /** The INSERT column list, in order. */
  const Columns: seq<string> :=
    ["review_id", "order_id", "review_score", "review_comment_message", "review_creation_date"]

  /** The parameter tuple executemany binds to VALUES (%s,%s,%s,%s,%s). */
  function Params(r: Review): (ps: seq<SqlValue>)
    ensures |ps| == |Columns|
  {
    [Text(r.reviewId), OfText(r.orderId), OfInt(r.score), OfText(r.comment), OfText(r.created)]
  }

  /** msg = row.get(...); if msg is not None: msg = msg.strip() or None */
  function Comment(msg: Option<string>): (r: Option<string>)
    ensures msg.None? ==> r.None?
    ensures msg.Some? ==> r == (if Strip(msg.value) == "" then None else Some(Strip(msg.value)))
  {
    if msg.None? then None
    else
      var m := Strip(msg.value);
      if m == "" then None else Some(m)
  }

  /** The comment's own None-check comes to the same as the other cells' `or ''` idiom. */
  lemma CommentIsCell(rec: RawRecord)
    ensures Comment(Get(rec, "review_comment_message")) == Cell(rec, "review_comment_message")
  {
  }

  /** One pass of gen_rows: a blank review_id skips the record. */
  function RowOf(rec: RawRecord): (r: Option<Review>)
    ensures r.None? <==> Key(rec, "review_id") == ""
    ensures r.Some? ==> r.value.reviewId == Key(rec, "review_id") != ""
    ensures r.Some? ==> r.value.orderId == Cell(rec, "order_id") && r.value.score == ToInt(Get(rec, "review_score"))
    ensures r.Some? ==> r.value.comment == Comment(Get(rec, "review_comment_message"))
    ensures r.Some? ==> r.value.created == Cell(rec, "review_creation_date")
  {
    var rid := Key(rec, "review_id");
    if rid == "" then None
    else Some(Review(rid, Cell(rec, "order_id"), ToInt(Get(rec, "review_score")),
                     Comment(Get(rec, "review_comment_message")), Cell(rec, "review_creation_date")))
  }

  /** The tuple's value for a named column. */
  function Field(r: Review, column: string): Option<SqlValue> {
    if column == "review_id" then Some(Text(r.reviewId))
    else if column == "order_id" then Some(OfText(r.orderId))
    else if column == "review_score" then Some(OfInt(r.score))
    else if column == "review_comment_message" then Some(OfText(r.comment))
    else if column == "review_creation_date" then Some(OfText(r.created))
    else None
  }

  /** Position i of the tuple carries the value of the i-th INSERT column; customer_id is none of them. */
  lemma ParamsInColumnOrder(r: Review)
    ensures forall i :: 0 <= i < |Columns| ==> Field(r, Columns[i]) == Some(Params(r)[i])
    ensures "customer_id" !in Columns
  {
  }

  function Rows(reader: seq<RawRecord>): seq<Review> {
    FilterMap(reader, RowOf)
  }

  /** The statements load_reviews sends after the inserts. */
  datatype PostLoad = PostLoad(backfill: bool, tightenNotNull: bool)

  /**
   * load_reviews: the insert batches, the printed total, then the UPDATE
   * back-fill (always) and the NOT NULL ALTER, which runs exactly when the
   * count of reviews still without customer_id is 0.
   */
  method Load(reader: seq<RawRecord>, orphans: int) returns (executed: seq<seq<Review>>, total: int, post: PostLoad)
    ensures executed == Batches(Rows(reader), BATCH_SIZE)
    ensures Flatten(executed) == Rows(reader)
    ensures total == |Rows(reader)|
    ensures forall r :: r in Flatten(executed) ==> r.reviewId != ""
    ensures post.backfill
    ensures post.tightenNotNull <==> orphans == 0
  {
    executed, total := RunLoader(reader, RowOf);
    FilterMapSound(reader, RowOf);
    var tighten := false;
    if orphans == 0 {
      tighten := true;
    }
    post := PostLoad(true, tighten);
  }

  /** Under INSERT IGNORE on the table's unique key, reloading the file changes nothing. */
  lemma ReloadUnchangedReviews<K>(table: map<K, Review>, reader: seq<RawRecord>, uniqueKey: Review -> K)
    ensures var once := InsertBatches(table, Batches(Rows(reader), BATCH_SIZE), uniqueKey);
            && (forall k :: k in table ==> k in once && once[k] == table[k])
            && InsertBatches(once, Batches(Rows(reader), BATCH_SIZE), uniqueKey) == once
  {
    ReloadUnchanged(table, reader, RowOf, uniqueKey);
  }
}
