/** db/etl/load_order_items.py: olist_order_items_dataset.csv into order_items. */
module LoadOrderItems {
  import opened Wrappers
  import opened PyText
  import opened Sql
  import opened EtlUtils
  import opened EtlCommon

  /** One yielded tuple (order_id, order_item_id, product_id, seller_id, shipping_limit_date, price, freight_value). */
  datatype OrderItem = OrderItem(
    orderId: string,
    itemId: int,
    productId: Option<string>,
    sellerId: Option<string>,
    shippingLimit: Option<string>,
    price: Option<real>,
    freight: Option<real>)

  /** The INSERT column list, in order. */
  const Columns: seq<string> :=
    ["order_id", "order_item_id", "product_id", "seller_id", "shipping_limit_date", "price", "freight_value"]

  /** The parameter tuple executemany binds to VALUES (%s,%s,%s,%s,%s,%s,%s). */
  function Params(o: OrderItem): (ps: seq<SqlValue>)
    ensures |ps| == |Columns|
  {
    [Text(o.orderId), Int(o.itemId), OfText(o.productId), OfText(o.sellerId), OfText(o.shippingLimit),
     OfReal(o.price), OfReal(o.freight)]
  }

  /**
   * One pass of gen_rows: a blank order_id skips the record, and so does
   * an order_item_id that to_int rejects, even when order_id is present.
   */
  function RowOf(rec: RawRecord): (r: Option<OrderItem>)
    ensures r.Some? <==> Key(rec, "order_id") != "" && ToInt(Get(rec, "order_item_id")).Some?
    ensures r.Some? ==> r.value.orderId == Key(rec, "order_id") && Some(r.value.itemId) == ToInt(Get(rec, "order_item_id"))
    ensures r.Some? ==> r.value.productId == Cell(rec, "product_id") && r.value.sellerId == Cell(rec, "seller_id")
    ensures r.Some? ==> r.value.shippingLimit == Cell(rec, "shipping_limit_date")
    ensures r.Some? ==> r.value.price == ToFloat(Get(rec, "price")) && r.value.freight == ToFloat(Get(rec, "freight_value"))
  {
    var oid := Key(rec, "order_id");
    if oid == "" then None
    else
      var itemId := ToInt(Get(rec, "order_item_id"));
      var pid := Cell(rec, "product_id");
      var sid := Cell(rec, "seller_id");
      var ship := Cell(rec, "shipping_limit_date");
      var price := ToFloat(Get(rec, "price"));
      var freight := ToFloat(Get(rec, "freight_value"));
      if itemId.None? then None
      else Some(OrderItem(oid, itemId.value, pid, sid, ship, price, freight))
  }

  /** An item number that is not an integer drops the row whatever else it holds. */
  lemma BadItemIdDropped(rec: RawRecord)
    requires "order_item_id" in rec && !IsIntLiteral(Strip(rec["order_item_id"]))
    ensures RowOf(rec).None?
  {
  }

  /** The tuple's value for a named column. */
  function Field(o: OrderItem, column: string): Option<SqlValue> {
    if column == "order_id" then Some(Text(o.orderId))
    else if column == "order_item_id" then Some(Int(o.itemId))
    else if column == "product_id" then Some(OfText(o.productId))
    else if column == "seller_id" then Some(OfText(o.sellerId))
    else if column == "shipping_limit_date" then Some(OfText(o.shippingLimit))
    else if column == "price" then Some(OfReal(o.price))
    else if column == "freight_value" then Some(OfReal(o.freight))
    else None
  }

  /** Position i of the tuple carries the value of the i-th INSERT column. */
  lemma ParamsInColumnOrder(o: OrderItem)
    ensures forall i :: 0 <= i < |Columns| ==> Field(o, Columns[i]) == Some(Params(o)[i])
  {
  }

  function Rows(reader: seq<RawRecord>): seq<OrderItem> {
    FilterMap(reader, RowOf)
  }

  /** load_order_items: the batches executemany receives and the printed total. */
  method Load(reader: seq<RawRecord>) returns (executed: seq<seq<OrderItem>>, total: int)
    ensures executed == Batches(Rows(reader), BATCH_SIZE)
    ensures Flatten(executed) == Rows(reader)
    ensures total == |Rows(reader)|
    ensures forall o :: o in Flatten(executed) ==> o.orderId != ""
  {
    executed, total := RunLoader(reader, RowOf);
    FilterMapSound(reader, RowOf);
  }

  /** The conflict key of ON CONFLICT (order_id, order_item_id) DO NOTHING. */
  function KeyOf(o: OrderItem): (string, int) { (o.orderId, o.itemId) }

  /** A load never replaces an item already present, and reloading the file changes nothing. */
  lemma ReloadUnchangedOrderItems(table: map<(string, int), OrderItem>, reader: seq<RawRecord>)
    ensures var once := InsertBatches(table, Batches(Rows(reader), BATCH_SIZE), KeyOf);
            && (forall k :: k in table ==> k in once && once[k] == table[k])
            && InsertBatches(once, Batches(Rows(reader), BATCH_SIZE), KeyOf) == once
  {
    ReloadUnchanged(table, reader, RowOf, KeyOf);
  }
}
