/**
 * db/etl/load_orders.py: olist_orders_dataset.csv into orders. The two
 * timestamps are passed through as trimmed text; nothing parses them.
 */
module LoadOrders {
  import opened Wrappers
  import opened PyText
  import opened Sql
  import opened EtlUtils
  import opened EtlCommon

  /** One yielded tuple (order_id, customer_id, status, purchase timestamp, estimated delivery date). */
  datatype Order = Order(
    orderId: string,
    customerId: Option<string>,
    status: Option<string>,
    purchaseTimestamp: Option<string>,
    estimatedDelivery: Option<string>)

  /** The INSERT column list, in order. */
  const Columns: seq<string> :=
    ["order_id", "customer_id", "order_status", "order_purchase_timestamp", "order_estimated_delivery_date"]

  /** The parameter tuple executemany binds to VALUES (%s,%s,%s,%s,%s). */
  function Params(o: Order): (ps: seq<SqlValue>)
    ensures |ps| == |Columns|
  {
    [Text(o.orderId), OfText(o.customerId), OfText(o.status), OfText(o.purchaseTimestamp), OfText(o.estimatedDelivery)]
  }

  /** One pass of gen_rows: a blank order_id skips the record; every other cell is trimmed text or None. */
  function RowOf(rec: RawRecord): (r: Option<Order>)
    ensures r.None? <==> Key(rec, "order_id") == ""
    ensures r.Some? ==> r.value.orderId == Key(rec, "order_id") != ""
    ensures r.Some? ==> r.value.customerId == Cell(rec, "customer_id") && r.value.status == Cell(rec, "order_status")
    ensures r.Some? ==> r.value.purchaseTimestamp == Cell(rec, "order_purchase_timestamp")
    ensures r.Some? ==> r.value.estimatedDelivery == Cell(rec, "order_estimated_delivery_date")
  {
    var oid := Key(rec, "order_id");
    if oid == "" then None
    else Some(Order(oid, Cell(rec, "customer_id"), Cell(rec, "order_status"),
                    Cell(rec, "order_purchase_timestamp"), Cell(rec, "order_estimated_delivery_date")))
  }

  /** Timestamps are not parsed: a present, already trimmed timestamp reaches the tuple verbatim. */
  lemma TimestampVerbatim(rec: RawRecord)
    requires Key(rec, "order_id") != ""
    requires "order_purchase_timestamp" in rec && rec["order_purchase_timestamp"] != ""
    requires IsStripped(rec["order_purchase_timestamp"])
    ensures RowOf(rec).value.purchaseTimestamp == Some(rec["order_purchase_timestamp"])
  {
    CellOfStripped(rec, "order_purchase_timestamp");
  }

  /** The tuple's value for a named column. */
  function Field(o: Order, column: string): Option<SqlValue> {
    if column == "order_id" then Some(Text(o.orderId))
    else if column == "customer_id" then Some(OfText(o.customerId))
    else if column == "order_status" then Some(OfText(o.status))
    else if column == "order_purchase_timestamp" then Some(OfText(o.purchaseTimestamp))
    else if column == "order_estimated_delivery_date" then Some(OfText(o.estimatedDelivery))
    else None
  }

  /** Position i of the tuple carries the value of the i-th INSERT column. */
  lemma ParamsInColumnOrder(o: Order)
    ensures forall i :: 0 <= i < |Columns| ==> Field(o, Columns[i]) == Some(Params(o)[i])
  {
  }

  function Rows(reader: seq<RawRecord>): seq<Order> {
    FilterMap(reader, RowOf)
  }

  /** load_orders: the batches executemany receives and the printed total. */
  method Load(reader: seq<RawRecord>) returns (executed: seq<seq<Order>>, total: int)
    ensures executed == Batches(Rows(reader), BATCH_SIZE)
    ensures Flatten(executed) == Rows(reader)
    ensures total == |Rows(reader)|
    ensures forall o :: o in Flatten(executed) ==> o.orderId != ""
  {
    executed, total := RunLoader(reader, RowOf);
    FilterMapSound(reader, RowOf);
  }

  /** The conflict key of ON CONFLICT (order_id) DO NOTHING. */
  function KeyOf(o: Order): string { o.orderId }

  /** A load never replaces an order already present, and reloading the file changes nothing. */
  lemma ReloadUnchangedOrders(table: map<string, Order>, reader: seq<RawRecord>)
    ensures var once := InsertBatches(table, Batches(Rows(reader), BATCH_SIZE), KeyOf);
            && (forall k :: k in table ==> k in once && once[k] == table[k])
            && InsertBatches(once, Batches(Rows(reader), BATCH_SIZE), KeyOf) == once
  {
    ReloadUnchanged(table, reader, RowOf, KeyOf);
  }
}
