/**
 * db/etl/load_payments.py: olist_order_payments_dataset.csv into
 * order_payments with INSERT IGNORE, which skips a row that collides with
 * any unique key the table declares. The table's DDL is not part of this
 * model, so the reload property takes that key as a parameter.
 */
module LoadPayments {
  import opened Wrappers
  import opened PyText
  import opened Sql
  import opened EtlUtils
  import opened EtlCommon

  /** One yielded tuple (order_id, payment_sequential, payment_type, installments, value). */
  datatype Payment = Payment(
    orderId: string,
    sequential: int,
    paymentType: Option<string>,
    installments: Option<int>,
    value: Option<real>)

  /** The INSERT column list, in order. */
  const Columns: seq<string> :=
    ["order_id", "payment_sequential", "payment_type", "payment_installments", "payment_value"]

  /** The parameter tuple executemany binds to VALUES (%s,%s,%s,%s,%s). */
  function Params(p: Payment): (ps: seq<SqlValue>)
    ensures |ps| == |Columns|
  {
    [Text(p.orderId), Int(p.sequential), OfText(p.paymentType), OfInt(p.installments), OfReal(p.value)]
  }

  /**
   * One pass of gen_rows: a blank order_id skips the record, and so does a
   * payment_sequential that to_int rejects.
   */
  function RowOf(rec: RawRecord): (r: Option<Payment>)
    ensures r.Some? <==> Key(rec, "order_id") != "" && ToInt(Get(rec, "payment_sequential")).Some?
    ensures r.Some? ==> r.value.orderId == Key(rec, "order_id") && Some(r.value.sequential) == ToInt(Get(rec, "payment_sequential"))
    ensures r.Some? ==> r.value.paymentType == Cell(rec, "payment_type")
    ensures r.Some? ==> r.value.installments == ToInt(Get(rec, "payment_installments"))
    ensures r.Some? ==> r.value.value == ToFloat(Get(rec, "payment_value"))
  {
    var oid := Key(rec, "order_id");
    if oid == "" then None
    else
      var sequential := ToInt(Get(rec, "payment_sequential"));
      var ptype := Cell(rec, "payment_type");
      var inst := ToInt(Get(rec, "payment_installments"));
      var val := ToFloat(Get(rec, "payment_value"));
      if sequential.None? then None
      else Some(Payment(oid, sequential.value, ptype, inst, val))
  }

  /** The tuple's value for a named column. */
  function Field(p: Payment, column: string): Option<SqlValue> {
    if column == "order_id" then Some(Text(p.orderId))
    else if column == "payment_sequential" then Some(Int(p.sequential))
    else if column == "payment_type" then Some(OfText(p.paymentType))
    else if column == "payment_installments" then Some(OfInt(p.installments))
    else if column == "payment_value" then Some(OfReal(p.value))
    else None
  }

  /** Position i of the tuple carries the value of the i-th INSERT column. */
  lemma ParamsInColumnOrder(p: Payment)
    ensures forall i :: 0 <= i < |Columns| ==> Field(p, Columns[i]) == Some(Params(p)[i])
  {
  }

  function Rows(reader: seq<RawRecord>): seq<Payment> {
    FilterMap(reader, RowOf)
  }

  /** load_payments: the batches executemany receives and the printed total. */
  method Load(reader: seq<RawRecord>) returns (executed: seq<seq<Payment>>, total: int)
    ensures executed == Batches(Rows(reader), BATCH_SIZE)
    ensures Flatten(executed) == Rows(reader)
    ensures total == |Rows(reader)|
    ensures forall p :: p in Flatten(executed) ==> p.orderId != ""
  {
    executed, total := RunLoader(reader, RowOf);
    FilterMapSound(reader, RowOf);
  }

  /** Under INSERT IGNORE on the table's unique key, reloading the file changes nothing. */
  lemma ReloadUnchangedPayments<K>(table: map<K, Payment>, reader: seq<RawRecord>, uniqueKey: Payment -> K)
    ensures var once := InsertBatches(table, Batches(Rows(reader), BATCH_SIZE), uniqueKey);
            && (forall k :: k in table ==> k in once && once[k] == table[k])
            && InsertBatches(once, Batches(Rows(reader), BATCH_SIZE), uniqueKey) == once
  {
    ReloadUnchanged(table, reader, RowOf, uniqueKey);
  }
}
