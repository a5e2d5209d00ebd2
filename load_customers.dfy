/** db/etl/load_customers.py: olist_customers_dataset.csv into customers. */
module LoadCustomers {
  import opened Wrappers
  import opened PyText
  import opened Sql
  import opened EtlUtils
  import opened EtlCommon

  /** One yielded tuple (customer_id, unique_id, zip, city, state). */
  datatype Customer = Customer(
    customerId: string,
    uniqueId: Option<string>,
    zip: Option<int>,
    city: Option<string>,
    state: Option<string>)

  /** The INSERT column list, in order. */
  const Columns: seq<string> :=
    ["customer_id", "customer_unique_id", "customer_zip_code_prefix", "customer_city", "customer_state"]

  /** The parameter tuple executemany binds to VALUES (%s,%s,%s,%s,%s). */
  function Params(c: Customer): (ps: seq<SqlValue>)
    ensures |ps| == |Columns|
  {
    [Text(c.customerId), OfText(c.uniqueId), OfInt(c.zip), OfText(c.city), OfText(c.state)]
  }

  /** One pass of gen_rows: a blank customer_id skips the record. */
  function RowOf(rec: RawRecord): (r: Option<Customer>)
    ensures r.None? <==> Key(rec, "customer_id") == ""
    ensures r.Some? ==> r.value.customerId == Key(rec, "customer_id") != ""
    ensures r.Some? ==> r.value.uniqueId == Cell(rec, "customer_unique_id")
    ensures r.Some? ==> r.value.zip == ToInt(Get(rec, "customer_zip_code_prefix"))
    ensures r.Some? ==> r.value.city == Cell(rec, "customer_city") && r.value.state == Cell(rec, "customer_state")
  {
    var cid := Key(rec, "customer_id");
    if cid == "" then None
    else Some(Customer(cid, Cell(rec, "customer_unique_id"), ToInt(Get(rec, "customer_zip_code_prefix")),
                       Cell(rec, "customer_city"), Cell(rec, "customer_state")))
  }

  /** The tuple's value for a named column: the field gen_rows fills from the CSV column of that name. */
  function Field(c: Customer, column: string): Option<SqlValue> {
    if column == "customer_id" then Some(Text(c.customerId))
    else if column == "customer_unique_id" then Some(OfText(c.uniqueId))
    else if column == "customer_zip_code_prefix" then Some(OfInt(c.zip))
    else if column == "customer_city" then Some(OfText(c.city))
    else if column == "customer_state" then Some(OfText(c.state))
    else None
  }

  /** Position i of the tuple carries the value of the i-th INSERT column. */
  lemma ParamsInColumnOrder(c: Customer)
    ensures forall i :: 0 <= i < |Columns| ==> Field(c, Columns[i]) == Some(Params(c)[i])
  {
  }

  function Rows(reader: seq<RawRecord>): seq<Customer> {
    FilterMap(reader, RowOf)
  }

  /** load_customers: the batches executemany receives and the printed total. */
  method Load(reader: seq<RawRecord>) returns (executed: seq<seq<Customer>>, total: int)
    ensures executed == Batches(Rows(reader), BATCH_SIZE)
    ensures Flatten(executed) == Rows(reader)
    ensures total == |Rows(reader)|
    ensures forall c :: c in Flatten(executed) ==> c.customerId != ""
  {
    executed, total := RunLoader(reader, RowOf);
    FilterMapSound(reader, RowOf);
  }

  /** The conflict key of ON CONFLICT (customer_id) DO NOTHING. */
  function KeyOf(c: Customer): string { c.customerId }

  /**
   * A load never replaces a customer already in the table, and a second
   * load of the same file leaves the table as the first left it.
   */
  lemma ReloadUnchangedCustomers(table: map<string, Customer>, reader: seq<RawRecord>)
    ensures var once := InsertBatches(table, Batches(Rows(reader), BATCH_SIZE), KeyOf);
            && (forall k :: k in table ==> k in once && once[k] == table[k])
            && InsertBatches(once, Batches(Rows(reader), BATCH_SIZE), KeyOf) == once
  {
    ReloadUnchanged(table, reader, RowOf, KeyOf);
  }
}
