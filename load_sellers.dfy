/** db/etl/load_sellers.py: olist_sellers_dataset.csv into sellers. */
module LoadSellers {
  import opened Wrappers
  import opened PyText
  import opened Sql
  import opened EtlUtils
  import opened EtlCommon

  /** One yielded tuple (seller_id, zip, city, state). */
  datatype Seller = Seller(sellerId: string, zip: Option<int>, city: Option<string>, state: Option<string>)

  /** The INSERT column list, in order. */
  const Columns: seq<string> := ["seller_id", "seller_zip_code_prefix", "seller_city", "seller_state"]

  /** The parameter tuple executemany binds to VALUES (%s,%s,%s,%s). */
  function Params(s: Seller): (ps: seq<SqlValue>)
    ensures |ps| == |Columns|
  {
    [Text(s.sellerId), OfInt(s.zip), OfText(s.city), OfText(s.state)]
  }

  /** One pass of gen_rows: a blank seller_id skips the record. */
  function RowOf(rec: RawRecord): (r: Option<Seller>)
    ensures r.None? <==> Key(rec, "seller_id") == ""
    ensures r.Some? ==> r.value.sellerId == Key(rec, "seller_id") != ""
    ensures r.Some? ==> r.value.zip == ToInt(Get(rec, "seller_zip_code_prefix"))
    ensures r.Some? ==> r.value.city == Cell(rec, "seller_city") && r.value.state == Cell(rec, "seller_state")
  {
    var sid := Key(rec, "seller_id");
    if sid == "" then None
    else Some(Seller(sid, ToInt(Get(rec, "seller_zip_code_prefix")), Cell(rec, "seller_city"), Cell(rec, "seller_state")))
  }

  /** The tuple's value for a named column. */
  function Field(s: Seller, column: string): Option<SqlValue> {
    if column == "seller_id" then Some(Text(s.sellerId))
    else if column == "seller_zip_code_prefix" then Some(OfInt(s.zip))
    else if column == "seller_city" then Some(OfText(s.city))
    else if column == "seller_state" then Some(OfText(s.state))
    else None
  }

  /** Position i of the tuple carries the value of the i-th INSERT column. */
  lemma ParamsInColumnOrder(s: Seller)
    ensures forall i :: 0 <= i < |Columns| ==> Field(s, Columns[i]) == Some(Params(s)[i])
  {
  }

  function Rows(reader: seq<RawRecord>): seq<Seller> {
    FilterMap(reader, RowOf)
  }

  /** load_sellers: the batches executemany receives and the printed total. */
  method Load(reader: seq<RawRecord>) returns (executed: seq<seq<Seller>>, total: int)
    ensures executed == Batches(Rows(reader), BATCH_SIZE)
    ensures Flatten(executed) == Rows(reader)
    ensures total == |Rows(reader)|
    ensures forall s :: s in Flatten(executed) ==> s.sellerId != ""
  {
    executed, total := RunLoader(reader, RowOf);
    FilterMapSound(reader, RowOf);
  }

  /** The conflict key of ON CONFLICT (seller_id) DO NOTHING. */
  function KeyOf(s: Seller): string { s.sellerId }

  /** A load never replaces a seller already present, and reloading the file changes nothing. */
  lemma ReloadUnchangedSellers(table: map<string, Seller>, reader: seq<RawRecord>)
    ensures var once := InsertBatches(table, Batches(Rows(reader), BATCH_SIZE), KeyOf);
            && (forall k :: k in table ==> k in once && once[k] == table[k])
            && InsertBatches(once, Batches(Rows(reader), BATCH_SIZE), KeyOf) == once
  {
    ReloadUnchanged(table, reader, RowOf, KeyOf);
  }
}
