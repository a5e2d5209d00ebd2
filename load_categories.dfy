/** db/etl/load_categories.py: product_category_name_translation.csv into categories. */
module LoadCategories {
  import opened Wrappers
  import opened PyText
  import opened Sql
  import opened EtlUtils
  import opened EtlCommon

  /** One yielded pair (category_name, category_name_english). */
  datatype Category = Category(name: string, nameEnglish: Option<string>)

  /** The INSERT column list, in order. */
  const Columns: seq<string> := ["category_name", "category_name_english"]

  /** The parameter tuple executemany binds to VALUES (%s, %s). */
  function Params(c: Category): (ps: seq<SqlValue>)
    ensures |ps| == |Columns|
  {
    [Text(c.name), OfText(c.nameEnglish)]
  }

  /**
   * One pass of gen_rows: `name` is the trimmed product_category_name or
   * None, and `if not name: continue` skips the record.
   */
  function RowOf(rec: RawRecord): (r: Option<Category>)
    ensures r.None? <==> Cell(rec, "product_category_name").None?
    ensures r.Some? ==> Some(r.value.name) == Cell(rec, "product_category_name")
    ensures r.Some? ==> r.value.nameEnglish == Cell(rec, "product_category_name_english")
  {
    var name := Cell(rec, "product_category_name");
    var nameEn := Cell(rec, "product_category_name_english");
    if name.None? then None else Some(Category(name.value, nameEn))
  }

  /** A record is skipped exactly when its category name is absent or whitespace only. */
  lemma SkippedIffBlankName(rec: RawRecord)
    ensures RowOf(rec).None? <==>
            ("product_category_name" !in rec || AllSpace(rec["product_category_name"]))
  {
    CellNoneIffBlank(rec, "product_category_name");
  }

  /** The pair's value for a named column. */
  function Field(c: Category, column: string): Option<SqlValue> {
    if column == "category_name" then Some(Text(c.name))
    else if column == "category_name_english" then Some(OfText(c.nameEnglish))
    else None
  }

  /** Position i of the pair carries the value of the i-th INSERT column. */
  lemma ParamsInColumnOrder(c: Category)
    ensures forall i :: 0 <= i < |Columns| ==> Field(c, Columns[i]) == Some(Params(c)[i])
  {
  }

  function Rows(reader: seq<RawRecord>): seq<Category> {
    FilterMap(reader, RowOf)
  }

  /** load_categories: the batches executemany receives and the printed total. */
  method Load(reader: seq<RawRecord>) returns (executed: seq<seq<Category>>, total: int)
    ensures executed == Batches(Rows(reader), BATCH_SIZE)
    ensures Flatten(executed) == Rows(reader)
    ensures total == |Rows(reader)|
    ensures forall c :: c in Flatten(executed) ==> c.name != "" && IsStripped(c.name)
  {
    executed, total := RunLoader(reader, RowOf);
    FilterMapSound(reader, RowOf);
  }

  /** The conflict key of ON CONFLICT (category_name) DO NOTHING. */
  function KeyOf(c: Category): string { c.name }

  /** A load never replaces a category already present, and reloading the file changes nothing. */
  lemma ReloadUnchangedCategories(table: map<string, Category>, reader: seq<RawRecord>)
    ensures var once := InsertBatches(table, Batches(Rows(reader), BATCH_SIZE), KeyOf);
            && (forall k :: k in table ==> k in once && once[k] == table[k])
            && InsertBatches(once, Batches(Rows(reader), BATCH_SIZE), KeyOf) == once
  {
    ReloadUnchanged(table, reader, RowOf, KeyOf);
  }
}
