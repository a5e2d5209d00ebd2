/**
 * db/etl/load_products.py: olist_products_dataset.csv into products, with
 * category_id resolved through the name-to-id map read from categories.
 *
 * The file defines load_products twice. Run as a script, the first
 * `__main__` block calls the real loader before the second definition
 * (lines 73-75, a stub whose body is `pass`) rebinds the name; the second
 * block then calls the stub. Imported as a module, load_products is the stub.
 */
module LoadProducts {
  import opened Wrappers
  import opened PyText
  import opened Sql
  import opened EtlUtils
  import opened EtlCommon

  // ---------------------------------------------------------------------
  // _load_category_map

  /** One fetched (category_name, category_id) row; the name may be NULL. */
  type CategoryRow = (Option<string>, int)

  /** The truthy category name of a fetched row, if any. */
  predicate Names(row: CategoryRow, n: string) {
    row.0 == Some(n) && n != ""
  }

  /**
   * {name: cid for (name, cid) in cur.fetchall() if name}: the keys are
   * exactly the truthy names fetched. Built in fetch order, so a later row
   * with the same name overwrites an earlier one.
   */
  function CategoryMap(fetched: seq<CategoryRow>): (m: map<string, int>)
    ensures forall n :: n in m <==> exists i :: 0 <= i < |fetched| && Names(fetched[i], n)
    decreases |fetched|
  {
    if fetched == [] then map[]
    else
      var init := fetched[..|fetched| - 1];
      var m := CategoryMap(init);
      var last := fetched[|fetched| - 1];
      assert forall i :: 0 <= i < |init| ==> init[i] == fetched[i];
      if last.0.Some? && last.0.value != "" then
        assert Names(fetched[|fetched| - 1], last.0.value);
        m[last.0.value := last.1]
      else m
  }

  /** The id a name maps to is the one on the last fetched row carrying that name. */
  lemma {:induction false} CategoryMapLastWins(fetched: seq<CategoryRow>, i: nat)
    requires i < |fetched| && fetched[i].0.Some? && fetched[i].0.value != ""
    requires forall j :: i < j < |fetched| ==> fetched[j].0 != fetched[i].0
    ensures fetched[i].0.value in CategoryMap(fetched)
    ensures CategoryMap(fetched)[fetched[i].0.value] == fetched[i].1
    decreases |fetched|
  {
    assert Names(fetched[i], fetched[i].0.value);
    if i < |fetched| - 1 {
      var init := fetched[..|fetched| - 1];
      assert init[i] == fetched[i];
      CategoryMapLastWins(init, i);
      assert fetched[|fetched| - 1].0 != fetched[i].0;
    }
  }

  // ---------------------------------------------------------------------
  // gen_rows

  /** One yielded tuple (pid, weight, length, height, width, photos, cat_name, cid). */
  datatype Product = Product(
    productId: string,
    weightG: Option<int>,
    lengthCm: Option<int>,
    heightCm: Option<int>,
    widthCm: Option<int>,
    photos: Option<int>,
    categoryName: Option<string>,
    categoryId: Option<int>)

  /** The INSERT column list, in order. */
  const Columns: seq<string> :=
    ["product_id", "product_weight_g", "product_length_cm", "product_height_cm", "product_width_cm",
     "product_photos_qty", "product_category_name", "category_id"]

  /** The parameter tuple executemany binds to VALUES (%s,%s,%s,%s,%s,%s,%s,%s). */
  function Params(p: Product): (ps: seq<SqlValue>)
    ensures |ps| == |Columns|
  {
    [Text(p.productId), OfInt(p.weightG), OfInt(p.lengthCm), OfInt(p.heightCm), OfInt(p.widthCm),
     OfInt(p.photos), OfText(p.categoryName), OfInt(p.categoryId)]
  }

  /** cat_map.get(cat_name) if cat_name else None: an exact, case-sensitive key lookup. */
  function CategoryId(catMap: map<string, int>, catName: Option<string>): (cid: Option<int>)
    ensures cid.Some? <==> catName.Some? && catName.value != "" && catName.value in catMap
    ensures cid.Some? ==> cid.value == catMap[catName.value]
  {
    if catName.Some? && catName.value != "" && catName.value in catMap then Some(catMap[catName.value]) else None
  }

  /** One pass of gen_rows: a blank product_id skips the record. */
  function RowOf(catMap: map<string, int>, rec: RawRecord): (r: Option<Product>)
    ensures r.None? <==> Key(rec, "product_id") == ""
    ensures r.Some? ==> r.value.productId == Key(rec, "product_id") != ""
    ensures r.Some? ==> r.value.categoryName == Cell(rec, "product_category_name")
    ensures r.Some? ==> r.value.categoryId == CategoryId(catMap, r.value.categoryName)
    ensures r.Some? ==> r.value.weightG == ToInt(Get(rec, "product_weight_g"))
                        && r.value.lengthCm == ToInt(Get(rec, "product_length_cm"))
                        && r.value.heightCm == ToInt(Get(rec, "product_height_cm"))
                        && r.value.widthCm == ToInt(Get(rec, "product_width_cm"))
                        && r.value.photos == ToInt(Get(rec, "product_photos_qty"))
  {
    var pid := Key(rec, "product_id");
    if pid == "" then None
    else
      var catName := Cell(rec, "product_category_name");
      Some(Product(pid, ToInt(Get(rec, "product_weight_g")), ToInt(Get(rec, "product_length_cm")),
                   ToInt(Get(rec, "product_height_cm")), ToInt(Get(rec, "product_width_cm")),
                   ToInt(Get(rec, "product_photos_qty")), catName, CategoryId(catMap, catName)))
  }

  /** A row names a category id only when its trimmed category name is a key of the map as is. */
  lemma CategoryIdNeedsExactName(catMap: map<string, int>, rec: RawRecord)
    requires RowOf(catMap, rec).Some? && RowOf(catMap, rec).value.categoryId.Some?
    ensures Key(rec, "product_category_name") in catMap
    ensures RowOf(catMap, rec).value.categoryId.value == catMap[Key(rec, "product_category_name")]
  {
  }

  /** The tuple's value for a named column. */
  function Field(p: Product, column: string): Option<SqlValue> {
    if column == "product_id" then Some(Text(p.productId))
    else if column == "product_weight_g" then Some(OfInt(p.weightG))
    else if column == "product_length_cm" then Some(OfInt(p.lengthCm))
    else if column == "product_height_cm" then Some(OfInt(p.heightCm))
    else if column == "product_width_cm" then Some(OfInt(p.widthCm))
    else if column == "product_photos_qty" then Some(OfInt(p.photos))
    else if column == "product_category_name" then Some(OfText(p.categoryName))
    else if column == "category_id" then Some(OfInt(p.categoryId))
    else None
  }

  /** Position i of the tuple carries the value of the i-th INSERT column. */
  lemma ParamsInColumnOrder(p: Product)
    ensures forall i :: 0 <= i < |Columns| ==> Field(p, Columns[i]) == Some(Params(p)[i])
  {
  }

  function Rows(catMap: map<string, int>, reader: seq<RawRecord>): seq<Product> {
    FilterMap(reader, rec => RowOf(catMap, rec))
  }

  // ---------------------------------------------------------------------
  // The two definitions of load_products

  /** The first load_products (lines 29-63): map first, then gen_rows and the writer loop. */
  method Load(fetched: seq<CategoryRow>, reader: seq<RawRecord>) returns (executed: seq<seq<Product>>, total: int)
    ensures executed == Batches(Rows(CategoryMap(fetched), reader), BATCH_SIZE)
    ensures Flatten(executed) == Rows(CategoryMap(fetched), reader)
    ensures total == |Rows(CategoryMap(fetched), reader)|
  {
    var catMap := CategoryMap(fetched);
    executed, total := RunLoader(reader, rec => RowOf(catMap, rec));
    FilterMapSound(reader, rec => RowOf(catMap, rec));
  }

  /** The second load_products (lines 73-75): does nothing at all. */
  method LoadStub(reader: seq<RawRecord>) returns (executed: seq<seq<Product>>, printed: seq<int>)
    ensures executed == [] && printed == []
  {
    executed, printed := [], [];
  }

  /**
   * `python db/etl/load_products.py <csv>`: without an argument the first
   * usage check exits with status 1; with one, the real loader runs (one
   * total printed) and then the second block calls the stub, which adds
   * nothing.
   */
  method ScriptRun(argc: int, fetched: seq<CategoryRow>, reader: seq<RawRecord>)
    returns (exitCode: int, executed: seq<seq<Product>>, printed: seq<int>)
    ensures argc < 2 ==> exitCode == 1 && executed == [] && printed == []
    ensures argc >= 2 ==> exitCode == 0
    ensures argc >= 2 ==> executed == Batches(Rows(CategoryMap(fetched), reader), BATCH_SIZE)
    ensures argc >= 2 ==> printed == [|Rows(CategoryMap(fetched), reader)|]
  {
    if argc < 2 {
      return 1, [], [];
    }
    var total;
    executed, total := Load(fetched, reader);
    printed := [total];
    var more, morePrinted := LoadStub(reader);
    executed := executed + more;
    printed := printed + morePrinted;
    assert executed == Batches(Rows(CategoryMap(fetched), reader), BATCH_SIZE);
    exitCode := 0;
  }

  /** The conflict key of ON CONFLICT (product_id) DO NOTHING. */
  function KeyOf(p: Product): string { p.productId }

  /** A load never replaces a product already present, and reloading the file changes nothing. */
  lemma ReloadUnchangedProducts(table: map<string, Product>, fetched: seq<CategoryRow>, reader: seq<RawRecord>)
    ensures var once := InsertBatches(table, Batches(Rows(CategoryMap(fetched), reader), BATCH_SIZE), KeyOf);
            && (forall k :: k in table ==> k in once && once[k] == table[k])
            && InsertBatches(once, Batches(Rows(CategoryMap(fetched), reader), BATCH_SIZE), KeyOf) == once
  {
    var catMap := CategoryMap(fetched);
    ReloadUnchanged(table, reader, rec => RowOf(catMap, rec), KeyOf);
  }
}
