/**
 * What the loaders under db/etl/ share, each carrying its own copy in the
 * source: the cell readers of gen_rows, the lenient to_int / to_float
 * coercers, the gen_rows filter loop, and the batch-and-count writer loop
 * (`for batch in _iter_batches(gen_rows()): cur.executemany(sql, batch);
 * total += len(batch)`).
 *
 * A CSV record is what csv.DictReader yields; `executemany` is a sink
 * whose received batches are returned as `executed`.
 */
module EtlCommon {
  import opened Wrappers
  import opened PyText
  import opened Sql
  import opened EtlUtils

  /** BATCH_SIZE, the default batch size of every _iter_batches. */
  const BATCH_SIZE: int := 5000

  // ---------------------------------------------------------------------
  // Cell readers

  /** row.get(col) */
  function Get(rec: RawRecord, col: string): Option<string> {
    if col in rec then Some(rec[col]) else None
  }

  /** (row.get(col) or '').strip(): the text of a key column. */
  function Key(rec: RawRecord, col: string): (k: string)
    ensures IsStripped(k)
    ensures col !in rec ==> k == ""
  {
    Strip(if col in rec then rec[col] else "")
  }

  /** (row.get(col) or '').strip() or None */
  function Cell(rec: RawRecord, col: string): (c: Option<string>)
    ensures c.Some? ==> c.value != "" && IsStripped(c.value)
    ensures c.None? <==> Key(rec, col) == ""
  {
    var k := Key(rec, col);
    if k == "" then None else Some(k)
  }

  /** A cell is None exactly when the column is absent or holds only whitespace. */
  lemma CellNoneIffBlank(rec: RawRecord, col: string)
    ensures Cell(rec, col).None? <==> (col !in rec || AllSpace(rec[col]))
  {
    if col in rec {
      StripEmptyIffAllSpace(rec[col]);
    }
  }

  /** A present cell is the raw value with surrounding whitespace removed, nothing more. */
  lemma CellOfStripped(rec: RawRecord, col: string)
    requires col in rec && rec[col] != "" && IsStripped(rec[col])
    ensures Cell(rec, col) == Some(rec[col])
  {
    StripOfStripped(rec[col]);
  }

  // ---------------------------------------------------------------------
  // to_int / to_float

  /**
   * to_int: None and '' give None without calling int(); every other
   * value goes through int(), whose ValueError becomes None.
   */
  function ToInt(x: Option<string>): (r: Option<int>)
    ensures r.Some? <==> x.Some? && IsIntLiteral(Strip(x.value))
    ensures x == None || x == Some("") ==> r == None
  {
    if x.None? || x.value == "" then None else ParseInt(x.value)
  }

  /** The decimal text of any integer comes back as that integer. */
  lemma ToIntShow(n: int)
    ensures ToInt(Some(ShowInt(n))) == Some(n)
  {
    ParseShow(n);
  }

  /** to_float: None and '' give None; float()'s ValueError becomes None. */
  function ToFloat(x: Option<string>): (r: Option<real>)
    ensures x == None || x == Some("") ==> r == None
    ensures r.Some? ==> x.Some? && ParseFloat(x.value) == r
  {
    if x.None? || x.value == "" then None else ParseFloat(x.value)
  }

  /** A cell to_int accepts is accepted by to_float with the same value. */
  lemma ToFloatExtendsToInt(x: Option<string>)
    requires ToInt(x).Some?
    ensures ToFloat(x) == Some(ToInt(x).value as real)
  {
    FloatExtendsInt(x.value);
  }

  // ---------------------------------------------------------------------
  // gen_rows: the filtering generator

  /** The values a filter-transform keeps, in reader order. */
  function FilterMap<T>(reader: seq<RawRecord>, f: RawRecord -> Option<T>): seq<T>
    decreases |reader|
  {
    if reader == [] then []
    else (if f(reader[0]).Some? then [f(reader[0]).value] else []) + FilterMap(reader[1..], f)
  }

  lemma {:induction false} FilterMapAppend<T>(a: seq<RawRecord>, b: seq<RawRecord>, f: RawRecord -> Option<T>)
    ensures FilterMap(a + b, f) == FilterMap(a, f) + FilterMap(b, f)
    decreases |a|
  {
    if a == [] {
      assert a + b == b;
    } else {
      var head := if f(a[0]).Some? then [f(a[0]).value] else [];
      assert (a + b)[0] == a[0];
      assert (a + b)[1..] == a[1..] + b;
      assert FilterMap(a + b, f) == head + FilterMap(a[1..] + b, f);
      FilterMapAppend(a[1..], b, f);
      assert FilterMap(a, f) == head + FilterMap(a[1..], f);
    }
  }

  /** The number of records a filter-transform keeps. */
  function CountKept<T>(reader: seq<RawRecord>, f: RawRecord -> Option<T>): nat
    decreases |reader|
  {
    if reader == [] then 0
    else (if f(reader[0]).Some? then 1 else 0) + CountKept(reader[1..], f)
  }

  /** Every kept value is the transform of some record, and as many are kept as records pass. */
  lemma {:induction false} FilterMapSound<T>(reader: seq<RawRecord>, f: RawRecord -> Option<T>)
    ensures |FilterMap(reader, f)| == CountKept(reader, f) <= |reader|
    ensures forall v :: v in FilterMap(reader, f) ==> exists r :: r in reader && f(r) == Some(v)
    decreases |reader|
  {
    if reader != [] {
      FilterMapSound(reader[1..], f);
      forall v | v in FilterMap(reader, f) ensures exists r :: r in reader && f(r) == Some(v) {
        if f(reader[0]).Some? && v == f(reader[0]).value {
          assert reader[0] in reader;
        } else {
          assert v in FilterMap(reader[1..], f);
          var r :| r in reader[1..] && f(r) == Some(v);
          assert r in reader;
        }
      }
    }
  }

  /** A record the transform rejects contributes nothing. */
  lemma FilterMapSkip<T>(reader: seq<RawRecord>, rec: RawRecord, f: RawRecord -> Option<T>)
    requires f(rec).None?
    ensures FilterMap(reader + [rec], f) == FilterMap(reader, f)
  {
    FilterMapAppend(reader, [rec], f);
    assert [rec][1..] == [];
  }

  /** gen_rows: walks the reader, `continue`s past rejected records, yields the rest. */
  method GenRows<T>(reader: seq<RawRecord>, f: RawRecord -> Option<T>) returns (rows: seq<T>)
    ensures rows == FilterMap(reader, f)
  {
    rows := [];
    var i := 0;
    while i < |reader|
      invariant 0 <= i <= |reader|
      invariant rows == FilterMap(reader[..i], f)
    {
      var row := f(reader[i]);
      FilterMapAppend(reader[..i], [reader[i]], f);
      assert [reader[i]][1..] == [];
      assert reader[..i + 1] == reader[..i] + [reader[i]];
      i := i + 1;
      if row.None? {
        continue;
      }
      rows := rows + [row.value];
    }
    assert reader[..|reader|] == reader;
  }

  // ---------------------------------------------------------------------
  // The writer loop

  /**
   * `total = 0; for batch in _iter_batches(rows): cur.executemany(sql,
   * batch); total += len(batch)`: executemany receives the rows in
   * batches of BATCH_SIZE, and the printed total is the number of rows.
   */
  method WriteBatches<T>(rows: seq<T>) returns (executed: seq<seq<T>>, total: int)
    ensures executed == Batches(rows, BATCH_SIZE)
    ensures Flatten(executed) == rows
    ensures WellBatched(executed, BATCH_SIZE)
    ensures total == |rows|
  {
    var batches := IterBatches(rows, BATCH_SIZE);
    executed := [];
    total := 0;
    var k := 0;
    while k < |batches|
      invariant 0 <= k <= |batches|
      invariant executed == batches[..k]
      invariant total == |Flatten(executed)|
    {
      FlattenAppend(executed, batches[k]);
      executed := executed + [batches[k]];
      total := total + |batches[k]|;
      assert batches[..k + 1] == batches[..k] + [batches[k]];
      k := k + 1;
    }
    assert batches[..|batches|] == batches;
  }

  /**
   * A loader run: gen_rows over the reader, then the writer loop. Returns
   * the batches executemany received and the printed total.
   */
  method RunLoader<T>(reader: seq<RawRecord>, f: RawRecord -> Option<T>) returns (executed: seq<seq<T>>, total: int)
    ensures executed == Batches(FilterMap(reader, f), BATCH_SIZE)
    ensures Flatten(executed) == FilterMap(reader, f)
    ensures total == CountKept(reader, f)
  {
    var rows := GenRows(reader, f);
    executed, total := WriteBatches(rows);
    FilterMapSound(reader, f);
  }

  /**
   * Insert-or-skip on the conflict key: feeding the executed batches one
   * after another to the table is inserting the kept rows in order, and a
   * second run of the same file changes nothing.
   */
  lemma {:induction false} ExecutedInsertSkip<K, T>(table: map<K, T>, executed: seq<seq<T>>, key: T -> K)
    ensures InsertBatches(table, executed, key) == InsertSkip(table, Flatten(executed), key)
    decreases |executed|
  {
    if executed != [] {
      InsertSkipAppend(table, executed[0], Flatten(executed[1..]), key);
      ExecutedInsertSkip(InsertSkip(table, executed[0], key), executed[1..], key);
    }
  }

  /** The table after each executemany call in turn. */
  function InsertBatches<K, T>(table: map<K, T>, executed: seq<seq<T>>, key: T -> K): (t: map<K, T>)
    ensures forall k :: k in table ==> k in t && t[k] == table[k]
    decreases |executed|
  {
    if executed == [] then table
    else InsertBatches(InsertSkip(table, executed[0], key), executed[1..], key)
  }

  /**
   * A loader run never overwrites a row whose key is already in the table,
   * and running it twice over the same records leaves the table as one run does.
   */
  lemma ReloadUnchanged<K, T>(table: map<K, T>, reader: seq<RawRecord>, f: RawRecord -> Option<T>, key: T -> K)
    ensures var once := InsertBatches(table, Batches(FilterMap(reader, f), BATCH_SIZE), key);
            && (forall k :: k in table ==> k in once && once[k] == table[k])
            && InsertBatches(once, Batches(FilterMap(reader, f), BATCH_SIZE), key) == once
  {
    var rows := FilterMap(reader, f);
    var bs := Batches(rows, BATCH_SIZE);
    BatchesCorrect(rows, BATCH_SIZE);
    ExecutedInsertSkip(table, bs, key);
    ExecutedInsertSkip(InsertSkip(table, rows, key), bs, key);
    InsertSkipIdempotent(table, rows, key);
  }
}
