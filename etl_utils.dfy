/**
 * db/etl/etl_utils.py: the environment flag parser, the vendor-dependent
 * insert-or-skip SQL builder, the batching generator (also duplicated as
 * _iter_batches in every loader), the CSV batch reader and the dry-run
 * preview.
 */
module EtlUtils {
  import opened Wrappers
  import opened PyText
  import opened Sql

  /** The process environment: absent names are unset variables. */
  type Env = map<string, string>

  /** One csv.DictReader record: column name to raw text; absent = None. */
  type RawRecord = map<string, string>

  // ---------------------------------------------------------------------
  // get_env_bool

  /** os.getenv(key, "").strip().lower() */
  function EnvFlag(env: Env, key: string): string {
    Lower(Strip(if key in env then env[key] else ""))
  }

  predicate IsTrueWord(v: string) {
    v == "1" || v == "true" || v == "yes" || v == "on"
  }

  /**
   * True when the normalised value is one of the true words; otherwise
   * the default, so "0", "false", "no", "off", "" and anything else all
   * give the default.
   */
  function GetEnvBool(env: Env, key: string, default: bool): (r: bool)
    ensures IsTrueWord(EnvFlag(env, key)) ==> r
    ensures !IsTrueWord(EnvFlag(env, key)) ==> r == default
    ensures !r ==> !default
  {
    var val := EnvFlag(env, key);
    if IsTrueWord(val) then true
    else if val == "0" || val == "false" || val == "no" || val == "off" || val == "" then default
    else default
  }

  /**
   * Case and surrounding whitespace do not matter to the flag: any
   * spelling of a true word, padded with any whitespace, reads as true
   * whatever the default.
   */
  lemma EnvFlagIgnoresCaseAndSpace(env: Env, key: string, pad: string, word: string, tail: string, default: bool)
    requires key in env && env[key] == pad + word + tail
    requires AllSpace(pad) && AllSpace(tail)
    requires IsTrueWord(Lower(word))
    ensures GetEnvBool(env, key, default)
  {
    assert word != [] && IsStripped(word) by {
      assert |Lower(word)| > 0;
      assert Lower(word)[0] == LowerChar(word[0]);
      assert Lower(word)[|word| - 1] == LowerChar(word[|word| - 1]);
    }
    StripPadded(pad, word, tail);
  }

  // ---------------------------------------------------------------------
  // get_insert_ignore_sql

  /** "{table}({columns}) VALUES ({placeholders})" */
  function InsertTarget(table: string, columns: string, placeholders: string): string {
    table + "(" + columns + ") VALUES (" + placeholders + ")"
  }

  /**
   * MySQL gets INSERT IGNORE and never a conflict clause; every other
   * vendor (postgres, the default) gets a plain INSERT, followed by
   * ON CONFLICT (c) DO NOTHING when a conflict column is given.
   */
  function GetInsertIgnoreSql(vendor: string, table: string, columns: string, placeholders: string,
                              conflictColumn: Option<string>): (sql: string)
    ensures vendor == "mysql" ==> sql == "INSERT IGNORE INTO " + InsertTarget(table, columns, placeholders)
    ensures vendor != "mysql" && Truthy(conflictColumn) ==>
      sql == "INSERT INTO " + InsertTarget(table, columns, placeholders)
             + " ON CONFLICT (" + conflictColumn.value + ") DO NOTHING"
    ensures vendor != "mysql" && !Truthy(conflictColumn) ==>
      sql == "INSERT INTO " + InsertTarget(table, columns, placeholders)
  {
    if vendor == "mysql" then
      "INSERT IGNORE INTO " + table + "(" + columns + ") VALUES (" + placeholders + ")"
    else if Truthy(conflictColumn) then
      "INSERT INTO " + table + "(" + columns + ") VALUES (" + placeholders + ") ON CONFLICT ("
      + conflictColumn.value + ") DO NOTHING"
    else
      "INSERT INTO " + table + "(" + columns + ") VALUES (" + placeholders + ")"
  }

  /**
   * Whatever the vendor, the statement carries exactly the placeholders
   * of the caller's placeholder list, so the same parameter tuples fit.
   */
  lemma InsertSqlPlaceholders(vendor: string, table: string, columns: string, placeholders: string,
                              conflictColumn: Option<string>)
    requires '%' !in table && '%' !in columns
    requires conflictColumn.Some? ==> '%' !in conflictColumn.value
    ensures CountPlaceholders(GetInsertIgnoreSql(vendor, table, columns, placeholders, conflictColumn))
            == CountPlaceholders(placeholders)
  {
    var head := (if vendor == "mysql" then "INSERT IGNORE INTO " else "INSERT INTO ") + table + "(" + columns + ") VALUES (";
    var tail := if vendor != "mysql" && Truthy(conflictColumn)
                then ") ON CONFLICT (" + conflictColumn.value + ") DO NOTHING" else ")";
    assert GetInsertIgnoreSql(vendor, table, columns, placeholders, conflictColumn) == head + placeholders + tail;
    assert '%' !in head;
    assert '%' !in tail;
    NoPercentNoPlaceholder(head);
    NoPercentNoPlaceholder(tail);
    CountConcat(head, placeholders);
    CountConcat(head + placeholders, tail);
  }

  // ---------------------------------------------------------------------
  // iter_batches / _iter_batches / read_csv_in_batches

  /** `len(batch) >= batch_size` fires after every row once batch_size < 1. */
  function EffectiveSize(batchSize: int): (n: nat)
    ensures n >= 1
    ensures batchSize >= 1 ==> n == batchSize
  {
    if batchSize >= 1 then batchSize else 1
  }

  function Flatten<T>(bs: seq<seq<T>>): seq<T>
    decreases |bs|
  {
    if bs == [] then [] else bs[0] + Flatten(bs[1..])
  }

  lemma {:induction false} FlattenAppend<T>(bs: seq<seq<T>>, b: seq<T>)
    ensures Flatten(bs + [b]) == Flatten(bs) + b
    decreases |bs|
  {
    if bs == [] {
      assert [] + [b] == [b];
    } else {
      assert (bs + [b])[1..] == bs[1..] + [b];
      FlattenAppend(bs[1..], b);
    }
  }

  /** No batch is empty, none exceeds size, and all but the last are full. */
  predicate WellBatched<T>(bs: seq<seq<T>>, size: nat) {
    && (forall j :: 0 <= j < |bs| ==> 0 < |bs[j]| <= size)
    && (forall j :: 0 <= j < |bs| - 1 ==> |bs[j]| == size)
  }

  /** The batches of rows: consecutive slices of size rows, the last one possibly shorter. */
  function Batches<T>(rows: seq<T>, size: nat): seq<seq<T>>
    requires size >= 1
    decreases |rows|
  {
    if rows == [] then []
    else if |rows| <= size then [rows]
    else [rows[..size]] + Batches(rows[size..], size)
  }

  /** Batching loses, reorders and duplicates nothing, and respects the bounds. */
  lemma {:induction false} BatchesCorrect<T>(rows: seq<T>, size: nat)
    requires size >= 1
    ensures Flatten(Batches(rows, size)) == rows
    ensures WellBatched(Batches(rows, size), size)
    decreases |rows|
  {
    if |rows| > size {
      BatchesCorrect(rows[size..], size);
      var bs := Batches(rows, size);
      assert bs[1..] == Batches(rows[size..], size);
      assert rows == rows[..size] + rows[size..];
    } else if rows != [] {
      assert Flatten([rows]) == rows + Flatten([rows][1..]);
    }
  }

  /** Any well-batched split of rows is the one Batches computes. */
  lemma {:induction false} WellBatchedUnique<T>(bs: seq<seq<T>>, size: nat)
    requires size >= 1
    requires WellBatched(bs, size)
    ensures bs == Batches(Flatten(bs), size)
    decreases |bs|
  {
    if |bs| == 1 {
      assert bs[1..] == [];
      assert Flatten(bs[1..]) == [];
      assert Flatten(bs) == bs[0];
      assert Batches(bs[0], size) == [bs[0]];
      assert bs == [bs[0]];
    } else if |bs| > 1 {
      var rest := bs[1..];
      assert WellBatched(rest, size) by {
        assert forall j :: 0 <= j < |rest| ==> rest[j] == bs[j + 1];
      }
      WellBatchedUnique(rest, size);
      var f := Flatten(bs);
      assert f == bs[0] + Flatten(rest);
      assert Flatten(rest) == rest[0] + Flatten(rest[1..]);
      assert |f| > size;
      assert f[..size] == bs[0];
      assert f[size..] == Flatten(rest);
      assert bs == [bs[0]] + rest;
    }
  }

  /** The number of rows in the batches is the number of rows batched. */
  lemma BatchesTotal<T>(rows: seq<T>, size: nat)
    requires size >= 1
    ensures |Flatten(Batches(rows, size))| == |rows|
  {
    BatchesCorrect(rows, size);
  }

  /**
   * iter_batches(rows, batch_size): the generator's batches, collected in
   * the order it yields them.
   */
  method IterBatches<T>(rows: seq<T>, batchSize: int) returns (batches: seq<seq<T>>)
    ensures batches == Batches(rows, EffectiveSize(batchSize))
    ensures Flatten(batches) == rows
    ensures WellBatched(batches, EffectiveSize(batchSize))
  {
    var size := EffectiveSize(batchSize);
    batches := [];
    var batch: seq<T> := [];
    var i := 0;
    while i < |rows|
      invariant 0 <= i <= |rows|
      invariant Flatten(batches) + batch == rows[..i]
      invariant |batch| < size
      invariant AllFull(batches, size)
    {
      batch := batch + [rows[i]];
      if |batch| >= batchSize {
        FlattenAppend(batches, batch);
        batches := batches + [batch];
        batch := [];
      }
      assert rows[..i + 1] == rows[..i] + [rows[i]];
      i := i + 1;
    }
    if batch != [] {
      FlattenAppend(batches, batch);
      FullThenLast(batches, batch, size);
      batches := batches + [batch];
    } else {
      FullIsWellBatched(batches, size);
    }
    assert rows[..|rows|] == rows;
    WellBatchedUnique(batches, size);
  }

  predicate AllFull<T>(bs: seq<seq<T>>, size: nat) {
    forall j :: 0 <= j < |bs| ==> |bs[j]| == size
  }

  lemma FullIsWellBatched<T>(bs: seq<seq<T>>, size: nat)
    requires size >= 1 && AllFull(bs, size)
    ensures WellBatched(bs, size)
  {
  }

  lemma FullThenLast<T>(bs: seq<seq<T>>, b: seq<T>, size: nat)
    requires size >= 1 && AllFull(bs, size) && 0 < |b| <= size
    ensures WellBatched(bs + [b], size)
  {
    var t := bs + [b];
    forall j | 0 <= j < |t| ensures 0 < |t[j]| <= size {
      if j < |bs| { assert t[j] == bs[j]; }
    }
    forall j | 0 <= j < |t| - 1 ensures |t[j]| == size {
      assert t[j] == bs[j];
    }
  }

  /**
   * read_csv_in_batches(csv_path, batch_size): the reader's records in
   * batches under the same contract as iter_batches. Opening and decoding
   * the file is the csv module's job; its records are the input here.
   */
  method ReadCsvInBatches(reader: seq<RawRecord>, batchSize: int) returns (batches: seq<seq<RawRecord>>)
    ensures Flatten(batches) == reader
    ensures WellBatched(batches, EffectiveSize(batchSize))
  {
    batches := IterBatches(reader, batchSize);
  }

  // ---------------------------------------------------------------------
  // dry_insert_preview

  /** What the dry run prints: the table, the caller's total, then numbered sample rows. */
  datatype Preview<T> = Preview(table: string, totalCount: int, sample: seq<(nat, T)>)

  function Min(a: int, b: int): int { if a < b then a else b }

  /** At most the first 3 rows, numbered from 1; the total is the caller's, not len(rows). */
  function DryInsertPreview<T>(table: string, rows: seq<T>, totalCount: int): (p: Preview<T>)
    ensures p.table == table && p.totalCount == totalCount
    ensures |p.sample| == Min(3, |rows|)
    ensures forall i :: 0 <= i < |p.sample| ==> p.sample[i] == (i + 1, rows[i])
  {
    Preview(table, totalCount, seq(Min(3, |rows|), i requires 0 <= i < Min(3, |rows|) => (i + 1, rows[i])))
  }
}
