/**
 * What the repository hands to the database driver: parameter values,
 * SQL text with "%s" placeholders, and the insert-or-skip-on-conflict
 * behaviour every loader's INSERT asks of the database.
 */
module Sql {
  import opened Wrappers

  /** A query parameter or a fetched cell: NULL, text, integer or number. */
  datatype SqlValue = Null | Text(s: string) | Int(i: int) | Real(r: real)

  function OfText(o: Option<string>): SqlValue {
    match o
    case None => Null
    case Some(s) => Text(s)
  }

  function OfInt(o: Option<int>): SqlValue {
    match o
    case None => Null
    case Some(i) => Int(i)
  }

  function OfReal(o: Option<real>): SqlValue {
    match o
    case None => Null
    case Some(r) => Real(r)
  }

  /** Number of "%s" placeholders, scanning left to right. */
  function CountPlaceholders(s: string): nat
    decreases |s|
  {
    if |s| < 2 then 0
    else if s[0] == '%' && s[1] == 's' then 1 + CountPlaceholders(s[2..])
    else CountPlaceholders(s[1..])
  }

  /** Text without '%' holds no placeholder. */
  lemma {:induction false} NoPercentNoPlaceholder(s: string)
    requires '%' !in s
    ensures CountPlaceholders(s) == 0
    decreases |s|
  {
    if |s| >= 2 {
      assert s[0] != '%';
      assert '%' !in s[1..] by { assert forall i :: 0 <= i < |s| - 1 ==> s[1..][i] == s[i + 1]; }
      NoPercentNoPlaceholder(s[1..]);
    }
  }

  /**
   * Placeholders of a concatenation add up, unless a '%' ending the first
   * part meets an 's' starting the second.
   */
  lemma {:induction false} CountConcat(a: string, b: string)
    requires a == [] || b == [] || a[|a| - 1] != '%' || b[0] != 's'
    ensures CountPlaceholders(a + b) == CountPlaceholders(a) + CountPlaceholders(b)
    decreases |a|
  {
    if a == [] {
      assert a + b == b;
    } else if |a| == 1 {
      if b != [] {
        assert (a + b)[1..] == b;
      }
    } else if a[0] == '%' && a[1] == 's' {
      assert (a + b)[2..] == a[2..] + b;
      CountConcat(a[2..], b);
    } else {
      assert (a + b)[1..] == a[1..] + b;
      CountConcat(a[1..], b);
    }
  }

  // ---------------------------------------------------------------------
  // INSERT ... ON CONFLICT (key) DO NOTHING / INSERT IGNORE

  /** The keys of a sequence of rows. */
  function KeysOf<K, V>(rows: seq<V>, key: V -> K): set<K> {
    set i | 0 <= i < |rows| :: key(rows[i])
  }

  /** rows[i] is the first of the rows whose key is k. */
  predicate FirstWithKey<K(==), V>(rows: seq<V>, key: V -> K, k: K, i: int) {
    0 <= i < |rows| && key(rows[i]) == k && forall j :: 0 <= j < i ==> key(rows[j]) != k
  }

  /**
   * The table (rows by conflict key) after inserting rows one by one,
   * skipping every row whose key is already present: old rows keep their
   * values, and a new key holds the first row that carries it.
   */
  function InsertSkip<K, V>(table: map<K, V>, rows: seq<V>, key: V -> K): (t: map<K, V>)
    ensures t.Keys == table.Keys + KeysOf(rows, key)
    ensures forall k :: k in table ==> k in t && t[k] == table[k]
    ensures forall k :: k in t && k !in table ==> exists i :: FirstWithKey(rows, key, k, i) && t[k] == rows[i]
    decreases |rows|
  {
    if rows == [] then table
    else
      var k := key(rows[0]);
      var next := if k in table then table else table[k := rows[0]];
      var t := InsertSkip(next, rows[1..], key);
      assert forall x :: x in t && x !in table ==> exists i :: FirstWithKey(rows, key, x, i) && t[x] == rows[i] by {
        forall x | x in t && x !in table
          ensures exists i :: FirstWithKey(rows, key, x, i) && t[x] == rows[i]
        {
          if x == k {
            assert FirstWithKey(rows, key, x, 0) && t[x] == rows[0];
          } else {
            assert x !in next;
            var i :| FirstWithKey(rows[1..], key, x, i) && t[x] == rows[1..][i];
            assert FirstWithKey(rows, key, x, i + 1) by { FirstWithKeyCons(rows, key, x, i); }
          }
        }
      }
      assert KeysOf(rows, key) == {k} + KeysOf(rows[1..], key) by { KeysOfCons(rows, key); }
      t
  }

  /** A key the first row does not carry is first met one row later than in the rest. */
  lemma FirstWithKeyCons<K, V>(rows: seq<V>, key: V -> K, k: K, i: int)
    requires rows != [] && key(rows[0]) != k && FirstWithKey(rows[1..], key, k, i)
    ensures FirstWithKey(rows, key, k, i + 1)
  {
    forall j | 0 <= j < i + 1 ensures key(rows[j]) != k {
      if j > 0 { assert rows[j] == rows[1..][j - 1]; }
    }
  }

  /** The keys of a non-empty batch: the first row's key and the rest's. */
  lemma KeysOfCons<K, V>(rows: seq<V>, key: V -> K)
    requires rows != []
    ensures KeysOf(rows, key) == {key(rows[0])} + KeysOf(rows[1..], key)
  {
    forall x | x in KeysOf(rows, key) ensures x in {key(rows[0])} + KeysOf(rows[1..], key) {
      var i :| 0 <= i < |rows| && key(rows[i]) == x;
      if i > 0 { assert rows[1..][i - 1] == rows[i]; }
    }
    forall x | x in KeysOf(rows[1..], key) ensures x in KeysOf(rows, key) {
      var i :| 0 <= i < |rows[1..]| && key(rows[1..][i]) == x;
      assert rows[i + 1] == rows[1..][i];
    }
  }

  /** Rows whose keys are all present change nothing. */
  lemma {:induction false} InsertSkipPresent<K, V>(table: map<K, V>, rows: seq<V>, key: V -> K)
    requires KeysOf(rows, key) <= table.Keys
    ensures InsertSkip(table, rows, key) == table
    decreases |rows|
  {
    if rows != [] {
      assert key(rows[0]) in KeysOf(rows, key);
      assert KeysOf(rows[1..], key) <= KeysOf(rows, key) by {
        forall x | x in KeysOf(rows[1..], key) ensures x in KeysOf(rows, key) {
          var i :| 0 <= i < |rows[1..]| && key(rows[1..][i]) == x;
          assert rows[i + 1] == rows[1..][i];
        }
      }
      InsertSkipPresent(table, rows[1..], key);
    }
  }

  /** Loading the same rows a second time leaves the table as the first load left it. */
  lemma InsertSkipIdempotent<K, V>(table: map<K, V>, rows: seq<V>, key: V -> K)
    ensures InsertSkip(InsertSkip(table, rows, key), rows, key) == InsertSkip(table, rows, key)
  {
    InsertSkipPresent(InsertSkip(table, rows, key), rows, key);
  }

  /** Inserting a then b is inserting a + b: batch boundaries do not matter. */
  lemma {:induction false} InsertSkipAppend<K, V>(table: map<K, V>, a: seq<V>, b: seq<V>, key: V -> K)
    ensures InsertSkip(table, a + b, key) == InsertSkip(InsertSkip(table, a, key), b, key)
    decreases |a|
  {
    if a == [] {
      assert a + b == b;
    } else {
      var k := key(a[0]);
      var next := if k in table then table else table[k := a[0]];
      assert (a + b)[0] == a[0];
      assert (a + b)[1..] == a[1..] + b;
      InsertSkipAppend(next, a[1..], b, key);
    }
  }
}
