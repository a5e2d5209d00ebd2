/**
 * db/etl/load_geo_zip.py: olist_geolocation_dataset.csv into geo_zip,
 * keeping the first row seen for each zip code prefix.
 *
 * gen_rows shares the set `seen` with nothing else but mutates it row by
 * row; _iter_batches pulls from it lazily and executemany runs on every
 * full batch as soon as it is complete. float() on lat/lng is not guarded:
 * a malformed coordinate raises out of the writer loop, after the full
 * batches already executed and with the partial batch lost.
 */
module LoadGeoZip {
  import opened Wrappers
  import opened PyText
  import opened Sql
  import opened EtlUtils
  import opened EtlCommon

  /** One yielded tuple (zip, lat, lng, city, state). */
  datatype GeoRow = GeoRow(zip: int, lat: Option<real>, lng: Option<real>, city: Option<string>, state: Option<string>)

  /** The INSERT column list, in order. */
  const Columns: seq<string> :=
    ["geolocation_zip_code_prefix", "geolocation_lat", "geolocation_lng", "geolocation_city", "geolocation_state"]

  /** The parameter tuple executemany binds to VALUES (%s, %s, %s, %s, %s). */
  function Params(g: GeoRow): (ps: seq<SqlValue>)
    ensures |ps| == |Columns|
    ensures ps[0] == Int(g.zip)
  {
    [Int(g.zip), OfReal(g.lat), OfReal(g.lng), OfText(g.city), OfText(g.state)]
  }

  // ---------------------------------------------------------------------
  // Per-record pieces

  /**
   * The zip: skipped when absent or '', and when int() raises ValueError.
   * The guard comes to the same as the other loaders' to_int.
   */
  function ZipOf(rec: RawRecord): (z: Option<int>)
    ensures z == ToInt(Get(rec, "geolocation_zip_code_prefix"))
  {
    var z := Get(rec, "geolocation_zip_code_prefix");
    if z.None? || z.value == "" then None else ParseInt(z.value)
  }

  /** float(x) if x not in (None, '') else None; float()'s ValueError is not caught. */
  function Coord(x: Option<string>): (r: Result<Option<real>, string>)
    ensures r.Success? <==> x.None? || x.value == "" || ParseFloat(x.value).Some?
    ensures r.Success? ==> r.value == ToFloat(x)
  {
    if x.None? || x.value == "" then Success(None)
    else
      match ParseFloat(x.value)
      case Some(v) => Success(Some(v))
      case None => Failure("ValueError")
  }

  /** city.strip() if city else None */
  function StripIfTruthy(x: Option<string>): (r: Option<string>)
    ensures x.None? || x.value == "" ==> r.None?
    ensures x.Some? && x.value != "" ==> r == Some(Strip(x.value))
  {
    if x.Some? && x.value != "" then Some(Strip(x.value)) else None
  }

  /**
   * Unlike the other loaders' `or None`, a whitespace-only city or state
   * becomes '' rather than None.
   */
  lemma WhitespaceOnlyBecomesEmpty(s: string)
    requires s != "" && AllSpace(s)
    ensures StripIfTruthy(Some(s)) == Some("")
    ensures Coerced(s).None?
  {
    StripEmptyIffAllSpace(s);
  }

  /** What the other loaders make of the same text: (x or '').strip() or None. */
  function Coerced(s: string): Option<string> {
    var k := Strip(s);
    if k == "" then None else Some(k)
  }

  /**
   * Everything gen_rows reads from one record: the zip as int() takes it,
   * each coordinate as float() takes it (a Failure is the ValueError it
   * raises), city and state.
   */
  datatype Parsed = Parsed(
    zip: Option<int>,
    lat: Result<Option<real>, string>,
    lng: Result<Option<real>, string>,
    city: Option<string>,
    state: Option<string>)

  function ParseRecord(rec: RawRecord): Parsed {
    Parsed(ZipOf(rec), Coord(Get(rec, "geolocation_lat")), Coord(Get(rec, "geolocation_lng")),
           StripIfTruthy(Get(rec, "geolocation_city")), StripIfTruthy(Get(rec, "geolocation_state")))
  }

  /**
   * The zip is to_int's, a coordinate float() accepts is to_float's, and
   * city and state are stripped only when non-empty.
   */
  lemma ParseRecordFields(rec: RawRecord)
    ensures var p := ParseRecord(rec);
            && p.zip == ToInt(Get(rec, "geolocation_zip_code_prefix"))
            && (p.lat.Success? ==> p.lat.value == ToFloat(Get(rec, "geolocation_lat")))
            && (p.lng.Success? ==> p.lng.value == ToFloat(Get(rec, "geolocation_lng")))
            && p.city == StripIfTruthy(Get(rec, "geolocation_city"))
            && p.state == StripIfTruthy(Get(rec, "geolocation_state"))
  {
  }

  function ParseAll(reader: seq<RawRecord>): (ps: seq<Parsed>)
    ensures |ps| == |reader|
    ensures forall i :: 0 <= i < |reader| ==> ps[i] == ParseRecord(reader[i])
  {
    seq(|reader|, i requires 0 <= i < |reader| => ParseRecord(reader[i]))
  }

  /** What one record does to the generator, given the zips seen so far. */
  datatype Step = Skip | Yield(row: GeoRow) | Abort

  /**
   * Skip a record without a usable zip or with a zip already seen; raise
   * on a malformed lat, then lng; otherwise yield the row.
   */
  function StepOf(p: Parsed, seen: set<int>): (s: Step)
    ensures s.Yield? ==> Some(s.row.zip) == p.zip && s.row.zip !in seen
  {
    match p.zip
    case None => Skip
    case Some(z) =>
      if z in seen then Skip
      else if p.lat.Failure? then Abort
      else if p.lng.Failure? then Abort
      else Yield(GeoRow(z, p.lat.value, p.lng.value, p.city, p.state))
  }

  // ---------------------------------------------------------------------
  // The generator as a function of the parsed records

  /** The rows gen_rows yields and whether it ended by raising. */
  datatype Gen = Gen(rows: seq<GeoRow>, aborted: bool)

  function GenSpec(ps: seq<Parsed>, seen: set<int>): Gen
    decreases |ps|
  {
    if ps == [] then Gen([], false)
    else
      match StepOf(ps[0], seen)
      case Skip => GenSpec(ps[1..], seen)
      case Abort => Gen([], true)
      case Yield(row) =>
        var rest := GenSpec(ps[1..], seen + {row.zip});
        Gen([row] + rest.rows, rest.aborted)
  }

  function ZipSet(rows: seq<GeoRow>): set<int> {
    set r | r in rows :: r.zip
  }

  /** Every zip some record carries, parsed as to_int would. */
  function ValidZips(ps: seq<Parsed>): set<int> {
    set i | 0 <= i < |ps| && ps[i].zip.Some? :: ps[i].zip.value
  }

  predicate DistinctZips(rows: seq<GeoRow>) {
    forall i, j :: 0 <= i < j < |rows| ==> rows[i].zip != rows[j].zip
  }

  /** The yielded zips are pairwise distinct and none was seen before. */
  lemma {:induction false} GenDistinct(ps: seq<Parsed>, seen: set<int>)
    ensures DistinctZips(GenSpec(ps, seen).rows)
    ensures ZipSet(GenSpec(ps, seen).rows) !! seen
    decreases |ps|
  {
    if ps != [] {
      match StepOf(ps[0], seen)
      case Skip => GenDistinct(ps[1..], seen);
      case Abort =>
      case Yield(row) =>
        var seen' := seen + {row.zip};
        GenDistinct(ps[1..], seen');
        var rest := GenSpec(ps[1..], seen').rows;
        var rows := [row] + rest;
        forall i, j | 0 <= i < j < |rows| ensures rows[i].zip != rows[j].zip {
          assert rows[j] == rest[j - 1];
          assert rest[j - 1].zip in ZipSet(rest);
          if i > 0 { assert rows[i] == rest[i - 1]; }
        }
        forall z | z in ZipSet(rows) ensures z !in seen {
          var r :| r in rows && r.zip == z;
          if r != row { assert r in rest; assert z in ZipSet(rest); }
        }
    }
  }

  /** Without an abort, the yielded zips are the records' valid zips not seen before. */
  lemma {:induction false} GenZips(ps: seq<Parsed>, seen: set<int>)
    requires !GenSpec(ps, seen).aborted
    ensures ZipSet(GenSpec(ps, seen).rows) == ValidZips(ps) - seen
    decreases |ps|
  {
    if ps != [] {
      var tail := ps[1..];
      assert ValidZips(ps) == ValidZips(tail) + (if ps[0].zip.Some? then {ps[0].zip.value} else {}) by {
        forall z | z in ValidZips(ps)
          ensures z in ValidZips(tail) + (if ps[0].zip.Some? then {ps[0].zip.value} else {})
        {
          var i :| 0 <= i < |ps| && ps[i].zip.Some? && ps[i].zip.value == z;
          if i > 0 { assert tail[i - 1] == ps[i]; }
        }
        forall z | z in ValidZips(tail) ensures z in ValidZips(ps) {
          var i :| 0 <= i < |tail| && tail[i].zip.Some? && tail[i].zip.value == z;
          assert ps[i + 1] == tail[i];
        }
        if ps[0].zip.Some? {
          assert ps[0].zip.value in ValidZips(ps);
        }
      }
      match StepOf(ps[0], seen)
      case Skip => GenZips(tail, seen);
      case Yield(row) =>
        GenZips(tail, seen + {row.zip});
        var rest := GenSpec(tail, seen + {row.zip}).rows;
        assert ZipSet([row] + rest) == {row.zip} + ZipSet(rest) by {
          forall z | z in ZipSet([row] + rest) ensures z in {row.zip} + ZipSet(rest) {
            var r :| r in [row] + rest && r.zip == z;
            if r != row { assert r in rest; }
          }
          forall z | z in ZipSet(rest) ensures z in ZipSet([row] + rest) {
            var r :| r in rest && r.zip == z;
            assert r in [row] + rest;
          }
        }
    }
  }

  /** Distinct zips make as many rows as zips. */
  lemma {:induction false} DistinctCount(rows: seq<GeoRow>)
    requires DistinctZips(rows)
    ensures |ZipSet(rows)| == |rows|
    decreases |rows|
  {
    if rows != [] {
      var rest := rows[1..];
      assert DistinctZips(rest) by {
        forall i, j | 0 <= i < j < |rest| ensures rest[i].zip != rest[j].zip {
          assert rest[i] == rows[i + 1] && rest[j] == rows[j + 1];
        }
      }
      DistinctCount(rest);
      assert ZipSet(rows) == {rows[0].zip} + ZipSet(rest) by {
        forall z | z in ZipSet(rows) ensures z in {rows[0].zip} + ZipSet(rest) {
          var r :| r in rows && r.zip == z;
          if r != rows[0] {
            var k :| 0 <= k < |rows| && rows[k] == r;
            assert rest[k - 1] == r;
          }
        }
        forall z | z in ZipSet(rest) ensures z in ZipSet(rows) {
          var r :| r in rest && r.zip == z;
          assert r in rows;
        }
      }
      assert rows[0].zip !in ZipSet(rest) by {
        forall r | r in rest ensures r.zip != rows[0].zip {
          var k :| 0 <= k < |rest| && rest[k] == r;
          assert rows[k + 1] == r;
        }
      }
    }
  }

  /** Without an abort, the number of rows loaded is the number of distinct valid zips. */
  lemma GenTotal(ps: seq<Parsed>)
    requires !GenSpec(ps, {}).aborted
    ensures |GenSpec(ps, {}).rows| == |ValidZips(ps)|
  {
    GenDistinct(ps, {});
    GenZips(ps, {});
    DistinctCount(GenSpec(ps, {}).rows);
  }

  /**
   * First seen wins: every yielded row is built from the first record that
   * carries its zip.
   */
  lemma {:induction false} FirstSeenWins(ps: seq<Parsed>, seen: set<int>, k: nat)
    requires k < |GenSpec(ps, seen).rows|
    ensures var r := GenSpec(ps, seen).rows[k];
            exists j :: 0 <= j < |ps| && StepOf(ps[j], seen + ZipsBefore(ps, j)) == Yield(r)
                        && forall i :: 0 <= i < j ==> ps[i].zip != Some(r.zip)
    decreases |ps|
  {
    var r := GenSpec(ps, seen).rows[k];
    var tail := ps[1..];
    assert ZipsBefore(ps, 0) == {};
    match StepOf(ps[0], seen)
    case Skip =>
      FirstSeenWins(tail, seen, k);
      var j :| 0 <= j < |tail| && StepOf(tail[j], seen + ZipsBefore(tail, j)) == Yield(r)
               && forall i :: 0 <= i < j ==> tail[i].zip != Some(r.zip);
      ZipsBeforeSkip(ps, seen, j + 1);
      GenDistinct(tail, seen);
      assert r in GenSpec(tail, seen).rows;
      assert r.zip in ZipSet(GenSpec(tail, seen).rows);
      assert ps[0].zip != Some(r.zip);
      forall i | 0 <= i < j + 1 ensures ps[i].zip != Some(r.zip) {
        if i > 0 { assert ps[i] == tail[i - 1]; }
      }
      assert ps[j + 1] == tail[j];
    case Yield(row) =>
      if k > 0 {
        var seen' := seen + {row.zip};
        var rest := GenSpec(tail, seen').rows;
        assert r == rest[k - 1];
        FirstSeenWins(tail, seen', k - 1);
        var j :| 0 <= j < |tail| && StepOf(tail[j], seen' + ZipsBefore(tail, j)) == Yield(r)
                 && forall i :: 0 <= i < j ==> tail[i].zip != Some(r.zip);
        ZipsBeforeYield(ps, seen, row, j + 1);
        GenDistinct(tail, seen');
        assert r in rest;
        assert r.zip in ZipSet(rest);
        forall i | 0 <= i < j + 1 ensures ps[i].zip != Some(r.zip) {
          if i > 0 { assert ps[i] == tail[i - 1]; }
        }
        assert ps[j + 1] == tail[j];
      }
  }

  /** The zips carried by the records before position j (seen or not). */
  function ZipsBefore(ps: seq<Parsed>, j: nat): set<int>
    requires j <= |ps|
  {
    set i | 0 <= i < j && ps[i].zip.Some? :: ps[i].zip.value
  }

  lemma ZipsBeforeSkip(ps: seq<Parsed>, seen: set<int>, j: nat)
    requires 1 <= j <= |ps|
    requires StepOf(ps[0], seen).Skip?
    ensures forall rec :: StepOf(rec, seen + ZipsBefore(ps[1..], j - 1)) == StepOf(rec, seen + ZipsBefore(ps, j))
  {
    assert seen + ZipsBefore(ps[1..], j - 1) == seen + ZipsBefore(ps, j) by {
      ZipsBeforeShift(ps, j);
    }
  }

  lemma ZipsBeforeYield(ps: seq<Parsed>, seen: set<int>, row: GeoRow, j: nat)
    requires 1 <= j <= |ps|
    requires StepOf(ps[0], seen) == Yield(row)
    ensures forall rec :: StepOf(rec, seen + {row.zip} + ZipsBefore(ps[1..], j - 1)) == StepOf(rec, seen + ZipsBefore(ps, j))
  {
    assert seen + {row.zip} + ZipsBefore(ps[1..], j - 1) == seen + ZipsBefore(ps, j) by {
      ZipsBeforeShift(ps, j);
    }
  }

  /** Shifting the records by one moves the first record's zip into the prefix set. */
  lemma ZipsBeforeShift(ps: seq<Parsed>, j: nat)
    requires 1 <= j <= |ps|
    ensures ZipsBefore(ps, j) == ZipsBefore(ps[1..], j - 1) + (if ps[0].zip.Some? then {ps[0].zip.value} else {})
  {
    var tail := ps[1..];
    forall z | z in ZipsBefore(ps, j)
      ensures z in ZipsBefore(tail, j - 1) + (if ps[0].zip.Some? then {ps[0].zip.value} else {})
    {
      var i :| 0 <= i < j && ps[i].zip.Some? && ps[i].zip.value == z;
      if i > 0 { assert tail[i - 1] == ps[i]; }
    }
    forall z | z in ZipsBefore(tail, j - 1) ensures z in ZipsBefore(ps, j) {
      var i :| 0 <= i < j - 1 && tail[i].zip.Some? && tail[i].zip.value == z;
      assert ps[i + 1] == tail[i];
    }
    if ps[0].zip.Some? {
      assert ps[0].zip.value in ZipsBefore(ps, j);
    }
  }

  // ---------------------------------------------------------------------
  // load_geo_zip

  /**
   * One pass of gen_rows' loop body: the `continue`s, `seen.add` before
   * the coordinates are parsed, and the two unguarded float() calls.
   */
  method NextRow(rec: RawRecord, seen: set<int>) returns (step: Step, seen': set<int>)
    ensures step == StepOf(ParseRecord(rec), seen)
    ensures seen' == SeenAfter(ParseRecord(rec), seen)
  {
    seen' := seen;
    var z := Get(rec, "geolocation_zip_code_prefix");
    if z.None? || z.value == "" {
      return Skip, seen';
    }
    var zInt := ParseInt(z.value);
    if zInt.None? {
      return Skip, seen';
    }
    if zInt.value in seen' {
      return Skip, seen';
    }
    seen' := seen' + {zInt.value};
    var lat := Coord(Get(rec, "geolocation_lat"));
    if lat.Failure? {
      return Abort, seen';
    }
    var lng := Coord(Get(rec, "geolocation_lng"));
    if lng.Failure? {
      return Abort, seen';
    }
    step := Yield(GeoRow(zInt.value, lat.value, lng.value,
                         StripIfTruthy(Get(rec, "geolocation_city")), StripIfTruthy(Get(rec, "geolocation_state"))));
  }

  /** Adding a row's zip to the zips of the rows before it. */
  lemma ZipSetSnoc(rows: seq<GeoRow>, row: GeoRow)
    ensures ZipSet(rows + [row]) == ZipSet(rows) + {row.zip}
  {
    forall r | r in rows + [row] ensures r.zip in ZipSet(rows) + {row.zip} {
      if r != row { assert r in rows; }
    }
  }

  /** The set `seen` after one record. */
  function SeenAfter(p: Parsed, seen: set<int>): set<int> {
    if p.zip.Some? then seen + {p.zip.value} else seen
  }

  /** GenSpec from record i on, in terms of GenSpec from record i + 1 on. */
  lemma GenAdvance(ps: seq<Parsed>, i: nat, seen: set<int>)
    requires i < |ps|
    ensures var st := StepOf(ps[i], seen);
            var rest := GenSpec(ps[i + 1..], SeenAfter(ps[i], seen));
            && (st.Skip? ==> GenSpec(ps[i..], seen) == rest)
            && (st.Abort? ==> GenSpec(ps[i..], seen) == Gen([], true))
            && (st.Yield? ==> GenSpec(ps[i..], seen) == Gen([st.row] + rest.rows, rest.aborted))
  {
    assert ps[i..][0] == ps[i] && ps[i..][1..] == ps[i + 1..];
    if StepOf(ps[i], seen).Skip? {
      assert SeenAfter(ps[i], seen) == seen;
    }
  }

  /** The rows yielded so far and the current `seen`, against the whole generator. */
  predicate Tracks(ps: seq<Parsed>, i: nat, seen: set<int>, rows: seq<GeoRow>)
    requires i <= |ps|
  {
    && GenSpec(ps, {}) == Gen(rows + GenSpec(ps[i..], seen).rows, GenSpec(ps[i..], seen).aborted)
    && seen == ZipSet(rows)
  }

  /** One record further: Tracks is kept, or the generator has raised after rows. */
  lemma TracksStep(ps: seq<Parsed>, i: nat, seen: set<int>, rows: seq<GeoRow>)
    requires i < |ps| && Tracks(ps, i, seen, rows)
    ensures var st := StepOf(ps[i], seen);
            && (st.Skip? ==> Tracks(ps, i + 1, SeenAfter(ps[i], seen), rows))
            && (st.Yield? ==> Tracks(ps, i + 1, SeenAfter(ps[i], seen), rows + [st.row]))
            && (st.Abort? ==> GenSpec(ps, {}) == Gen(rows, true))
  {
    GenAdvance(ps, i, seen);
    var st := StepOf(ps[i], seen);
    if st.Yield? {
      TracksYield(ps, i, seen, rows, st.row);
    } else if st.Abort? {
      assert rows + [] == rows;
    }
  }

  lemma TracksYield(ps: seq<Parsed>, i: nat, seen: set<int>, rows: seq<GeoRow>, row: GeoRow)
    requires i < |ps| && seen == ZipSet(rows)
    requires StepOf(ps[i], seen) == Yield(row)
    requires GenSpec(ps, {}) == Gen(rows + ([row] + GenSpec(ps[i + 1..], seen + {row.zip}).rows),
                                    GenSpec(ps[i + 1..], seen + {row.zip}).aborted)
    ensures Tracks(ps, i + 1, SeenAfter(ps[i], seen), rows + [row])
  {
    ZipSetSnoc(rows, row);
    var rest := GenSpec(ps[i + 1..], seen + {row.zip});
    assert (rows + [row]) + rest.rows == rows + ([row] + rest.rows);
  }

  /** At the end of the records, Tracks says the generator yielded exactly rows. */
  lemma TracksDone(ps: seq<Parsed>, seen: set<int>, rows: seq<GeoRow>)
    requires Tracks(ps, |ps|, seen, rows)
    ensures GenSpec(ps, {}) == Gen(rows, false) && seen == ZipSet(rows)
  {
    assert ps[|ps|..] == [];
    assert rows + [] == rows;
  }

  /**
   * _iter_batches and the writer loop taking one yielded row: append it,
   * and hand a full batch to executemany.
   */
  method PushRow(executed: seq<seq<GeoRow>>, batch: seq<GeoRow>, total: int, row: GeoRow)
    returns (executed': seq<seq<GeoRow>>, batch': seq<GeoRow>, total': int)
    requires |batch| < BATCH_SIZE && AllFull(executed, BATCH_SIZE) && total == |Flatten(executed)|
    ensures Flatten(executed') + batch' == Flatten(executed) + batch + [row]
    ensures |batch'| < BATCH_SIZE && AllFull(executed', BATCH_SIZE) && total' == |Flatten(executed')|
  {
    executed', batch', total' := executed, batch + [row], total;
    if |batch'| >= BATCH_SIZE {
      FlattenAppend(executed', batch');
      executed' := executed' + [batch'];
      total' := total' + |batch'|;
      batch' := [];
    }
  }

  /** `if batch: yield batch` and its executemany, once the generator is exhausted. */
  method FlushLast(executed: seq<seq<GeoRow>>, batch: seq<GeoRow>, total: int)
    returns (executed': seq<seq<GeoRow>>, total': int)
    requires |batch| < BATCH_SIZE && AllFull(executed, BATCH_SIZE) && total == |Flatten(executed)|
    ensures executed' == Batches(Flatten(executed) + batch, BATCH_SIZE)
    ensures total' == |Flatten(executed) + batch|
  {
    executed', total' := executed, total;
    if batch != [] {
      FlattenAppend(executed', batch);
      FullThenLast(executed', batch, BATCH_SIZE);
      executed' := executed' + [batch];
      total' := total' + |batch|;
    } else {
      FullIsWellBatched(executed', BATCH_SIZE);
      assert Flatten(executed) + batch == Flatten(executed);
    }
    WellBatchedUnique(executed', BATCH_SIZE);
  }

  /** When float() raises, only the full batches reached executemany. */
  lemma AbortedWrites(executed: seq<seq<GeoRow>>, batch: seq<GeoRow>, rows: seq<GeoRow>)
    requires Flatten(executed) + batch == rows && |batch| < BATCH_SIZE && AllFull(executed, BATCH_SIZE)
    ensures forall b :: b in executed ==> |b| == BATCH_SIZE
    ensures Flatten(executed) <= rows && |rows| - |Flatten(executed)| < BATCH_SIZE
  {
    forall b | b in executed ensures |b| == BATCH_SIZE {
      var j :| 0 <= j < |executed| && executed[j] == b;
    }
  }

  /**
   * One turn of the interleaved loop: gen_rows reads record i and, when it
   * yields, the row goes through _iter_batches and the writer loop.
   * `raised` is float()'s ValueError leaving the generator.
   */
  method Consume(rec: RawRecord, seen: set<int>, executed: seq<seq<GeoRow>>, batch: seq<GeoRow>, total: int,
                 ghost ps: seq<Parsed>, ghost i: nat, ghost rows: seq<GeoRow>)
    returns (raised: bool, seen': set<int>, executed': seq<seq<GeoRow>>, batch': seq<GeoRow>, total': int,
             ghost rows': seq<GeoRow>)
    requires i < |ps| && ps[i] == ParseRecord(rec) && Tracks(ps, i, seen, rows)
    requires Flatten(executed) + batch == rows && |batch| < BATCH_SIZE && AllFull(executed, BATCH_SIZE)
    requires total == |Flatten(executed)|
    ensures raised ==> GenSpec(ps, {}) == Gen(rows, true) && executed' == executed && batch' == batch
    ensures !raised ==> Tracks(ps, i + 1, seen', rows')
    ensures Flatten(executed') + batch' == rows' && |batch'| < BATCH_SIZE && AllFull(executed', BATCH_SIZE)
    ensures total' == |Flatten(executed')|
  {
    var step;
    step, seen' := NextRow(rec, seen);
    TracksStep(ps, i, seen, rows);
    raised := step.Abort?;
    executed', batch', total', rows' := executed, batch, total, rows;
    if step.Yield? {
      rows' := rows + [step.row];
      executed', batch', total' := PushRow(executed, batch, total, step.row);
    }
  }

  /**
   * load_geo_zip, with the generator, the batcher and the writer loop
   * interleaved as they run. Returns the batches executemany received, the
   * printed total (None when float() raised) and the final `seen`.
   */
  method Load(reader: seq<RawRecord>) returns (executed: seq<seq<GeoRow>>, printed: Option<int>, seen: set<int>)
    ensures var g := GenSpec(ParseAll(reader), {});
            !g.aborted ==> executed == Batches(g.rows, BATCH_SIZE) && printed == Some(|g.rows|) && seen == ZipSet(g.rows)
    ensures var g := GenSpec(ParseAll(reader), {});
            g.aborted ==> && printed.None?
                          && (forall b :: b in executed ==> |b| == BATCH_SIZE)
                          && Flatten(executed) <= g.rows
                          && |g.rows| - |Flatten(executed)| < BATCH_SIZE
  {
    ghost var ps := ParseAll(reader);
    seen := {};
    executed := [];
    ghost var rows: seq<GeoRow> := [];
    var batch: seq<GeoRow> := [];
    var total := 0;
    var i := 0;
    assert ps[0..] == ps;
    while i < |reader|
      invariant 0 <= i <= |reader|
      invariant Tracks(ps, i, seen, rows)
      invariant Flatten(executed) + batch == rows && |batch| < BATCH_SIZE && AllFull(executed, BATCH_SIZE)
      invariant total == |Flatten(executed)|
    {
      var raised;
      raised, seen, executed, batch, total, rows := Consume(reader[i], seen, executed, batch, total, ps, i, rows);
      if raised {
        AbortedWrites(executed, batch, rows);
        printed := None;
        return;
      }
      i := i + 1;
    }
    TracksDone(ps, seen, rows);
    executed, total := FlushLast(executed, batch, total);
    printed := Some(total);
  }
}
