/**
 * reports/categories_match_report.py: reads the category translation CSV
 * and the products CSV (trying three encodings each), normalises column
 * names and category names, left-merges products with categories on the
 * normalised Portuguese name and summarises how many products found a
 * category, listing the names that did not.
 *
 * Opening, sniffing and parsing a CSV is the parameter `read` (path and
 * encoding to a frame or the error text); NFKD decomposition is the
 * parameter `nfkd`.
 */
module CategoriesMatchReport {
  import opened Wrappers
  import opened PyText

  const DefaultCatsPath: string := "data/raw/product_category_name_translation.csv"
  const DefaultProdsPath: string := "data/raw/olist_products_dataset.csv"

  /** sys.argv[i] if len(sys.argv) > i else the default. */
  function PathArg(argv: seq<string>, i: nat, default: string): (p: string)
    ensures i < |argv| ==> p == argv[i]
    ensures i >= |argv| ==> p == default
  {
    if |argv| > i then argv[i] else default
  }

  /**
   * A cell of a frame read with dtype=str: its text, or NaN for an empty
   * cell. None is the value deaccent tests for explicitly.
   */
  datatype PyValue = PyNone | NaN | Str(text: string)

  /** pandas' isna. */
  predicate IsNa(v: PyValue) {
    v.PyNone? || v.NaN?
  }

  /** A frame: its column names and its rows of cells, by position. */
  datatype Frame = Frame(columns: seq<string>, rows: seq<seq<PyValue>>)

  // ---------------------------------------------------------------------
  // Column names

  const Bom: char := '\U{FEFF}'

  /** str.lstrip(c) for one character c. */
  function LStripChar(s: string, c: char): (r: string)
    ensures |r| <= |s| && r == s[|s| - |r|..]
    ensures forall i :: 0 <= i < |s| - |r| ==> s[i] == c
    ensures r == [] || r[0] != c
    decreases |s|
  {
    if s != [] && s[0] == c then LStripChar(s[1..], c) else s
  }

  predicate NoUpper(s: string) {
    forall i :: 0 <= i < |s| ==> !('A' <= s[i] <= 'Z')
  }

  /**
   * The name of one column: leading BOMs dropped, stripped, lowercased,
   * spaces and '-' turned into '_'.
   */
  function NormColumn(c: string): (r: string)
    ensures ' ' !in r && '-' !in r && NoUpper(r)
  {
    var lowered := Lower(Strip(LStripChar(c, Bom)));
    LowerHasNoUpper(Strip(LStripChar(c, Bom)));
    var spaced := Replace(lowered, ' ', '_');
    ReplaceKeeps(lowered, ' ', '_');
    var r := Replace(spaced, '-', '_');
    ReplaceKeeps(spaced, '-', '_');
    r
  }

  lemma LowerHasNoUpper(s: string)
    ensures NoUpper(Lower(s))
  {
  }

  /** Replacing a by '_' keeps out every character that was out, and adds no capital. */
  lemma ReplaceKeeps(s: string, a: char, b: char)
    requires a != b && !('A' <= b <= 'Z')
    ensures forall c :: c != b && c !in s ==> c !in Replace(s, a, b)
    ensures NoUpper(s) ==> NoUpper(Replace(s, a, b))
  {
  }

  lemma LowerOfLower(s: string)
    requires NoUpper(s)
    ensures Lower(s) == s
  {
  }

  lemma ReplaceAbsent(s: string, a: char, b: char)
    requires a != b && a !in s
    ensures Replace(s, a, b) == s
  {
  }

  lemma LStripAbsent(s: string, c: char)
    requires s == [] || s[0] != c
    ensures LStripChar(s, c) == s
  {
  }

  /** A name already in normal form is left as it is. */
  lemma NormColumnFixed(c: string)
    requires c == [] || c[0] != Bom
    requires IsStripped(c) && NoUpper(c) && ' ' !in c && '-' !in c
    ensures NormColumn(c) == c
  {
    assert LStripChar(c, Bom) == c by { LStripAbsent(c, Bom); }
    assert Strip(c) == c by { StripOfStripped(c); }
    assert Lower(c) == c by { LowerOfLower(c); }
    assert Replace(c, ' ', '_') == c by { ReplaceAbsent(c, ' ', '_'); }
    assert Replace(c, '-', '_') == c by { ReplaceAbsent(c, '-', '_'); }
  }

  /** The frame with every column name normalised; the cells are untouched. */
  function NormColumns(df: Frame): (r: Frame)
    ensures |r.columns| == |df.columns| && r.rows == df.rows
    ensures forall i :: 0 <= i < |df.columns| ==> r.columns[i] == NormColumn(df.columns[i])
  {
    Frame(seq(|df.columns|, i requires 0 <= i < |df.columns| => NormColumn(df.columns[i])), df.rows)
  }

  // ---------------------------------------------------------------------
  // read_csv_smart

  const Encodings: seq<string> := ["utf-8", "utf-8-sig", "latin-1"]

  /**
   * The outcome of trying the encodings in order: the first frame read,
   * with its columns normalised, or the exit message carrying the last
   * error (last_err starts as None).
   */
  function ReadFrom(path: string, encs: seq<string>, read: (string, string) -> Result<Frame, string>,
                    lastErr: string): Result<Frame, string>
    decreases |encs|
  {
    if encs == [] then Failure("CSV okunamadı: " + path + " (" + lastErr + ")")
    else match read(path, encs[0])
      case Success(df) => Success(NormColumns(df))
      case Failure(e) => ReadFrom(path, encs[1..], read, e)
  }

  /** read_csv_smart's loop over the encodings, remembering the last error. */
  method ReadCsvSmart(path: string, read: (string, string) -> Result<Frame, string>) returns (r: Result<Frame, string>)
    ensures r == ReadFrom(path, Encodings, read, "None")
  {
    var lastErr := "None";
    var k := 0;
    while k < |Encodings|
      invariant 0 <= k <= |Encodings|
      invariant ReadFrom(path, Encodings, read, "None") == ReadFrom(path, Encodings[k..], read, lastErr)
    {
      var attempt := read(path, Encodings[k]);
      assert Encodings[k..][1..] == Encodings[k + 1..];
      if attempt.Success? {
        return Success(NormColumns(attempt.value));
      }
      lastErr := attempt.error;
      k := k + 1;
    }
    r := Failure("CSV okunamadı: " + path + " (" + lastErr + ")");
  }

  /**
   * The first encoding that reads wins; when all three fail the message
   * carries latin-1's error. A frame returned has normal column names.
   */
  lemma ReadOutcome(path: string, read: (string, string) -> Result<Frame, string>)
    ensures var r := ReadFrom(path, Encodings, read, "None");
            && (read(path, "utf-8").Success? ==> r == Success(NormColumns(read(path, "utf-8").value)))
            && (read(path, "utf-8").Failure? && read(path, "utf-8-sig").Success? ==>
                  r == Success(NormColumns(read(path, "utf-8-sig").value)))
            && (read(path, "utf-8").Failure? && read(path, "utf-8-sig").Failure? && read(path, "latin-1").Success? ==>
                  r == Success(NormColumns(read(path, "latin-1").value)))
            && (read(path, "utf-8").Failure? && read(path, "utf-8-sig").Failure? && read(path, "latin-1").Failure? ==>
                  r == Failure("CSV okunamadı: " + path + " (" + read(path, "latin-1").error + ")"))
            && (r.Success? ==> forall i :: 0 <= i < |r.value.columns| ==>
                  ' ' !in r.value.columns[i] && '-' !in r.value.columns[i])
  {
    assert Encodings[1..] == ["utf-8-sig", "latin-1"];
    assert Encodings[1..][1..] == ["latin-1"];
    assert Encodings[1..][1..][1..] == [];
  }

  // ---------------------------------------------------------------------
  // deaccent and norm

  predicate IsAscii(s: string) {
    forall i :: 0 <= i < |s| ==> s[i] as int < 128
  }

  /** .encode("ascii", "ignore").decode("ascii"): the ASCII characters, in order. */
  function AsciiOnly(s: string): (r: string)
    ensures IsAscii(r) && |r| <= |s|
    decreases |s|
  {
    if s == [] then ""
    else if s[0] as int < 128 then [s[0]] + AsciiOnly(s[1..])
    else AsciiOnly(s[1..])
  }

  lemma {:induction false} AsciiOnlyKeepsAscii(s: string)
    requires IsAscii(s)
    ensures AsciiOnly(s) == s
    decreases |s|
  {
    if s != [] {
      AsciiOnlyKeepsAscii(s[1..]);
      assert [s[0]] + s[1..] == s;
    }
  }

  /**
   * deaccent as written: None is "", any other value goes through str()
   * (a NaN cell becomes "nan"), NFKD and the ASCII filter.
   */
  function Deaccent(v: PyValue, nfkd: string -> string): (r: string)
    ensures IsAscii(r)
    ensures v.PyNone? ==> r == ""
    ensures v.NaN? ==> r == "nan"
  {
    match v
    case PyNone => ""
    case NaN => assert IsAscii("nan"); "nan"
    case Str(s) => AsciiOnly(nfkd(s))
  }

  /** An ASCII text that NFKD leaves alone comes through deaccent unchanged. */
  lemma DeaccentAscii(s: string, nfkd: string -> string)
    requires IsAscii(s) && nfkd(s) == s
    ensures Deaccent(Str(s), nfkd) == s
  {
    AsciiOnlyKeepsAscii(s);
  }

  /**
   * The text part of norm: strip, lower, '-', '_' and '/' to spaces, then
   * " ".join(s.split()).
   */
  function NormText(s: string): (r: string)
    ensures SingleSpaced(r)
    ensures '-' !in r && '_' !in r && '/' !in r
    ensures NoUpper(r)
  {
    var t := Replace(Replace(Replace(Lower(Strip(s)), '-', ' '), '_', ' '), '/', ' ');
    assert '-' !in t && '_' !in t && NoUpper(t);
    var r := Join(Words(t), ' ');
    JoinWordsSingleSpaced(Words(t));
    WordsJoinChars(t);
    assert NoUpper(r) by {
      forall i | 0 <= i < |r| ensures !('A' <= r[i] <= 'Z') {
        assert r[i] in r;
      }
    }
    r
  }

  /** A single lowercase word without '-', '_' or '/' is already normal. */
  lemma NormTextOfWord(w: string)
    requires IsWord(w) && NoUpper(w) && '-' !in w && '_' !in w && '/' !in w
    ensures NormText(w) == w
  {
    assert IsStripped(w);
    StripOfStripped(w);
    assert Lower(w) == w;
    assert Replace(w, '-', ' ') == w;
    assert Replace(w, '_', ' ') == w;
    assert Replace(w, '/', ' ') == w;
    WordsOfWord(w);
  }

  /**
   * Text already in normal form (single spaced, no capital, no '-', '_'
   * or '/') is its own key.
   */
  lemma NormTextFixed(s: string)
    requires SingleSpaced(s) && NoUpper(s) && '-' !in s && '_' !in s && '/' !in s
    ensures NormText(s) == s
  {
    StripOfStripped(s);
    LowerOfLower(s);
    ReplaceAbsent(s, '-', ' ');
    ReplaceAbsent(s, '_', ' ');
    ReplaceAbsent(s, '/', ' ');
    WordsOfSingleSpaced(s);
  }

  /** Normalising a key again changes nothing. */
  lemma NormTextIdempotent(s: string)
    ensures NormText(NormText(s)) == NormText(s)
  {
    NormTextFixed(NormText(s));
  }

  /** norm as written: the key of a cell. */
  function Norm(v: PyValue, nfkd: string -> string): (r: string)
    ensures SingleSpaced(r) && '-' !in r && '_' !in r && '/' !in r
  {
    NormText(Deaccent(v, nfkd))
  }

  /** norm(None) is "", and a NaN cell is keyed "nan". */
  lemma NormOfMissing(nfkd: string -> string)
    ensures Norm(PyNone, nfkd) == ""
    ensures Norm(NaN, nfkd) == "nan"
  {
    assert Words("") == [] by {
      assert SplitSpace("") == [""];
    }
    NormTextOfWord("nan");
  }

  /**
   * The key an empty cell was evidently meant to get: "", which the
   * unmatched list drops, like None. Text cells keep norm's key.
   */
  function NormCell(v: PyValue, nfkd: string -> string): (r: string)
    ensures IsNa(v) ==> r == ""
    ensures v.Str? ==> r == Norm(v, nfkd)
  {
    if v.NaN? then "" else
    NormOfMissing(nfkd);
    Norm(v, nfkd)
  }

  // ---------------------------------------------------------------------
  // Column detection

  const CatNameCandidates: seq<string> := ["product_category_name", "category_name"]
  const CatEnCandidates: seq<string> := ["product_category_name_english", "category_name_english"]
  const ProdCatCandidates: seq<string> := ["product_category_name", "category_name", "product_category"]

  /** next((c for c in candidates if c in columns), None) */
  function FirstPresent(candidates: seq<string>, columns: seq<string>): (r: Option<string>)
    ensures r.Some? <==> exists i :: 0 <= i < |candidates| && candidates[i] in columns
    ensures r.Some? ==> r.value in columns
    ensures r.Some? ==> exists i :: 0 <= i < |candidates| && candidates[i] == r.value
                                    && forall j :: 0 <= j < i ==> candidates[j] !in columns
    decreases |candidates|
  {
    if candidates == [] then None
    else if candidates[0] in columns then Some(candidates[0])
    else
      var r := FirstPresent(candidates[1..], columns);
      assert forall i :: 1 <= i < |candidates| ==> candidates[i] == candidates[1..][i - 1];
      r
  }

  /** Position of the first column of that name. */
  function ColumnIndex(columns: seq<string>, name: string): (i: nat)
    requires name in columns
    ensures i < |columns| && columns[i] == name && name !in columns[..i]
    decreases |columns|
  {
    if columns[0] == name then 0
    else
      var i := 1 + ColumnIndex(columns[1..], name);
      assert columns[..i] == [columns[0]] + columns[1..][..i - 1];
      i
  }

  /** df[name]: one cell per row, NaN where a row is short. */
  function Column(df: Frame, name: string): (col: seq<PyValue>)
    requires name in df.columns
    ensures |col| == |df.rows|
  {
    var i := ColumnIndex(df.columns, name);
    seq(|df.rows|, k requires 0 <= k < |df.rows| => if i < |df.rows[k]| then df.rows[k][i] else NaN)
  }

  /** Which key the merge uses: norm as written, or the corrected NormCell. */
  datatype KeyRule = AsWritten | Corrected

  function Key(rule: KeyRule, v: PyValue, nfkd: string -> string): string {
    match rule
    case AsWritten => Norm(v, nfkd)
    case Corrected => NormCell(v, nfkd)
  }

  /** col.map(norm) */
  function KeyColumn(col: seq<PyValue>, rule: KeyRule, nfkd: string -> string): (keys: seq<string>)
    ensures |keys| == |col| && forall k :: 0 <= k < |col| ==> keys[k] == Key(rule, col[k], nfkd)
  {
    seq(|col|, k requires 0 <= k < |col| => Key(rule, col[k], nfkd))
  }

  // ---------------------------------------------------------------------
  // The left merge

  /** The ref values of the category rows whose key is k, in row order. */
  function RefsFor(k: string, catKeys: seq<string>, refs: seq<PyValue>): (m: seq<PyValue>)
    requires |catKeys| == |refs|
    ensures |m| <= |catKeys|
    ensures (m == []) <==> k !in catKeys
    ensures forall v :: v in m ==> v in refs
    decreases |catKeys|
  {
    if catKeys == [] then []
    else
      var rest := RefsFor(k, catKeys[1..], refs[1..]);
      assert forall v :: v in refs[1..] ==> v in refs;
      if catKeys[0] == k then [refs[0]] + rest else rest
  }

  /** One row of the merged frame: the product's key and the ref it met. */
  type MergedRow = (string, PyValue)

  /** The rows one product contributes: one per matching category, or one with NaN. */
  function RowsFor(k: string, catKeys: seq<string>, refs: seq<PyValue>): (rows: seq<MergedRow>)
    requires |catKeys| == |refs|
    ensures |rows| >= 1
    ensures forall i :: 0 <= i < |rows| ==> rows[i].0 == k
    ensures k !in catKeys ==> rows == [(k, NaN)]
    ensures k in catKeys ==> forall i :: 0 <= i < |rows| ==> rows[i].1 in refs
  {
    var m := RefsFor(k, catKeys, refs);
    if m == [] then [(k, NaN)]
    else
      var rows := seq(|m|, i requires 0 <= i < |m| => (k, m[i]));
      assert forall i :: 0 <= i < |rows| ==> rows[i].1 in m;
      rows
  }

  /** prods.merge(cats_key, how="left"): product order, each product's matches in category order. */
  function MergeLeft(prodKeys: seq<string>, catKeys: seq<string>, refs: seq<PyValue>): (rows: seq<MergedRow>)
    requires |catKeys| == |refs|
    ensures |rows| >= |prodKeys|
    ensures forall i :: 0 <= i < |rows| ==> rows[i].0 in prodKeys
    decreases |prodKeys|
  {
    if prodKeys == [] then []
    else
      var rows := RowsFor(prodKeys[0], catKeys, refs) + MergeLeft(prodKeys[1..], catKeys, refs);
      assert forall k :: k in prodKeys[1..] ==> k in prodKeys;
      rows
  }

  predicate Distinct(keys: seq<string>) {
    forall i, j :: 0 <= i < j < |keys| ==> keys[i] != keys[j]
  }

  lemma {:induction false} RefsForDistinct(k: string, catKeys: seq<string>, refs: seq<PyValue>)
    requires |catKeys| == |refs| && Distinct(catKeys)
    ensures |RefsFor(k, catKeys, refs)| <= 1
    decreases |catKeys|
  {
    if catKeys != [] {
      RefsForDistinct(k, catKeys[1..], refs[1..]);
      if catKeys[0] == k {
        assert k !in catKeys[1..];
      }
    }
  }

  /** With unique category keys the merge keeps one row per product. */
  lemma {:induction false} MergeKeepsRowCount(prodKeys: seq<string>, catKeys: seq<string>, refs: seq<PyValue>)
    requires |catKeys| == |refs| && Distinct(catKeys)
    ensures |MergeLeft(prodKeys, catKeys, refs)| == |prodKeys|
    decreases |prodKeys|
  {
    if prodKeys != [] {
      RefsForDistinct(prodKeys[0], catKeys, refs);
      MergeKeepsRowCount(prodKeys[1..], catKeys, refs);
    }
  }

  /** prods_m["ref"].notna().sum() */
  function Matched(rows: seq<MergedRow>): (n: nat)
    ensures n <= |rows|
    decreases |rows|
  {
    if rows == [] then 0 else (if IsNa(rows[0].1) then 0 else 1) + Matched(rows[1..])
  }

  /** prods_m.loc[prods_m["ref"].isna(), "_key_pt"], in row order. */
  function UnmatchedKeys(rows: seq<MergedRow>): (keys: seq<string>)
    ensures forall k :: k in keys <==> exists i :: 0 <= i < |rows| && rows[i].0 == k && IsNa(rows[i].1)
    decreases |rows|
  {
    if rows == [] then []
    else
      var rest := UnmatchedKeys(rows[1..]);
      assert forall i :: 1 <= i < |rows| ==> rows[i] == rows[1..][i - 1];
      assert forall i :: 0 <= i < |rows| - 1 ==> rows[1..][i] == rows[i + 1];
      if IsNa(rows[0].1) then [rows[0].0] + rest else rest
  }

  /** A product whose key meets no category is listed as unmatched. */
  lemma {:induction false} UnmatchedWhenNoCategory(prodKeys: seq<string>, catKeys: seq<string>, refs: seq<PyValue>, k: string)
    requires |catKeys| == |refs| && k in prodKeys && k !in catKeys
    ensures k in UnmatchedKeys(MergeLeft(prodKeys, catKeys, refs))
    decreases |prodKeys|
  {
    var rows := MergeLeft(prodKeys, catKeys, refs);
    if prodKeys[0] == k {
      assert rows[0] == (k, NaN);
    } else {
      UnmatchedWhenNoCategory(prodKeys[1..], catKeys, refs, k);
      var tail := MergeLeft(prodKeys[1..], catKeys, refs);
      var head := RowsFor(prodKeys[0], catKeys, refs);
      var i :| 0 <= i < |tail| && tail[i].0 == k && IsNa(tail[i].1);
      assert rows[|head| + i] == tail[i];
    }
  }

  /** A product that meets a category with a non-missing reference is matched. */
  lemma {:induction false} AllMatchedWhenRefsPresent(prodKeys: seq<string>, catKeys: seq<string>, refs: seq<PyValue>)
    requires |catKeys| == |refs|
    requires forall k :: k in prodKeys ==> k in catKeys
    requires forall v :: v in refs ==> !IsNa(v)
    ensures Matched(MergeLeft(prodKeys, catKeys, refs)) == |MergeLeft(prodKeys, catKeys, refs)|
    ensures UnmatchedKeys(MergeLeft(prodKeys, catKeys, refs)) == []
  {
    var rows := MergeLeft(prodKeys, catKeys, refs);
    forall i | 0 <= i < |rows| ensures !IsNa(rows[i].1) {
      MergedRefFrom(prodKeys, catKeys, refs, i);
    }
    AllPresentMatched(rows);
  }

  lemma {:induction false} MergedRefFrom(prodKeys: seq<string>, catKeys: seq<string>, refs: seq<PyValue>, i: nat)
    requires |catKeys| == |refs|
    requires forall k :: k in prodKeys ==> k in catKeys
    requires i < |MergeLeft(prodKeys, catKeys, refs)|
    ensures MergeLeft(prodKeys, catKeys, refs)[i].1 in refs
    decreases |prodKeys|
  {
    var head := RowsFor(prodKeys[0], catKeys, refs);
    if i >= |head| {
      assert forall k :: k in prodKeys[1..] ==> k in prodKeys;
      MergedRefFrom(prodKeys[1..], catKeys, refs, i - |head|);
    }
  }

  lemma {:induction false} AllPresentMatched(rows: seq<MergedRow>)
    requires forall i :: 0 <= i < |rows| ==> !IsNa(rows[i].1)
    ensures Matched(rows) == |rows| && UnmatchedKeys(rows) == []
    decreases |rows|
  {
    if rows != [] {
      AllPresentMatched(rows[1..]);
    }
  }

  // ---------------------------------------------------------------------
  // sorted(set(...) - {""})

  /** Python's string order: by code point, a proper prefix first. */
  predicate Less(a: string, b: string)
    decreases |a|
  {
    if a == [] then b != []
    else b != [] && (a[0] < b[0] || (a[0] == b[0] && Less(a[1..], b[1..])))
  }

  lemma {:induction false} LessIrreflexive(a: string)
    ensures !Less(a, a)
    decreases |a|
  {
    if a != [] {
      LessIrreflexive(a[1..]);
    }
  }

  lemma {:induction false} LessTransitive(a: string, b: string, c: string)
    requires Less(a, b) && Less(b, c)
    ensures Less(a, c)
    decreases |a|
  {
    if a != [] && a[0] == b[0] && b[0] == c[0] {
      LessTransitive(a[1..], b[1..], c[1..]);
    }
  }

  lemma {:induction false} LessTotal(a: string, b: string)
    requires a != b
    ensures Less(a, b) || Less(b, a)
    decreases |a|
  {
    if a != [] && b != [] && a[0] == b[0] {
      assert a == [a[0]] + a[1..] && b == [b[0]] + b[1..];
      assert a[1..] != b[1..];
      LessTotal(a[1..], b[1..]);
    }
  }

  /** Increasing in Python's order, hence free of duplicates. */
  predicate StrictlySorted(s: seq<string>) {
    forall i, j :: 0 <= i < j < |s| ==> Less(s[i], s[j])
  }

  /** Insert x into a strictly sorted list unless it is already there. */
  function Insert(x: string, s: seq<string>): (r: seq<string>)
    requires StrictlySorted(s)
    ensures StrictlySorted(r)
    ensures forall y :: y in r <==> y == x || y in s
    decreases |s|
  {
    if s == [] then [x]
    else if x == s[0] then s
    else if Less(x, s[0]) then
      var r := [x] + s;
      forall i, j | 0 <= i < j < |r| ensures Less(r[i], r[j]) {
        if i == 0 && j > 1 { LessTransitive(x, s[0], s[j - 1]); }
      }
      r
    else
      LessTotal(x, s[0]);
      var rest := Insert(x, s[1..]);
      var r := [s[0]] + rest;
      forall i, j | 0 <= i < j < |r| ensures Less(r[i], r[j]) {
        if i == 0 {
          assert r[j] in rest;
          if r[j] != x {
            var k :| 0 <= k < |s[1..]| && s[1..][k] == r[j];
            assert s[k + 1] == r[j];
          }
        }
      }
      r
  }

  /** sorted(set(keys) - {""}) */
  function SortedNames(keys: seq<string>): (r: seq<string>)
    ensures StrictlySorted(r)
    ensures forall y :: y in r <==> y in keys && y != ""
    decreases |keys|
  {
    if keys == [] then []
    else
      var rest := SortedNames(keys[1..]);
      assert forall y :: y in keys <==> y == keys[0] || y in keys[1..];
      if keys[0] == "" then rest else Insert(keys[0], rest)
  }

  // ---------------------------------------------------------------------
  // The summary

  /**
   * The numbers the report shows: product rows, matched rows, whether the
   * Portuguese column was used, and the sorted unmatched names.
   */
  datatype Summary = Summary(total: nat, matched: nat, usePt: bool, unmatched: seq<string>)

  /**
   * The use_pt branch: merge, count the rows with a reference, list the
   * keys of the rows without one.
   */
  function MatchSummary(prodKeys: seq<string>, catKeys: seq<string>, refs: seq<PyValue>): (s: Summary)
    requires |catKeys| == |refs|
    ensures s.usePt && s.matched <= s.total && s.total >= |prodKeys|
    ensures StrictlySorted(s.unmatched) && "" !in s.unmatched
    ensures forall x :: x in s.unmatched ==> x in prodKeys
  {
    var merged := MergeLeft(prodKeys, catKeys, refs);
    var names := SortedNames(UnmatchedKeys(merged));
    assert forall x :: x in names ==> x in prodKeys by {
      forall x | x in names ensures x in prodKeys {
        var i :| 0 <= i < |merged| && merged[i].0 == x && IsNa(merged[i].1);
      }
    }
    Summary(|merged|, Matched(merged), true, names)
  }

  /** The branch without a Portuguese column: nothing matched, every non-empty key listed. */
  function NoMatchSummary(prodKeys: seq<string>): (s: Summary)
    ensures !s.usePt && s.matched == 0 && s.total == |prodKeys|
    ensures StrictlySorted(s.unmatched)
    ensures forall x :: x in s.unmatched <==> x in prodKeys && x != ""
  {
    Summary(|prodKeys|, 0, false, SortedNames(prodKeys))
  }

  const CatsMissing: string := "[cats] kategori adı kolonu bulunamadı (ne PT ne EN)."
  const ProductsMissing: string := "[products] product_category_name kolonu yok."

  /**
   * The script after both reads, with the key function a parameter: the
   * categories check comes first, then the products column; the merge
   * runs on the Portuguese key, or nothing matches when only the English
   * column exists. Every product row is counted, matched never exceeds
   * total, and the unmatched names are sorted, distinct, never "" and
   * always keys of product rows.
   */
  function Summarize(cats: Frame, prods: Frame, rule: KeyRule, nfkd: string -> string): (r: Result<Summary, string>)
    ensures FirstPresent(CatNameCandidates, cats.columns).None? && FirstPresent(CatEnCandidates, cats.columns).None? ==>
              r == Failure(CatsMissing)
    ensures FirstPresent(CatNameCandidates, cats.columns).Some? || FirstPresent(CatEnCandidates, cats.columns).Some? ==>
              (r.Failure? <==> FirstPresent(ProdCatCandidates, prods.columns).None?)
    ensures r.Failure? ==> r.error == CatsMissing || r.error == ProductsMissing
    ensures r.Success? ==>
              var col := Column(prods, FirstPresent(ProdCatCandidates, prods.columns).value);
              && r.value.matched <= r.value.total
              && r.value.total >= |prods.rows|
              && (r.value.usePt <==> FirstPresent(CatNameCandidates, cats.columns).Some?)
              && (!r.value.usePt ==> r.value.matched == 0 && r.value.total == |prods.rows|)
              && StrictlySorted(r.value.unmatched)
              && "" !in r.value.unmatched
              && forall x :: x in r.value.unmatched ==> x in KeyColumn(col, rule, nfkd)
  {
    var catName := FirstPresent(CatNameCandidates, cats.columns);
    var catEn := FirstPresent(CatEnCandidates, cats.columns);
    if catName.None? && catEn.None? then Failure(CatsMissing)
    else match FirstPresent(ProdCatCandidates, prods.columns)
      case None => Failure(ProductsMissing)
      case Some(prodCol) =>
        var col := Column(prods, prodCol);
        var prodKeys := KeyColumn(col, rule, nfkd);
        if catName.Some? then
          var refs := if catEn.Some? then Column(cats, catEn.value) else Column(cats, catName.value);
          Success(MatchSummary(prodKeys, KeyColumn(Column(cats, catName.value), rule, nfkd), refs))
        else Success(NoMatchSummary(prodKeys))
  }

  /**
   * The script as written keys with norm, so a product whose category
   * cell is empty (NaN) is listed under the name "nan": here a single
   * such product against an empty translation table.
   */
  lemma NanListedAsUnmatched(nfkd: string -> string)
    ensures var cats := Frame(["product_category_name"], []);
            var prods := Frame(["product_category_name"], [[NaN]]);
            Summarize(cats, prods, AsWritten, nfkd) == Success(Summary(1, 0, true, ["nan"]))
  {
    var cats := Frame(["product_category_name"], []);
    var prods := Frame(["product_category_name"], [[NaN]]);
    CandidatesPresent(cats.columns);
    CandidatesPresent(prods.columns);
    SummarizePtOnly(cats, prods, "product_category_name", "product_category_name", AsWritten, nfkd);
    assert Column(prods, "product_category_name") == [NaN];
    NanKey(nfkd);
    assert Column(cats, "product_category_name") == [];
    assert KeyColumn([], AsWritten, nfkd) == [];
    LoneNanSummary();
  }

  /** With the PT column found, no EN column and the products column found, the summary is the merge's. */
  lemma SummarizePtOnly(cats: Frame, prods: Frame, catCol: string, prodCol: string, rule: KeyRule, nfkd: string -> string)
    requires FirstPresent(CatNameCandidates, cats.columns) == Some(catCol)
    requires FirstPresent(CatEnCandidates, cats.columns) == None
    requires FirstPresent(ProdCatCandidates, prods.columns) == Some(prodCol)
    ensures Summarize(cats, prods, rule, nfkd)
            == Success(MatchSummary(KeyColumn(Column(prods, prodCol), rule, nfkd),
                                    KeyColumn(Column(cats, catCol), rule, nfkd), Column(cats, catCol)))
  {
  }

  lemma NanKey(nfkd: string -> string)
    ensures KeyColumn([NaN], AsWritten, nfkd) == ["nan"]
  {
    NormOfMissing(nfkd);
  }

  lemma LoneNanSummary()
    ensures MatchSummary(["nan"], [], []) == Summary(1, 0, true, ["nan"])
  {
    var merged := MergeLeft(["nan"], [], []);
    assert merged == [("nan", NaN)];
    assert UnmatchedKeys(merged) == ["nan"];
    assert SortedNames(["nan"]) == ["nan"];
  }

  /** A frame with only the product_category_name column: PT found, no EN, products column found. */
  lemma CandidatesPresent(columns: seq<string>)
    requires columns == ["product_category_name"]
    ensures FirstPresent(CatNameCandidates, columns) == Some("product_category_name")
    ensures FirstPresent(CatEnCandidates, columns) == None
    ensures FirstPresent(ProdCatCandidates, columns) == Some("product_category_name")
  {
    assert CatEnCandidates[0] != columns[0];
    assert CatEnCandidates[1] != columns[0];
  }

  /** A cell with a non-empty corrected key is text, keyed as norm keys it. */
  lemma CorrectedKeyOfText(v: PyValue, nfkd: string -> string)
    ensures NormCell(v, nfkd) != "" ==> v.Str? && NormCell(v, nfkd) == Norm(v, nfkd)
  {
  }

  /**
   * With the corrected key every listed name is the normalised text of a
   * product's non-empty category cell: empty cells no longer appear.
   */
  lemma ListedNameComesFromText(cats: Frame, prods: Frame, nfkd: string -> string, prodCol: string, x: string)
    requires FirstPresent(ProdCatCandidates, prods.columns) == Some(prodCol)
    requires Summarize(cats, prods, Corrected, nfkd).Success?
    requires x in Summarize(cats, prods, Corrected, nfkd).value.unmatched
    ensures exists k :: 0 <= k < |prods.rows| && Column(prods, prodCol)[k].Str? && Norm(Column(prods, prodCol)[k], nfkd) == x
  {
    var col := Column(prods, prodCol);
    var keys := KeyColumn(col, Corrected, nfkd);
    assert x in keys && x != "";
    var k :| 0 <= k < |keys| && keys[k] == x;
    CorrectedKeyOfText(col[k], nfkd);
    assert col[k].Str? && Norm(col[k], nfkd) == x;
  }

  /** rate: 0 for no products, otherwise the matched percentage (before rounding). */
  function Rate(s: Summary): (rate: real)
    requires s.matched <= s.total
    ensures 0.0 <= rate <= 100.0
    ensures s.total == 0 ==> rate == 0.0
    ensures s.total > 0 && s.matched == s.total ==> rate == 100.0
  {
    if s.total == 0 then 0.0
    else
      var t := s.total as real;
      var q := 100.0 * s.matched as real / t;
      assert q * t == 100.0 * s.matched as real;
      q
  }

  /** The unmatched product count, total - matched. */
  function UnmatchedCount(s: Summary): (n: nat)
    requires s.matched <= s.total
    ensures n + s.matched == s.total
  {
    s.total - s.matched
  }

  /** The list section: "- name" for the first 20 names, or "- (yok)" when there are none. */
  function ListingLines(names: seq<string>): (lines: seq<string>)
    ensures 1 <= |lines| <= 20
    ensures names == [] ==> lines == ["- (yok)"]
    ensures names != [] ==> |lines| == (if |names| < 20 then |names| else 20)
                            && forall i :: 0 <= i < |lines| ==> lines[i] == "- " + names[i]
  {
    if names == [] then ["- (yok)"]
    else
      var shown := if |names| < 20 then names else names[..20];
      seq(|shown|, i requires 0 <= i < |shown| => "- " + shown[i])
  }

  /**
   * The whole script up to the report text: both files read (categories
   * first), then the summary. With AsWritten this is the script as it
   * stands, an empty category cell listed as "nan"; with Corrected the
   * same run keys empty cells as "" and leaves them out of the list.
   */
  method MatchReport(argv: seq<string>, read: (string, string) -> Result<Frame, string>, nfkd: string -> string,
                     rule: KeyRule)
    returns (r: Result<Summary, string>)
    ensures var cats := ReadFrom(PathArg(argv, 1, DefaultCatsPath), Encodings, read, "None");
            var prods := ReadFrom(PathArg(argv, 2, DefaultProdsPath), Encodings, read, "None");
            && (cats.Failure? ==> r == Failure(cats.error))
            && (cats.Success? && prods.Failure? ==> r == Failure(prods.error))
            && (cats.Success? && prods.Success? ==> r == Summarize(cats.value, prods.value, rule, nfkd))
  {
    var cats := ReadCsvSmart(PathArg(argv, 1, DefaultCatsPath), read);
    if cats.Failure? {
      return Failure(cats.error);
    }
    var prods := ReadCsvSmart(PathArg(argv, 2, DefaultProdsPath), read);
    if prods.Failure? {
      return Failure(prods.error);
    }
    r := Summarize(cats.value, prods.value, rule, nfkd);
  }
}
