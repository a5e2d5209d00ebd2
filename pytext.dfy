/**
 * The Python string built-ins the repository relies on: str.strip(),
 * str.lower(), str.replace() of one character, str.startswith(),
 * str.split(sep) / sep.join(parts), str.split() on whitespace, int() and
 * float() on text, and str() of an int.
 */
module PyText {
  import opened Wrappers

  /** Python's str.isspace() for one character. */
  predicate IsSpace(c: char) {
    c == ' ' || ('\t' <= c <= '\r') || ('\U{1C}' <= c <= '\U{1F}')
    || c == '\U{85}' || c == '\U{A0}' || c == '\U{1680}'
    || ('\U{2000}' <= c <= '\U{200A}') || c == '\U{2028}' || c == '\U{2029}'
    || c == '\U{202F}' || c == '\U{205F}' || c == '\U{3000}'
  }

  /** No whitespace at either end. */
  predicate IsStripped(s: string) {
    s == [] || (!IsSpace(s[0]) && !IsSpace(s[|s| - 1]))
  }

  predicate AllSpace(s: string) {
    forall i :: 0 <= i < |s| ==> IsSpace(s[i])
  }

  /** Number of whitespace characters at the start of s. */
  function LeadingSpace(s: string): (n: nat)
    ensures n <= |s|
    ensures forall i :: 0 <= i < n ==> IsSpace(s[i])
    ensures n == |s| || !IsSpace(s[n])
  {
    if s != [] && IsSpace(s[0]) then 1 + LeadingSpace(s[1..]) else 0
  }

  /** Number of whitespace characters at the end of s. */
  function TrailingSpace(s: string): (n: nat)
    ensures n <= |s|
    ensures forall i :: |s| - n <= i < |s| ==> IsSpace(s[i])
    ensures n == |s| || !IsSpace(s[|s| - 1 - n])
  {
    if s != [] && IsSpace(s[|s| - 1]) then 1 + TrailingSpace(s[..|s| - 1]) else 0
  }

  /**
   * str.strip(): the slice of s left once every leading and trailing
   * whitespace character is removed.
   */
  function Strip(s: string): (r: string)
    ensures IsStripped(r)
    ensures LeadingSpace(s) + |r| <= |s|
    ensures r == s[LeadingSpace(s)..LeadingSpace(s) + |r|]
    ensures forall i :: LeadingSpace(s) + |r| <= i < |s| ==> IsSpace(s[i])
  {
    var t := s[LeadingSpace(s)..];
    t[..|t| - TrailingSpace(t)]
  }

  /** A string strips to "" exactly when it is all whitespace. */
  lemma StripEmptyIffAllSpace(s: string)
    ensures Strip(s) == "" <==> AllSpace(s)
  {
  }

  /** Stripping a string with no surrounding whitespace leaves it unchanged. */
  lemma StripOfStripped(s: string)
    requires IsStripped(s)
    ensures Strip(s) == s
  {
    assert LeadingSpace(s) == 0;
    if s != [] {
      assert TrailingSpace(s) == 0;
    }
  }

  /** Whitespace in front adds to the leading run. */
  lemma {:induction false} LeadingSpaceAfterPad(p: string, t: string)
    requires AllSpace(p)
    ensures LeadingSpace(p + t) == |p| + LeadingSpace(t)
    decreases |p|
  {
    if p != [] {
      assert (p + t)[0] == p[0] && IsSpace(p[0]);
      assert (p + t)[1..] == p[1..] + t;
      assert AllSpace(p[1..]) by {
        forall i | 0 <= i < |p| - 1 ensures IsSpace(p[1..][i]) {
          assert p[1..][i] == p[i + 1];
        }
      }
      LeadingSpaceAfterPad(p[1..], t);
    } else {
      assert p + t == t;
    }
  }

  /**
   * When the leading run ends at a, s[a + n - 1] is not whitespace and
   * everything after it is, strip keeps exactly n characters.
   */
  lemma StripLength(s: string, n: nat)
    requires 0 < n && LeadingSpace(s) + n <= |s|
    requires !IsSpace(s[LeadingSpace(s) + n - 1])
    requires forall i :: LeadingSpace(s) + n <= i < |s| ==> IsSpace(s[i])
    ensures |Strip(s)| == n
  {
    var a := LeadingSpace(s);
    var r := Strip(s);
    assert n <= |r|;
    assert r[|r| - 1] == s[a + |r| - 1];
  }

  /** Stripping text padded with whitespace on both sides gives back the text. */
  lemma StripPadded(p: string, u: string, q: string)
    requires AllSpace(p) && AllSpace(q)
    requires u != [] && IsStripped(u)
    ensures Strip(p + u + q) == u
  {
    var s := p + u + q;
    assert s == p + (u + q);
    LeadingSpaceAfterPad(p, u + q);
    assert LeadingSpace(u + q) == 0 by { assert (u + q)[0] == u[0]; }
    assert s[|p| + |u| - 1] == u[|u| - 1];
    assert forall i :: |p| + |u| <= i < |s| ==> s[i] == q[i - |p| - |u|];
    StripLength(s, |u|);
    assert s[|p|..|p| + |u|] == u;
  }

  /** str.strip() is idempotent. */
  lemma StripIdempotent(s: string)
    ensures Strip(Strip(s)) == Strip(s)
  {
    StripOfStripped(Strip(s));
  }

  /** str.lower() restricted to ASCII letters. */
  function LowerChar(c: char): (r: char)
    ensures !('A' <= r <= 'Z')
    ensures 'A' <= c <= 'Z' ==> r as int == c as int + 32
    ensures !('A' <= c <= 'Z') ==> r == c
  {
    if 'A' <= c <= 'Z' then (c as int + 32) as char else c
  }

  function Lower(s: string): (r: string)
    ensures |r| == |s|
    ensures forall i :: 0 <= i < |s| ==> r[i] == LowerChar(s[i])
  {
    seq(|s|, i requires 0 <= i < |s| => LowerChar(s[i]))
  }

  /** str.replace(a, b) for single characters a != b. */
  function Replace(s: string, a: char, b: char): (r: string)
    requires a != b
    ensures |r| == |s| && a !in r
    ensures forall i :: 0 <= i < |s| ==> r[i] == (if s[i] == a then b else s[i])
  {
    seq(|s|, i requires 0 <= i < |s| => if s[i] == a then b else s[i])
  }

  /** Python truthiness of an optional text: None and "" are false. */
  predicate Truthy(o: Option<string>) {
    o.Some? && o.value != ""
  }

  predicate StartsWith(s: string, prefix: string) {
    |prefix| <= |s| && s[..|prefix|] == prefix
  }

  // ---------------------------------------------------------------------
  // str.split(d) and d.join(parts) for a one-character separator d

  function Split(s: string, d: char): (parts: seq<string>)
    ensures |parts| >= 1
    ensures forall i :: 0 <= i < |parts| ==> d !in parts[i]
    decreases |s|
  {
    if s == [] then [""]
    else
      var rest := Split(s[1..], d);
      if s[0] == d then [""] + rest
      else [[s[0]] + rest[0]] + rest[1..]
  }

  function Join(parts: seq<string>, d: char): string
    decreases |parts|
  {
    if parts == [] then ""
    else if |parts| == 1 then parts[0]
    else parts[0] + [d] + Join(parts[1..], d)
  }

  lemma JoinCons(c: char, parts: seq<string>, d: char)
    requires |parts| >= 1
    ensures Join([[c] + parts[0]] + parts[1..], d) == [c] + Join(parts, d)
  {
    var q := [[c] + parts[0]] + parts[1..];
    assert q[1..] == parts[1..];
    if |parts| > 1 {
      assert Join(q, d) == ([c] + parts[0]) + [d] + Join(parts[1..], d);
    }
  }

  /** Joining the pieces of a split gives back the original text. */
  lemma {:induction false} JoinSplit(s: string, d: char)
    ensures Join(Split(s, d), d) == s
    decreases |s|
  {
    if s != [] {
      JoinSplit(s[1..], d);
      var rest := Split(s[1..], d);
      if s[0] == d {
        assert Join([""] + rest, d) == "" + [d] + Join(rest, d) by {
          assert ([""] + rest)[1..] == rest;
        }
        assert s == [s[0]] + s[1..];
      } else {
        JoinCons(s[0], rest, d);
        assert s == [s[0]] + s[1..];
      }
    }
  }

  /** A piece without the separator splits to itself. */
  lemma {:induction false} SplitNoSeparator(a: string, d: char)
    requires d !in a
    ensures Split(a, d) == [a]
    decreases |a|
  {
    if a != [] {
      SplitNoSeparator(a[1..], d);
      assert [a[0]] + a[1..] == a;
    }
  }

  /** Split(a + [d] + b) cuts at the first separator when a has none. */
  lemma {:induction false} SplitAtFirst(a: string, b: string, d: char)
    requires d !in a
    ensures Split(a + [d] + b, d) == [a] + Split(b, d)
    decreases |a|
  {
    var s := a + [d] + b;
    if a == [] {
      assert s[1..] == b;
    } else {
      assert s[1..] == a[1..] + [d] + b;
      SplitAtFirst(a[1..], b, d);
      assert [a[0]] + a[1..] == a;
    }
  }

  /** Splitting a join of separator-free pieces gives back the pieces. */
  lemma {:induction false} SplitJoin(parts: seq<string>, d: char)
    requires |parts| >= 1
    requires forall i :: 0 <= i < |parts| ==> d !in parts[i]
    ensures Split(Join(parts, d), d) == parts
    decreases |parts|
  {
    if |parts| == 1 {
      SplitNoSeparator(parts[0], d);
    } else {
      SplitJoin(parts[1..], d);
      SplitAtFirst(parts[0], Join(parts[1..], d), d);
      assert [parts[0]] + parts[1..] == parts;
    }
  }

  // ---------------------------------------------------------------------
  // str.split() with no argument: the non-empty runs of non-whitespace

  predicate IsWord(w: string) {
    w != [] && forall i :: 0 <= i < |w| ==> !IsSpace(w[i])
  }

  /** Split at every whitespace character (empty pieces kept). */
  function SplitSpace(s: string): (parts: seq<string>)
    ensures |parts| >= 1
    ensures forall i, j :: 0 <= i < |parts| && 0 <= j < |parts[i]| ==> !IsSpace(parts[i][j])
    decreases |s|
  {
    if s == [] then [""]
    else
      var rest := SplitSpace(s[1..]);
      if IsSpace(s[0]) then [""] + rest
      else [[s[0]] + rest[0]] + rest[1..]
  }

  function NonEmpty(parts: seq<string>): (r: seq<string>)
    ensures forall i :: 0 <= i < |r| ==> r[i] != [] && r[i] in parts
    decreases |parts|
  {
    if parts == [] then []
    else if parts[0] == [] then NonEmpty(parts[1..])
    else [parts[0]] + NonEmpty(parts[1..])
  }

  /** str.split(): every word is non-empty and holds no whitespace. */
  function Words(s: string): (ws: seq<string>)
    ensures forall i :: 0 <= i < |ws| ==> IsWord(ws[i])
  {
    var parts := SplitSpace(s);
    var ws := NonEmpty(parts);
    assert forall i :: 0 <= i < |ws| ==> ws[i] in parts;
    ws
  }

  /**
   * Text made of single ' '-separated words: no whitespace at the ends,
   * no whitespace but ' ', and never two spaces in a row.
   */
  predicate SingleSpaced(s: string) {
    && IsStripped(s)
    && (forall i :: 0 <= i < |s| && IsSpace(s[i]) ==> s[i] == ' ')
    && (forall i :: 0 <= i < |s| - 1 ==> !(s[i] == ' ' && s[i + 1] == ' '))
  }

  /** " ".join(words) of whitespace-free, non-empty words is single spaced. */
  lemma {:induction false} JoinWordsSingleSpaced(ws: seq<string>)
    requires forall i :: 0 <= i < |ws| ==> IsWord(ws[i])
    ensures SingleSpaced(Join(ws, ' '))
    decreases |ws|
  {
    if |ws| > 1 {
      JoinWordsSingleSpaced(ws[1..]);
      var w := ws[0];
      var t := Join(ws[1..], ' ');
      var s := w + [' '] + t;
      assert s == Join(ws, ' ');
      assert t != [] by { assert IsWord(ws[1]); assert |t| >= |ws[1]| by { JoinLength(ws[1..], ' '); } }
      forall i | 0 <= i < |s| && IsSpace(s[i]) ensures s[i] == ' ' {
        if i > |w| { assert s[i] == t[i - |w| - 1]; }
      }
      forall i | 0 <= i < |s| - 1 ensures !(s[i] == ' ' && s[i + 1] == ' ') {
        if i < |w| - 1 {
          assert s[i] == w[i];
        } else if i == |w| - 1 {
          assert s[i] == w[i];
        } else if i == |w| {
          assert s[i + 1] == t[0];
        } else {
          assert s[i] == t[i - |w| - 1] && s[i + 1] == t[i - |w|];
        }
      }
      assert s[0] == w[0];
      assert s[|s| - 1] == t[|t| - 1];
    }
  }

  lemma {:induction false} JoinLength(ws: seq<string>, d: char)
    requires |ws| >= 1
    ensures |Join(ws, d)| >= |ws[0]|
  {
  }

  /** The pieces of str.split() hold only characters of the text. */
  lemma {:induction false} SplitSpaceChars(s: string)
    ensures forall i, c :: 0 <= i < |SplitSpace(s)| && c in SplitSpace(s)[i] ==> c in s
    decreases |s|
  {
    if s != [] {
      SplitSpaceChars(s[1..]);
      var rest := SplitSpace(s[1..]);
      assert forall c :: c in s[1..] ==> c in s;
      if !IsSpace(s[0]) {
        var parts := SplitSpace(s);
        assert parts == [[s[0]] + rest[0]] + rest[1..];
        forall i, c | 0 <= i < |parts| && c in parts[i] ensures c in s {
          if i == 0 {
            assert c == s[0] || c in rest[0];
          } else {
            assert parts[i] == rest[i];
          }
        }
      }
    }
  }

  /** Every character of a join is the separator or a character of a part. */
  lemma {:induction false} JoinChars(parts: seq<string>, d: char)
    ensures forall c :: c in Join(parts, d) ==> c == d || exists i :: 0 <= i < |parts| && c in parts[i]
    decreases |parts|
  {
    if |parts| > 1 {
      JoinChars(parts[1..], d);
      forall c | c in Join(parts, d) ensures c == d || exists i :: 0 <= i < |parts| && c in parts[i] {
        if c != d && c !in parts[0] {
          assert c in Join(parts[1..], d);
          var i :| 0 <= i < |parts| - 1 && c in parts[1..][i];
          assert c in parts[i + 1];
        }
      }
    }
  }

  /** " ".join(s.split()) only drops whitespace: its characters are ' ' or come from s. */
  lemma WordsJoinChars(s: string)
    ensures forall c :: c in Join(Words(s), ' ') ==> c == ' ' || c in s
  {
    SplitSpaceChars(s);
    JoinChars(Words(s), ' ');
  }

  /** Text without whitespace is one word to str.split(), or none when empty. */
  lemma {:induction false} SplitSpaceOfWord(w: string)
    requires forall i :: 0 <= i < |w| ==> !IsSpace(w[i])
    ensures SplitSpace(w) == [w]
    decreases |w|
  {
    if w != [] {
      SplitSpaceOfWord(w[1..]);
      assert [w[0]] + w[1..] == w;
    }
  }

  lemma WordsOfWord(w: string)
    requires IsWord(w)
    ensures Words(w) == [w]
  {
    SplitSpaceOfWord(w);
    assert NonEmpty([w]) == [w] by { assert [w][1..] == []; }
  }

  /** A character of a part is a character of the join. */
  lemma {:induction false} JoinHasPart(parts: seq<string>, d: char, j: nat, c: char)
    requires j < |parts| && c in parts[j]
    ensures c in Join(parts, d)
    decreases |parts|
  {
    if |parts| > 1 && j > 0 {
      JoinHasPart(parts[1..], d, j - 1, c);
    }
  }

  /** A non-empty part survives NonEmpty. */
  lemma {:induction false} NonEmptyKeeps(parts: seq<string>, j: nat)
    requires j < |parts| && parts[j] != []
    ensures parts[j] in NonEmpty(parts)
    decreases |parts|
  {
    if j > 0 {
      assert parts[1..][j - 1] == parts[j];
      NonEmptyKeeps(parts[1..], j - 1);
    }
  }

  /** Every non-whitespace character of s lies in some piece of SplitSpace(s). */
  lemma {:induction false} SplitSpaceKeeps(s: string, i: nat)
    requires i < |s| && !IsSpace(s[i])
    ensures exists j :: 0 <= j < |SplitSpace(s)| && s[i] in SplitSpace(s)[j]
    decreases |s|
  {
    var rest := SplitSpace(s[1..]);
    if i == 0 {
      assert s[0] in SplitSpace(s)[0];
    } else {
      assert s[1..][i - 1] == s[i];
      SplitSpaceKeeps(s[1..], i - 1);
      var j :| 0 <= j < |rest| && s[i] in rest[j];
      if IsSpace(s[0]) {
        assert SplitSpace(s)[j + 1] == rest[j];
      } else if j == 0 {
        assert SplitSpace(s)[0] == [s[0]] + rest[0];
      } else {
        assert SplitSpace(s)[j] == rest[j];
      }
    }
  }

  /**
   * " ".join(s.split()) drops only whitespace: every other character of s
   * is still there (WordsJoinChars gives the other direction).
   */
  lemma WordsKeepNonSpace(s: string)
    ensures forall c :: c in s && !IsSpace(c) ==> c in Join(Words(s), ' ')
  {
    forall c | c in s && !IsSpace(c) ensures c in Join(Words(s), ' ') {
      var i :| 0 <= i < |s| && s[i] == c;
      SplitSpaceKeeps(s, i);
      var parts := SplitSpace(s);
      var j :| 0 <= j < |parts| && c in parts[j];
      NonEmptyKeeps(parts, j);
      var ws := Words(s);
      var k :| 0 <= k < |ws| && ws[k] == parts[j];
      JoinHasPart(ws, ' ', k, c);
    }
  }

  /** A whitespace-free piece followed by ' ' is cut off as a piece of its own. */
  lemma {:induction false} SplitSpaceAfterWord(w: string, t: string)
    requires forall i :: 0 <= i < |w| ==> !IsSpace(w[i])
    ensures SplitSpace(w + [' '] + t) == [w] + SplitSpace(t)
    decreases |w|
  {
    var s := w + [' '] + t;
    if w == [] {
      assert s[1..] == t;
    } else {
      assert s[1..] == w[1..] + [' '] + t;
      SplitSpaceAfterWord(w[1..], t);
      assert [w[0]] + w[1..] == w;
    }
  }

  /** The words of "w t" are w followed by the words of t. */
  lemma WordsAfterWord(w: string, t: string)
    requires IsWord(w)
    ensures Words(w + [' '] + t) == [w] + Words(t)
  {
    SplitSpaceAfterWord(w, t);
    var parts := [w] + SplitSpace(t);
    assert parts[1..] == SplitSpace(t);
  }

  /**
   * Single-spaced text is its own " ".join(s.split()): the split finds
   * exactly the words between the spaces, none dropped and none merged.
   */
  lemma {:induction false} WordsOfSingleSpaced(s: string)
    requires SingleSpaced(s)
    ensures Join(Words(s), ' ') == s
    decreases |s|
  {
    if s == [] {
      assert NonEmpty([""]) == [];
    } else {
      match IndexOf(s, ' ')
      case None =>
        WordsOfWord(s);
      case Some(i) =>
        var w := s[..i];
        var t := s[i + 1..];
        assert i != 0 && i != |s| - 1;
        assert s == w + [' '] + t;
        assert IsWord(w) by {
          forall k | 0 <= k < |w| ensures !IsSpace(w[k]) {
            assert w[k] == s[k] && w[k] != ' ';
          }
        }
        assert SingleSpaced(t) by {
          assert t[0] == s[i + 1] && t[|t| - 1] == s[|s| - 1];
          forall k | 0 <= k < |t| && IsSpace(t[k]) ensures t[k] == ' ' {
            assert t[k] == s[i + 1 + k];
          }
          forall k | 0 <= k < |t| - 1 ensures !(t[k] == ' ' && t[k + 1] == ' ') {
            assert t[k] == s[i + 1 + k] && t[k + 1] == s[i + 2 + k];
          }
        }
        WordsOfSingleSpaced(t);
        WordsAfterWord(w, t);
        var ws := [w] + Words(t);
        assert Words(t) != [];
        assert ws[1..] == Words(t);
    }
  }

  // ---------------------------------------------------------------------
  // int(text), str(int)

  predicate IsDigit(c: char) { '0' <= c <= '9' }

  predicate AllDigits(s: string) {
    forall i :: 0 <= i < |s| ==> IsDigit(s[i])
  }

  function DigitsValue(s: string): nat
    requires AllDigits(s)
    decreases |s|
  {
    if s == [] then 0
    else
      assert IsDigit(s[|s| - 1]);
      DigitsValue(s[..|s| - 1]) * 10 + (s[|s| - 1] as int - '0' as int)
  }

  /** What Python's int() accepts once the text is stripped: an optional sign and one or more digits. */
  predicate IsIntLiteral(t: string) {
    || (|t| > 0 && AllDigits(t))
    || (|t| > 1 && (t[0] == '+' || t[0] == '-') && AllDigits(t[1..]))
  }

  /** int(s); None where Python raises ValueError. */
  function ParseInt(s: string): (r: Option<int>)
    ensures r.Some? <==> IsIntLiteral(Strip(s))
    ensures Strip(s) == "" ==> r == None
  {
    var t := Strip(s);
    if |t| > 0 && AllDigits(t) then Some(DigitsValue(t))
    else if |t| > 1 && (t[0] == '+' || t[0] == '-') && AllDigits(t[1..]) then
      var v: int := DigitsValue(t[1..]);
      Some(if t[0] == '-' then -v else v)
    else None
  }

  function DigitChar(d: nat): (c: char)
    requires d < 10
    ensures IsDigit(c) && c as int - '0' as int == d
  {
    ('0' as int + d) as char
  }

  /** str(n) for n >= 0. */
  function ShowNat(n: nat): (s: string)
    ensures |s| > 0 && AllDigits(s)
    decreases n
  {
    if n < 10 then [DigitChar(n)] else ShowNat(n / 10) + [DigitChar(n % 10)]
  }

  /** str(n). */
  function ShowInt(n: int): string {
    if n < 0 then "-" + ShowNat(-n) else ShowNat(n)
  }

  lemma {:induction false} DigitsOfShowNat(n: nat)
    ensures DigitsValue(ShowNat(n)) == n
    decreases n
  {
    if n >= 10 {
      DigitsOfShowNat(n / 10);
      var s := ShowNat(n);
      assert s[..|s| - 1] == ShowNat(n / 10);
    }
  }

  /** int(str(n)) == n. */
  lemma ParseShow(n: int)
    ensures ParseInt(ShowInt(n)) == Some(n)
  {
    var s := ShowInt(n);
    if n < 0 {
      ParseShowNegative(-n);
      assert s == "-" + ShowNat(-n);
    } else {
      ParseShowNat(n);
      assert s == ShowNat(n);
    }
  }

  lemma ParseShowNat(n: nat)
    ensures ParseInt(ShowNat(n)) == Some(n)
  {
    var s := ShowNat(n);
    assert IsDigit(s[0]) && IsDigit(s[|s| - 1]);
    StripOfStripped(s);
    DigitsOfShowNat(n);
  }

  lemma ParseShowNegative(n: nat)
    requires n > 0
    ensures ParseInt("-" + ShowNat(n)) == Some(-(n as int))
  {
    var d := ShowNat(n);
    var s := "-" + d;
    assert s[|s| - 1] == d[|d| - 1] && IsDigit(d[|d| - 1]);
    StripOfStripped(s);
    var t := Strip(s);
    assert t[1..] == d;
    assert !AllDigits(t) by { assert !IsDigit(t[0]); }
    assert |t| > 1 && t[0] == '-' && AllDigits(t[1..]);
    DigitsOfShowNat(n);
    assert DigitsValue(t[1..]) == n;
  }

  /** str() is injective on int, so distinct numbers have distinct text. */
  lemma ShowIntInjective(a: int, b: int)
    requires a != b
    ensures ShowInt(a) != ShowInt(b)
  {
    ParseShow(a);
    ParseShow(b);
  }

  // ---------------------------------------------------------------------
  // float(text), restricted to plain decimals

  function Pow10(k: nat): (p: nat)
    ensures p >= 1
  {
    if k == 0 then 1 else 10 * Pow10(k - 1)
  }

  function IndexOf(s: string, c: char): (r: Option<nat>)
    ensures r.Some? ==> r.value < |s| && s[r.value] == c && c !in s[..r.value]
    ensures r.None? ==> c !in s
  {
    if s == [] then None
    else if s[0] == c then Some(0)
    else match IndexOf(s[1..], c)
      case None => None
      case Some(k) => assert s[..k + 1] == [s[0]] + s[1..][..k]; Some(k + 1)
  }

  /** An unsigned decimal: digits with at most one '.', at least one digit. */
  function UnsignedDecimal(b: string): Option<real> {
    match IndexOf(b, '.')
    case None => if |b| > 0 && AllDigits(b) then Some(DigitsValue(b) as real) else None
    case Some(k) =>
      var ip := b[..k];
      var fp := b[k + 1..];
      if |ip| + |fp| > 0 && AllDigits(ip) && AllDigits(fp)
      then Some(DigitsValue(ip) as real + DigitsValue(fp) as real / Pow10(|fp|) as real)
      else None
  }

  /** float(s); None where Python raises ValueError. */
  function ParseFloat(s: string): (r: Option<real>)
    ensures Strip(s) == "" ==> r == None
  {
    var t := Strip(s);
    if |t| > 0 && (t[0] == '+' || t[0] == '-') then
      match UnsignedDecimal(t[1..])
      case None => None
      case Some(v) => Some(if t[0] == '-' then -v else v)
    else UnsignedDecimal(t)
  }

  /** float() agrees with int() on every integer literal. */
  lemma FloatExtendsInt(s: string)
    requires ParseInt(s).Some?
    ensures ParseFloat(s) == Some(ParseInt(s).value as real)
  {
    var t := Strip(s);
    if |t| > 0 && AllDigits(t) {
      DigitsHaveNoDot(t);
    } else {
      DigitsHaveNoDot(t[1..]);
    }
  }

  /** The value of digits ip, a point and digits fp: ip + fp / 10^|fp|. */
  function DecimalValue(ip: string, fp: string): real
    requires AllDigits(ip) && AllDigits(fp)
  {
    DigitsValue(ip) as real + DigitsValue(fp) as real / Pow10(|fp|) as real
  }

  /** float() of an unsigned decimal "ip.fp" is its decimal value. */
  lemma UnsignedDecimalValue(ip: string, fp: string)
    requires AllDigits(ip) && AllDigits(fp) && |ip| + |fp| > 0
    ensures UnsignedDecimal(ip + "." + fp) == Some(DecimalValue(ip, fp))
  {
    var b := ip + "." + fp;
    DigitsHaveNoDot(ip);
    assert b[|ip|] == '.' && b[..|ip|] == ip && b[|ip| + 1..] == fp;
  }

  /** "ip.fp" with digits on the left has no surrounding whitespace. */
  lemma DecimalStripped(ip: string, fp: string)
    requires AllDigits(ip) && AllDigits(fp) && |ip| > 0
    ensures IsStripped(ip + "." + fp) && IsDigit((ip + "." + fp)[0])
  {
    var u := ip + "." + fp;
    assert u[0] == ip[0];
    if fp != [] {
      assert u[|u| - 1] == fp[|fp| - 1];
    }
  }

  /**
   * float() of a fractional numeral such as a coordinate "-23.5456": an
   * optional minus, digits, a point and digits read as the signed
   * decimal value.
   */
  lemma ParseFloatDecimal(negative: bool, ip: string, fp: string)
    requires AllDigits(ip) && AllDigits(fp) && |ip| > 0
    ensures var s := (if negative then "-" else "") + ip + "." + fp;
            ParseFloat(s) == Some(if negative then -DecimalValue(ip, fp) else DecimalValue(ip, fp))
  {
    if negative {
      assert "-" + ip + "." + fp == "-" + (ip + "." + fp);
      ParseFloatNegative(ip, fp);
    } else {
      assert "" + ip + "." + fp == ip + "." + fp;
      ParseFloatUnsigned(ip, fp);
    }
  }

  lemma ParseFloatUnsigned(ip: string, fp: string)
    requires AllDigits(ip) && AllDigits(fp) && |ip| > 0
    ensures ParseFloat(ip + "." + fp) == Some(DecimalValue(ip, fp))
  {
    DecimalStripped(ip, fp);
    UnsignedDecimalValue(ip, fp);
    ParseFloatUnsignedText(ip + "." + fp, DecimalValue(ip, fp));
  }

  lemma ParseFloatNegative(ip: string, fp: string)
    requires AllDigits(ip) && AllDigits(fp) && |ip| > 0
    ensures ParseFloat("-" + (ip + "." + fp)) == Some(-DecimalValue(ip, fp))
  {
    var u, v := ip + "." + fp, DecimalValue(ip, fp);
    assert IsStripped(u) && u != [] && IsDigit(u[0]) by { DecimalStripped(ip, fp); }
    assert UnsignedDecimal(u) == Some(v) by { UnsignedDecimalValue(ip, fp); }
    ParseFloatMinus(u, v);
  }

  /** Stripped text starting with a digit is read by UnsignedDecimal as it is. */
  lemma ParseFloatUnsignedText(u: string, v: real)
    requires IsStripped(u) && u != [] && IsDigit(u[0]) && UnsignedDecimal(u) == Some(v)
    ensures ParseFloat(u) == Some(v)
  {
    StripOfStripped(u);
  }

  /** A minus in front of such text negates its value. */
  lemma ParseFloatMinus(u: string, v: real)
    requires IsStripped(u) && u != [] && IsDigit(u[0]) && UnsignedDecimal(u) == Some(v)
    ensures ParseFloat("-" + u) == Some(-v)
  {
    var s := "-" + u;
    assert s[0] == '-' && s[|s| - 1] == u[|u| - 1];
    StripOfStripped(s);
    assert s[1..] == u;
  }

  lemma DigitsHaveNoDot(s: string)
    requires AllDigits(s)
    ensures '.' !in s
  {
    forall i | 0 <= i < |s| ensures s[i] != '.' {
      assert IsDigit(s[i]);
    }
  }
}
