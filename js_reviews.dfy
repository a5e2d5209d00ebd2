/**
 * frontend/js/reviews.js: loadReviewStats reads the two score inputs with
 * parseInt, checks them in a fixed order, and only when every check passes
 * fetches /reviews/stats with the parsed scores. The page is a class whose
 * fields are the error text, the results area and the URLs fetched so far;
 * the network is a parameter from URL to what came back.
 */
module JsReviews {
  import opened Wrappers
  import opened PyText
  import opened Http
  import RouteReviews

  const ApiBaseUrl: string := "http://localhost:5000"

  // ---------------------------------------------------------------------
  // parseInt(text) with no radix

  /** JavaScript's WhiteSpace and LineTerminator characters. */
  predicate IsJsSpace(c: char) {
    ('\t' <= c <= '\r') || c == ' ' || c == '\U{A0}' || c == '\U{FEFF}' || c == '\U{1680}'
    || ('\U{2000}' <= c <= '\U{200A}') || c == '\U{2028}' || c == '\U{2029}'
    || c == '\U{202F}' || c == '\U{205F}' || c == '\U{3000}'
  }

  function JsLeadingSpace(s: string): (n: nat)
    ensures n <= |s|
    ensures forall i :: 0 <= i < n ==> IsJsSpace(s[i])
    ensures n == |s| || !IsJsSpace(s[n])
  {
    if s != [] && IsJsSpace(s[0]) then 1 + JsLeadingSpace(s[1..]) else 0
  }

  predicate IsHexDigit(c: char) {
    IsDigit(c) || 'a' <= c <= 'f' || 'A' <= c <= 'F'
  }

  function HexDigitValue(c: char): (v: nat)
    requires IsHexDigit(c)
    ensures v < 16
  {
    if IsDigit(c) then c as int - '0' as int
    else if 'a' <= c <= 'f' then c as int - 'a' as int + 10
    else c as int - 'A' as int + 10
  }

  /** The length of the longest prefix of s whose characters are digits of the radix (10 or 16). */
  function DigitRun(s: string, hex: bool): (n: nat)
    ensures n <= |s|
    ensures forall i :: 0 <= i < n ==> (if hex then IsHexDigit(s[i]) else IsDigit(s[i]))
    ensures n < |s| ==> !(if hex then IsHexDigit(s[n]) else IsDigit(s[n]))
  {
    if s != [] && (if hex then IsHexDigit(s[0]) else IsDigit(s[0])) then 1 + DigitRun(s[1..], hex) else 0
  }

  function HexValue(s: string): nat
    requires forall i :: 0 <= i < |s| ==> IsHexDigit(s[i])
    decreases |s|
  {
    if s == [] then 0 else 16 * HexValue(s[..|s| - 1]) + HexDigitValue(s[|s| - 1])
  }

  /** A number parseInt can return: NaN, or an integer. */
  datatype JsNumber = NaN | Num(value: int)

  predicate HasHexPrefix(u: string) {
    |u| >= 2 && u[0] == '0' && (u[1] == 'x' || u[1] == 'X')
  }

  /**
   * parseInt(s): leading white space skipped, an optional sign, "0x"/"0X"
   * selecting base 16, then the longest run of digits; NaN when that run
   * is empty. Whatever follows the run is ignored.
   */
  function JsParseInt(s: string): (r: JsNumber) {
    var t := s[JsLeadingSpace(s)..];
    var negative := t != [] && t[0] == '-';
    var u := if t != [] && (t[0] == '-' || t[0] == '+') then t[1..] else t;
    var sign := if negative then -1 else 1;
    if HasHexPrefix(u) then
      var n := DigitRun(u[2..], true);
      if n == 0 then NaN else Num(sign * HexValue(u[2..][..n]))
    else
      var n := DigitRun(u, false);
      if n == 0 then NaN else Num(sign * DigitsValue(u[..n]))
  }

  /** An empty or all-blank input is NaN. */
  lemma BlankIsNaN(s: string)
    requires forall i :: 0 <= i < |s| ==> IsJsSpace(s[i])
    ensures JsParseInt(s) == NaN
  {
    assert JsLeadingSpace(s) == |s|;
  }

  lemma ShowNatHead(n: nat)
    ensures n > 0 ==> ShowNat(n)[0] != '0'
    decreases n
  {
    if n >= 10 {
      ShowNatHead(n / 10);
    }
  }

  /**
   * A decimal numeral followed by anything that is not a digit parses to
   * its value: parseInt reads str(n) back, and a trailing unit, fraction
   * or word is dropped.
   */
  lemma ParseShowThenTail(n: nat, tail: string)
    requires tail == [] || !IsDigit(tail[0])
    requires n == 0 ==> tail == [] || (tail[0] != 'x' && tail[0] != 'X')
    ensures JsParseInt(ShowNat(n) + tail) == Num(n)
  {
    var d := ShowNat(n);
    var s := d + tail;
    assert !IsJsSpace(s[0]) && !(s[0] == '-' || s[0] == '+') by { assert s[0] == d[0] && IsDigit(d[0]); }
    assert s[JsLeadingSpace(s)..] == s;
    ShowNatHead(n);
    assert !HasHexPrefix(s) by {
      if n == 0 {
        assert |d| == 1;
        if |s| >= 2 { assert s[1] == tail[0]; }
      } else {
        assert s[0] == d[0];
      }
    }
    DigitRunOfNumeral(d, tail);
    assert s[..|d|] == d;
    DigitsOfShowNat(n);
  }

  lemma {:induction false} DigitRunOfNumeral(d: string, tail: string)
    requires AllDigits(d)
    requires tail == [] || !IsDigit(tail[0])
    ensures DigitRun(d + tail, false) == |d|
    decreases |d|
  {
    if d == [] {
      assert d + tail == tail;
    } else {
      assert (d + tail)[1..] == d[1..] + tail;
      DigitRunOfNumeral(d[1..], tail);
    }
  }

  // ---------------------------------------------------------------------
  // The validation chain

  const NotNumbers: string := "\U{26A0}\U{FE0F} Min and Max scores must be valid numbers"
  const MinOutOfRange: string := "\U{26A0}\U{FE0F} Min score must be between 1 and 5"
  const MaxOutOfRange: string := "\U{26A0}\U{FE0F} Max score must be between 1 and 5"
  const MinAboveMax: string := "\U{26A0}\U{FE0F} Min score cannot be greater than Max score"

  /** The verdict of the checks: the message shown, or the two scores to request. */
  datatype Check = Invalid(message: string) | Valid(minScore: int, maxScore: int)

  predicate InRange(x: JsNumber) {
    x.Num? && 1 <= x.value <= 5
  }

  /**
   * The checks in order: a NaN score, the minimum's range, the maximum's
   * range, then min > max. Equal scores pass.
   */
  function CheckScores(minText: string, maxText: string): (c: Check)
    ensures var lo := JsParseInt(minText);
            var hi := JsParseInt(maxText);
            && (lo.NaN? || hi.NaN? ==> c == Invalid(NotNumbers))
            && (lo.Num? && hi.Num? && !InRange(lo) ==> c == Invalid(MinOutOfRange))
            && (InRange(lo) && hi.Num? && !InRange(hi) ==> c == Invalid(MaxOutOfRange))
            && (InRange(lo) && InRange(hi) && lo.value > hi.value ==> c == Invalid(MinAboveMax))
            && (InRange(lo) && InRange(hi) && lo.value <= hi.value ==> c == Valid(lo.value, hi.value))
  {
    var lo := JsParseInt(minText);
    var hi := JsParseInt(maxText);
    if lo.NaN? || hi.NaN? then Invalid(NotNumbers)
    else if lo.value < 1 || lo.value > 5 then Invalid(MinOutOfRange)
    else if hi.value < 1 || hi.value > 5 then Invalid(MaxOutOfRange)
    else if lo.value > hi.value then Invalid(MinAboveMax)
    else Valid(lo.value, hi.value)
  }

  /** Both directions: the checks pass exactly for two parsed scores with 1 <= min <= max <= 5. */
  lemma ValidIff(minText: string, maxText: string)
    ensures CheckScores(minText, maxText).Valid? <==>
            var lo := JsParseInt(minText);
            var hi := JsParseInt(maxText);
            lo.Num? && hi.Num? && 1 <= lo.value <= hi.value <= 5
  {
  }

  /** Equal scores are accepted. */
  lemma EqualScoresAccepted(n: nat)
    requires 1 <= n <= 5
    ensures CheckScores(ShowNat(n), ShowNat(n)) == Valid(n, n)
  {
    ParseShowThenTail(n, []);
    assert ShowNat(n) + [] == ShowNat(n);
  }

  /** The URL of the request, the scores written as decimal numerals. */
  function StatsUrl(minScore: int, maxScore: int): string {
    ApiBaseUrl + "/reviews/stats?min_score=" + ShowInt(minScore) + "&max_score=" + ShowInt(maxScore)
  }

  /** The query arguments the server reads from StatsUrl(minScore, maxScore). */
  function RequestArgs(minScore: int, maxScore: int): Args {
    map["min_score" := ShowInt(minScore), "max_score" := ShowInt(maxScore)]
  }

  /**
   * Every request the page sends passes the server's own checks: the
   * query arguments it carries are accepted by GET /reviews/stats with
   * the same two scores.
   */
  lemma ServerAcceptsRequest(minText: string, maxText: string)
    requires CheckScores(minText, maxText).Valid?
    ensures var c := CheckScores(minText, maxText);
            RouteReviews.ValidateScores(RequestArgs(c.minScore, c.maxScore)) == Success((c.minScore, c.maxScore))
  {
    var c := CheckScores(minText, maxText);
    var args := RequestArgs(c.minScore, c.maxScore);
    assert Arg(args, "min_score") == Some(ShowInt(c.minScore));
    assert Arg(args, "max_score") == Some(ShowInt(c.maxScore));
    ScoreAccepted(c.minScore, "min_score");
    ScoreAccepted(c.maxScore, "max_score");
  }

  /** A score in 1..5, written out, passes the server's check of one bound. */
  lemma ScoreAccepted(v: int, name: string)
    requires 1 <= v <= 5
    ensures RouteReviews.ParseScore(Some(ShowInt(v)), name) == Success(v)
  {
    ParseShow(v);
    assert ShowInt(v) == ShowNat(v);
  }

  // ---------------------------------------------------------------------
  // The page

  /**
   * What fetch settled with: a thrown error with its message, or a
   * response with its status, the error field of a failure body, and the
   * names of the body's fields that hold neither undefined nor null.
   */
  datatype Fetched =
    | Thrown(message: string)
    | Answered(ok: bool, status: int, errorField: Option<string>, fields: set<string>)

  /** The results area: empty, or the summary box of a successful request. */
  datatype Results = Cleared | Summary

  const ErrorPrefix: string := "\U{274C} Error loading review stats: "

  /** The count field the summary box reads, as reviews.js spells it. */
  const ReadCountField: string := "review_count"

  /** The count field /reviews/stats actually returns. */
  const ServedCountField: string := "total_reviews"

  /** new Error(errorData.error || `HTTP error! status: ${status}`) */
  function FailureMessage(status: int, errorField: Option<string>): (m: string)
    ensures Truthy(errorField) ==> m == errorField.value
    ensures !Truthy(errorField) ==> m == "HTTP error! status: " + ShowInt(status)
  {
    if Truthy(errorField) then errorField.value else "HTTP error! status: " + ShowInt(status)
  }

  /**
   * The error text and results area after the request settles, the
   * summary box reading countField.toLocaleString(): when the body has no
   * such field the read throws a TypeError (its message, which the browser
   * words, is typeError) and the catch shows it with the results cleared.
   */
  function AfterFetch(f: Fetched, countField: string, typeError: string): (view: (string, Results))
    ensures view.1 == Summary <==> f.Answered? && f.ok && countField in f.fields
    ensures view.1 == Summary ==> view.0 == ""
    ensures f.Thrown? ==> view.0 == ErrorPrefix + f.message
    ensures f.Answered? && !f.ok ==> view.0 == ErrorPrefix + FailureMessage(f.status, f.errorField)
    ensures f.Answered? && f.ok && countField !in f.fields ==> view.0 == ErrorPrefix + typeError
  {
    match f
    case Thrown(message) => (ErrorPrefix + message, Cleared)
    case Answered(ok, status, errorField, fields) =>
      if !ok then (ErrorPrefix + FailureMessage(status, errorField), Cleared)
      else if countField in fields then ("", Summary)
      else (ErrorPrefix + typeError, Cleared)
  }

  /**
   * How a reply of GET /reviews/stats reaches the page: response.ok for a
   * 2xx status; a success body with its fields, an error body {"error": …}.
   */
  function Receive(reply: Reply<RouteReviews.StatsBody>): (f: Fetched)
    ensures f.Answered? && f.status == reply.status
    ensures f.ok <==> 200 <= reply.status < 300
    ensures reply.Error? ==> f.errorField == Some(reply.message) && f.fields == {"error"}
    ensures reply.Json? ==> f.errorField == None && f.fields == RouteReviews.JsonFields(reply.body)
  {
    match reply
    case Json(status, body) => Answered(200 <= status < 300, status, None, RouteReviews.JsonFields(body))
    case Error(status, message) => Answered(200 <= status < 300, status, Some(message), {"error"})
  }

  /**
   * Against the server as written the summary box is never shown: a
   * request the page sends is accepted, and either the query fails (the
   * 500 message is shown) or the answer has no review_count and the
   * TypeError is shown.
   */
  lemma SummaryNeverShown(minText: string, maxText: string,
                          db: (int, int) -> Result<seq<RouteReviews.ScoreCount>, string>, typeError: string)
    requires CheckScores(minText, maxText).Valid?
    ensures var c := CheckScores(minText, maxText);
            var view := AfterFetch(Receive(RouteReviews.ReviewsStats(RequestArgs(c.minScore, c.maxScore), db)),
                                   ReadCountField, typeError);
            && view.1 == Cleared
            && (db(c.minScore, c.maxScore).Success? ==> view.0 == ErrorPrefix + typeError)
            && (db(c.minScore, c.maxScore).Failure? ==> view.0 == ErrorPrefix + "Database error occurred")
  {
    ServerAcceptsRequest(minText, maxText);
  }

  /**
   * Reading the field the server returns, every accepted request whose
   * query succeeds shows the summary with no error.
   */
  lemma ServedFieldShowsSummary(minText: string, maxText: string,
                                db: (int, int) -> Result<seq<RouteReviews.ScoreCount>, string>, typeError: string)
    requires CheckScores(minText, maxText).Valid?
    ensures var c := CheckScores(minText, maxText);
            var view := AfterFetch(Receive(RouteReviews.ReviewsStats(RequestArgs(c.minScore, c.maxScore), db)),
                                   ServedCountField, typeError);
            && (view == ("", Summary) <==> db(c.minScore, c.maxScore).Success?)
            && (db(c.minScore, c.maxScore).Failure? ==> view == (ErrorPrefix + "Database error occurred", Cleared))
  {
    ServerAcceptsRequest(minText, maxText);
  }

  class ReviewsPage {
    var errorText: string
    var results: Results
    /** The URLs fetched so far, oldest first. */
    var requested: seq<string>

    constructor ()
      ensures errorText == "" && results == Cleared && requested == []
    {
      errorText := "";
      results := Cleared;
      requested := [];
    }

    /**
     * loadReviewStats: clear both areas, check the inputs; on a failed
     * check show its message and fetch nothing, otherwise fetch the
     * stats URL once and show what came back.
     */
    method LoadReviewStats(minInput: string, maxInput: string, fetch: string -> Fetched, typeError: string)
      modifies this
      ensures match CheckScores(minInput, maxInput)
              case Invalid(message) =>
                errorText == message && results == Cleared && requested == old(requested)
              case Valid(lo, hi) =>
                && requested == old(requested) + [StatsUrl(lo, hi)]
                && (errorText, results) == AfterFetch(fetch(StatsUrl(lo, hi)), ReadCountField, typeError)
    {
      errorText := "";
      results := Cleared;
      var minScore := JsParseInt(minInput);
      var maxScore := JsParseInt(maxInput);
      if minScore.NaN? || maxScore.NaN? {
        errorText := NotNumbers;
        return;
      }
      if minScore.value < 1 || minScore.value > 5 {
        errorText := MinOutOfRange;
        return;
      }
      if maxScore.value < 1 || maxScore.value > 5 {
        errorText := MaxOutOfRange;
        return;
      }
      if minScore.value > maxScore.value {
        errorText := MinAboveMax;
        return;
      }
      var url := StatsUrl(minScore.value, maxScore.value);
      requested := requested + [url];
      var response := fetch(url);
      match response
      case Thrown(message) =>
        errorText := ErrorPrefix + message;
        results := Cleared;
      case Answered(ok, status, errorField, fields) =>
        if !ok {
          errorText := ErrorPrefix + FailureMessage(status, errorField);
          results := Cleared;
        } else if ReadCountField in fields {
          results := Summary;
        } else {
          errorText := ErrorPrefix + typeError;
          results := Cleared;
        }
    }
  }
}
