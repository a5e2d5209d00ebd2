/**
 * app/routes/reviews.py: GET /reviews/stats. An early-return validation
 * chain over min_score and max_score, then the per-score counts the
 * database returns are summed into a total and a weighted average.
 */
module RouteReviews {
  import opened Wrappers
  import opened PyText
  import opened Http

  /**
   * One score bound: missing or '' first, then int() and the 1..5 range.
   * int()'s ValueError and the range check give different messages.
   */
  function ParseScore(text: Option<string>, name: string): (r: Result<int, string>)
    ensures r.Success? <==> Truthy(text) && ParseInt(text.value).Some? && 1 <= ParseInt(text.value).value <= 5
    ensures r.Success? ==> r.value == ParseInt(text.value).value
    ensures !Truthy(text) ==> r == Failure("Missing required parameter: " + name)
    ensures Truthy(text) && ParseInt(text.value).None? ==> r == Failure(name + " must be a valid integer")
    ensures Truthy(text) && ParseInt(text.value).Some? && !(1 <= ParseInt(text.value).value <= 5) ==>
              r == Failure(name + " must be between 1 and 5")
  {
    if !Truthy(text) then Failure("Missing required parameter: " + name)
    else match ParseInt(text.value)
      case None => Failure(name + " must be a valid integer")
      case Some(v) => if 1 <= v <= 5 then Success(v) else Failure(name + " must be between 1 and 5")
  }

  /**
   * The whole chain: min_score, then max_score, then their order. The first
   * failing check decides the message; equal bounds are accepted.
   */
  function ValidateScores(args: Args): (r: Result<(int, int), string>)
    ensures var lo := ParseScore(Arg(args, "min_score"), "min_score");
            var hi := ParseScore(Arg(args, "max_score"), "max_score");
            && (r.Success? <==> lo.Success? && hi.Success? && lo.value <= hi.value)
            && (r.Success? ==> r.value == (lo.value, hi.value))
            && (lo.Failure? ==> r == Failure(lo.error))
            && (lo.Success? && hi.Failure? ==> r == Failure(hi.error))
            && (lo.Success? && hi.Success? && hi.value < lo.value ==>
                  r == Failure("max_score must be greater than or equal to min_score"))
  {
    var lo := ParseScore(Arg(args, "min_score"), "min_score");
    if lo.Failure? then Failure(lo.error)
    else
      var hi := ParseScore(Arg(args, "max_score"), "max_score");
      if hi.Failure? then Failure(hi.error)
      else if hi.value < lo.value then Failure("max_score must be greater than or equal to min_score")
      else Success((lo.value, hi.value))
  }

  /** One fetched row (review_score, review_count); COUNT(*) is never negative. */
  type ScoreCount = (int, nat)

  /** sum(item["review_count"] for item in stats) */
  function Total(rows: seq<ScoreCount>): nat
    decreases |rows|
  {
    if rows == [] then 0 else rows[0].1 + Total(rows[1..])
  }

  /** sum(item["review_score"] * item["review_count"] for item in stats) */
  function WeightedSum(rows: seq<ScoreCount>): int
    decreases |rows|
  {
    if rows == [] then 0 else rows[0].0 * rows[0].1 + WeightedSum(rows[1..])
  }

  /** Scores the database returned, all within the requested bounds. */
  predicate ScoresWithin(rows: seq<ScoreCount>, lo: int, hi: int) {
    forall i :: 0 <= i < |rows| ==> lo <= rows[i].0 <= hi
  }

  lemma MulMono(a: int, b: int, c: nat)
    requires a <= b
    ensures a * c <= b * c
  {
  }

  /** One row's step of the bound: lo * (c + t) <= s * c + w when lo <= s and lo * t <= w. */
  lemma LowerStep(lo: int, s: int, c: nat, t: nat, w: int)
    requires lo <= s && lo * t <= w
    ensures lo * (c + t) <= s * c + w
  {
    MulMono(lo, s, c);
    assert lo * (c + t) == lo * c + lo * t;
  }

  /** The same step for the upper bound. */
  lemma UpperStep(hi: int, s: int, c: nat, t: nat, w: int)
    requires s <= hi && w <= hi * t
    ensures s * c + w <= hi * (c + t)
  {
    MulMono(s, hi, c);
    assert hi * (c + t) == hi * c + hi * t;
  }

  /** The weighted sum lies between lo and hi times the total. */
  lemma {:induction false} WeightedSumBounds(rows: seq<ScoreCount>, lo: int, hi: int)
    requires ScoresWithin(rows, lo, hi)
    ensures lo * Total(rows) <= WeightedSum(rows) <= hi * Total(rows)
    decreases |rows|
  {
    if rows != [] {
      var rest := rows[1..];
      assert ScoresWithin(rest, lo, hi) by {
        forall i | 0 <= i < |rest| ensures lo <= rest[i].0 <= hi {
          assert rest[i] == rows[i + 1];
        }
      }
      WeightedSumBounds(rest, lo, hi);
      assert lo <= rows[0].0 <= hi;
      LowerStep(lo, rows[0].0, rows[0].1, Total(rest), WeightedSum(rest));
      UpperStep(hi, rows[0].0, rows[0].1, Total(rest), WeightedSum(rest));
    }
  }

  /** average_score: the weighted mean, or None when there are no reviews. */
  function Average(rows: seq<ScoreCount>): (a: Option<real>)
    ensures a.None? <==> Total(rows) == 0
  {
    if Total(rows) > 0 then Some(WeightedSum(rows) as real / Total(rows) as real) else None
  }

  /** When the database keeps to the bounds, the average does too. */
  lemma AverageWithinBounds(rows: seq<ScoreCount>, lo: int, hi: int)
    requires ScoresWithin(rows, lo, hi) && Total(rows) > 0
    ensures lo as real <= Average(rows).value <= hi as real
  {
    WeightedSumBounds(rows, lo, hi);
    QuotientWithin(WeightedSum(rows), Total(rows), lo, hi);
  }

  /** Dividing bounds on w by a positive t bounds w / t. */
  lemma QuotientWithin(w: int, t: nat, lo: int, hi: int)
    requires t > 0 && lo * t <= w <= hi * t
    ensures lo as real <= w as real / t as real <= hi as real
  {
    var q := w as real / t as real;
    assert q * t as real == w as real;
    assert (lo * t) as real == lo as real * t as real;
    assert (hi * t) as real == hi as real * t as real;
  }

  /**
   * The success body: {"min_score", "max_score", "total_reviews",
   * "average_score", "stats"}, stats listing the fetched rows in order.
   */
  datatype StatsBody = StatsBody(
    minScore: int,
    maxScore: int,
    totalReviews: nat,
    averageScore: Option<real>,
    stats: seq<ScoreCount>)

  /**
   * The fields of the success body as JSON sees them, those holding null
   * left out: average_score is null when there are no reviews.
   */
  function JsonFields(b: StatsBody): (fields: set<string>)
    ensures "total_reviews" in fields && "stats" in fields
    ensures "average_score" in fields <==> b.averageScore.Some?
    ensures "review_count" !in fields && "avg_score" !in fields
  {
    {"min_score", "max_score", "total_reviews", "stats"}
    + (if b.averageScore.Some? then {"average_score"} else {})
  }

  /**
   * reviews_stats: 400 from the validation chain; otherwise the query runs
   * on the validated bounds, and its failure gives 500.
   */
  function ReviewsStats(args: Args, fetch: (int, int) -> Result<seq<ScoreCount>, string>): (reply: Reply<StatsBody>)
    ensures ValidateScores(args).Failure? ==> reply == Error(400, ValidateScores(args).error)
    ensures ValidateScores(args).Success? ==>
              var (lo, hi) := ValidateScores(args).value;
              && (fetch(lo, hi).Failure? ==> reply == Error(500, "Database error occurred"))
              && (fetch(lo, hi).Success? ==>
                    var rows := fetch(lo, hi).value;
                    reply == Json(200, StatsBody(lo, hi, Total(rows), Average(rows), rows)))
  {
    match ValidateScores(args)
    case Failure(e) => Error(400, e)
    case Success((lo, hi)) =>
      match fetch(lo, hi)
      case Failure(_) => Error(500, "Database error occurred")
      case Success(rows) =>
        var total := Total(rows);
        var average := if total > 0 then Some(WeightedSum(rows) as real / total as real) else None;
        Json(200, StatsBody(lo, hi, total, average, rows))
  }

  /**
   * The status is 400, 500 or 200; 200 exactly when validation and the
   * query both succeed, and then the bounds satisfy 1 <= min <= max <= 5.
   */
  lemma ReviewsStatsStatus(args: Args, fetch: (int, int) -> Result<seq<ScoreCount>, string>)
    ensures var r := ReviewsStats(args, fetch);
            && (r.status == 400 <==> ValidateScores(args).Failure?)
            && (r.status == 200 <==> ValidateScores(args).Success? && fetch(ValidateScores(args).value.0, ValidateScores(args).value.1).Success?)
            && (r.status == 400 || r.status == 500 || r.status == 200)
            && (r.status == 200 ==> r.Json? && 1 <= r.body.minScore <= r.body.maxScore <= 5)
  {
  }
}
