/**
 * app/routes/analytics.py: the four /analytics endpoints. Each checks its
 * one integer argument against a range, runs its query through _query_all
 * and wraps the rows in the {"ok", "params", "data"} envelope; any
 * exception from the query gives 503 with ok False. The SQL itself is the
 * database's business: a query is a function from the validated argument
 * to its column names and rows, or to the error it raises.
 */
module RouteAnalytics {
  import opened Wrappers
  import opened PyText
  import opened Sql
  import opened Http

  /** cur.description's column names and cur.fetchall()'s rows. */
  datatype QueryResult = QueryResult(columns: seq<string>, rows: seq<seq<SqlValue>>)

  /** A result row as dict(zip(cols, row)). */
  type Record = map<string, SqlValue>

  function MinLen(a: nat, b: nat): nat { if a < b then a else b }

  /**
   * dict(zip(cols, row)) over the first n pairs: zip stops at the shorter
   * side, and a repeated column name keeps its last value.
   */
  function ZipDict(cols: seq<string>, row: seq<SqlValue>, n: nat): (d: Record)
    requires n <= |cols| && n <= |row|
    ensures d.Keys == set i | 0 <= i < n :: cols[i]
    decreases n
  {
    if n == 0 then map[]
    else
      var d := ZipDict(cols, row, n - 1)[cols[n - 1] := row[n - 1]];
      assert d.Keys == (set i | 0 <= i < n - 1 :: cols[i]) + {cols[n - 1]};
      d
  }

  predicate Distinct(cols: seq<string>) {
    forall i, j :: 0 <= i < j < |cols| ==> cols[i] != cols[j]
  }

  /** With distinct column names, each column maps to the value in its position. */
  lemma ZipDictPositions(cols: seq<string>, row: seq<SqlValue>, n: nat)
    requires n <= |cols| && n <= |row| && Distinct(cols)
    ensures forall i :: 0 <= i < n ==> ZipDict(cols, row, n)[cols[i]] == row[i]
  {
    forall i | 0 <= i < n ensures ZipDict(cols, row, n)[cols[i]] == row[i] {
      ZipDictAt(cols, row, n, i);
    }
  }

  /** One position: no later column overwrites it. */
  lemma {:induction false} ZipDictAt(cols: seq<string>, row: seq<SqlValue>, n: nat, i: nat)
    requires n <= |cols| && n <= |row| && Distinct(cols) && i < n
    ensures ZipDict(cols, row, n)[cols[i]] == row[i]
    decreases n
  {
    if i < n - 1 {
      ZipDictAt(cols, row, n - 1, i);
      assert cols[i] != cols[n - 1];
    }
  }

  /** _query_all: one dict per fetched row, in fetched order. */
  function QueryAll(q: QueryResult): (records: seq<Record>)
    ensures |records| == |q.rows|
    ensures forall k :: 0 <= k < |q.rows| ==>
              records[k] == ZipDict(q.columns, q.rows[k], MinLen(|q.columns|, |q.rows[k]|))
  {
    seq(|q.rows|, k requires 0 <= k < |q.rows| => ZipDict(q.columns, q.rows[k], MinLen(|q.columns|, |q.rows[k]|)))
  }

  /** Every record of a well-formed result maps each column name to its value. */
  lemma QueryAllRecords(q: QueryResult, k: nat)
    requires k < |q.rows| && |q.rows[k]| == |q.columns| && Distinct(q.columns)
    ensures QueryAll(q)[k].Keys == set c | c in q.columns
    ensures forall i :: 0 <= i < |q.columns| ==> QueryAll(q)[k][q.columns[i]] == q.rows[k][i]
  {
    var n := |q.columns|;
    ZipDictPositions(q.columns, q.rows[k], n);
    assert (set i | 0 <= i < n :: q.columns[i]) == set c | c in q.columns by {
      forall c | c in q.columns ensures c in set i | 0 <= i < n :: q.columns[i] {
        var i :| 0 <= i < n && q.columns[i] == c;
      }
    }
  }

  /** {"ok": True, "params": {...}, "data": rows}; an error reply carries ok False. */
  datatype Envelope = Envelope(params: seq<(string, int)>, data: seq<Record>)

  /**
   * The shape shared by the three ranged endpoints: the argument as
   * request.args.get(name, default, type=int) reads it, 400 with the
   * endpoint's message outside lo..hi, otherwise the query on the value,
   * and 503 with str(e) when it raises.
   */
  function RangedQuery(args: Args, name: string, default: int, lo: int, hi: int, message: string,
                       query: int -> Result<QueryResult, string>): (reply: Reply<Envelope>)
    ensures var v := ArgInt(args, name, default);
            && (!(lo <= v <= hi) ==>
                  reply == Error(400, message))
            && (lo <= v <= hi && query(v).Failure? ==> reply == Error(503, query(v).error))
            && (lo <= v <= hi && query(v).Success? ==>
                  reply == Json(200, Envelope([(name, v)], QueryAll(query(v).value))))
  {
    var v := ArgInt(args, name, default);
    if v < lo || v > hi then Error(400, message)
    else match query(v)
      case Failure(e) => Error(503, e)
      case Success(q) => Json(200, Envelope([(name, v)], QueryAll(q)))
  }

  /** GET /analytics/revenue-by-category: limit in 1..100, 10 when absent or not an integer. */
  function RevenueByCategory(args: Args, query: int -> Result<QueryResult, string>): (reply: Reply<Envelope>)
    ensures var v := ArgInt(args, "limit", 10);
            && (reply.status == 400 <==> !(1 <= v <= 100))
            && (reply.status == 400 ==> reply == Error(400, "limit must be between 1 and 100"))
            && (reply.status == 200 ==> reply.Json? && reply.body.params == [("limit", v)])
  {
    RangedQuery(args, "limit", 10, 1, 100, "limit must be between 1 and 100", query)
  }

  /** GET /analytics/top-sellers: the same limit rule as revenue-by-category. */
  function TopSellers(args: Args, query: int -> Result<QueryResult, string>): (reply: Reply<Envelope>)
    ensures var v := ArgInt(args, "limit", 10);
            && (reply.status == 400 <==> !(1 <= v <= 100))
            && (reply.status == 400 ==> reply == Error(400, "limit must be between 1 and 100"))
            && (reply.status == 200 ==> reply.Json? && reply.body.params == [("limit", v)])
  {
    RangedQuery(args, "limit", 10, 1, 100, "limit must be between 1 and 100", query)
  }

  /** GET /analytics/review-vs-delivery: min_reviews in 1..1000, 50 when absent or not an integer. */
  function ReviewVsDelivery(args: Args, query: int -> Result<QueryResult, string>): (reply: Reply<Envelope>)
    ensures var v := ArgInt(args, "min_reviews", 50);
            && (reply.status == 400 <==> !(1 <= v <= 1000))
            && (reply.status == 400 ==> reply == Error(400, "min_reviews must be between 1 and 1000"))
            && (reply.status == 200 ==> reply.Json? && reply.body.params == [("min_reviews", v)])
  {
    RangedQuery(args, "min_reviews", 50, 1, 1000, "min_reviews must be between 1 and 1000", query)
  }

  /** GET /analytics/order-funnel: no argument, empty params. */
  function OrderFunnel(query: Result<QueryResult, string>): (reply: Reply<Envelope>)
    ensures query.Failure? ==> reply == Error(503, query.error)
    ensures query.Success? ==> reply.Json? && reply.status == 200 && reply.body.params == []
                               && reply.body.data == QueryAll(query.value)
  {
    match query
    case Failure(e) => Error(503, e)
    case Success(q) => Json(200, Envelope([], QueryAll(q)))
  }

  /** A limit that is absent or not an integer falls back to 10, which is accepted. */
  lemma DefaultLimitAccepted(args: Args, query: int -> Result<QueryResult, string>)
    requires "limit" !in args || ParseInt(args["limit"]).None?
    ensures RevenueByCategory(args, query).status != 400
    ensures query(10).Success? ==> RevenueByCategory(args, query) == Json(200, Envelope([("limit", 10)], QueryAll(query(10).value)))
  {
  }
}
