/**
 * app/blueprints/orders/service.py: last_orders builds its SQL text with
 * `+=` and its parameter list with `append`, one optional date at a time,
 * and hands execute `params or None`.
 */
module OrdersService {
  import opened Wrappers
  import opened PyText
  import opened Sql

  /**
   * The query text before any filter (the triple-quoted literal, layout
   * included), in three pieces so that each can be checked on its own.
   */
  const SelectPart: string := "\n    SELECT order_id, customer_id,"
  const ColumnsPart: string := " order_status, order_purchase_timestamp"
  const FromPart: string := "\n    FROM orders \n    WHERE 1=1\n    "
  const BaseSql: string := SelectPart + ColumnsPart + FromPart

  const FromPrefix: string := " AND order_purchase_timestamp >= "
  const ToPrefix: string := " AND order_purchase_timestamp <= "
  const Placeholder: string := "%s"
  const OrderPart: string := " ORDER BY order_purchase_timestamp"
  const LimitPart: string := " DESC LIMIT 20"
  const OrderSuffix: string := OrderPart + LimitPart

  /** One optional filter: the comparison and its "%s" when the date is given. */
  function DateFilter(date: Option<string>, prefix: string): string {
    if Truthy(date) then prefix + Placeholder else ""
  }

  /** The SQL of a call, as a function of which dates are given. */
  function LastOrdersSql(fromDate: Option<string>, toDate: Option<string>): string {
    BaseSql + DateFilter(fromDate, FromPrefix) + DateFilter(toDate, ToPrefix) + OrderSuffix
  }

  /** The parameter list of a call: the given dates, from before to. */
  function LastOrdersParams(fromDate: Option<string>, toDate: Option<string>): (ps: seq<string>)
    ensures |ps| == (if Truthy(fromDate) then 1 else 0) + (if Truthy(toDate) then 1 else 0)
    ensures ps == [] <==> !Truthy(fromDate) && !Truthy(toDate)
    ensures Truthy(fromDate) ==> ps[0] == fromDate.value
    ensures Truthy(toDate) ==> ps[|ps| - 1] == toDate.value
  {
    (if Truthy(fromDate) then [fromDate.value] else [])
    + (if Truthy(toDate) then [toDate.value] else [])
  }

  /**
   * last_orders up to the execute call: the SQL text, and the parameters
   * execute receives (None when the list is empty). An empty-string date
   * counts as absent.
   */
  method LastOrders(fromDate: Option<string>, toDate: Option<string>) returns (sql: string, params: Option<seq<string>>)
    ensures sql == LastOrdersSql(fromDate, toDate)
    ensures params.None? <==> !Truthy(fromDate) && !Truthy(toDate)
    ensures params.Some? ==> params.value == LastOrdersParams(fromDate, toDate)
  {
    sql := BaseSql;
    var ps: seq<string> := [];
    if Truthy(fromDate) {
      sql := sql + (FromPrefix + Placeholder);
      ps := ps + [fromDate.value];
    }
    assert sql == BaseSql + DateFilter(fromDate, FromPrefix);
    if Truthy(toDate) {
      sql := sql + (ToPrefix + Placeholder);
      ps := ps + [toDate.value];
    }
    assert sql == BaseSql + DateFilter(fromDate, FromPrefix) + DateFilter(toDate, ToPrefix);
    sql := sql + OrderSuffix;
    params := if ps == [] then None else Some(ps);
  }

  /** None of the fixed pieces holds a '%'. */
  lemma SelectPartPlain() ensures '%' !in SelectPart {}
  lemma ColumnsPartPlain() ensures '%' !in ColumnsPart {}
  lemma FromPartPlain() ensures '%' !in FromPart {}
  lemma FromPrefixPlain() ensures '%' !in FromPrefix {}
  lemma ToPrefixPlain() ensures '%' !in ToPrefix {}
  lemma OrderPartPlain() ensures '%' !in OrderPart {}
  lemma LimitPartPlain() ensures '%' !in LimitPart {}

  lemma BaseSqlPlain() ensures '%' !in BaseSql {
    SelectPartPlain();
    ColumnsPartPlain();
    FromPartPlain();
  }

  lemma OrderSuffixPlain() ensures '%' !in OrderSuffix {
    OrderPartPlain();
    LimitPartPlain();
  }

  /** Each date filter adds exactly one placeholder. */
  lemma FilterPlaceholders(prefix: string)
    requires '%' !in prefix && prefix != []
    ensures CountPlaceholders(prefix + Placeholder) == 1
  {
    NoPercentNoPlaceholder(prefix);
    CountConcat(prefix, Placeholder);
    assert (prefix + Placeholder)[|prefix|..] == Placeholder;
    SuffixPlaceholder(prefix);
  }

  lemma SuffixPlaceholder(prefix: string)
    requires '%' !in prefix
    ensures CountPlaceholders(Placeholder) == 1
  {
    assert Placeholder[2..] == [];
  }

  /** The count of an optional filter: one "%s" when the date is given, none otherwise. */
  lemma OptionalFilter(date: Option<string>, prefix: string)
    requires '%' !in prefix && prefix != []
    ensures var f := DateFilter(date, prefix);
            && CountPlaceholders(f) == (if Truthy(date) then 1 else 0)
            && (f == [] || f[|f| - 1] != '%')
  {
    if Truthy(date) {
      FilterPlaceholders(prefix);
    }
  }

  /**
   * The text carries one "%s" per parameter, so execute always receives
   * as many values as the SQL asks for.
   */
  lemma PlaceholdersMatchParams(fromDate: Option<string>, toDate: Option<string>)
    ensures CountPlaceholders(LastOrdersSql(fromDate, toDate)) == |LastOrdersParams(fromDate, toDate)|
  {
    var f := DateFilter(fromDate, FromPrefix);
    var t := DateFilter(toDate, ToPrefix);
    BaseSqlPlain();
    FromPrefixPlain();
    ToPrefixPlain();
    OrderSuffixPlain();
    NoPercentNoPlaceholder(BaseSql);
    NoPercentNoPlaceholder(OrderSuffix);
    OptionalFilter(fromDate, FromPrefix);
    OptionalFilter(toDate, ToPrefix);
    assert BaseSql != [] && BaseSql[|BaseSql| - 1] in BaseSql;
    CountConcat(BaseSql, f);
    CountConcat(BaseSql + f, t);
    CountConcat(BaseSql + f + t, OrderSuffix);
  }

  /** The query always ends with the newest-first order and the limit of 20. */
  lemma EndsWithOrderAndLimit(fromDate: Option<string>, toDate: Option<string>)
    ensures var sql := LastOrdersSql(fromDate, toDate);
            |sql| >= |OrderSuffix| && sql[|sql| - |OrderSuffix|..] == OrderSuffix
  {
  }
}
