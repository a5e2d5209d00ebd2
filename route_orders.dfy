/**
 * app/routes/orders/routes.py: GET /orders/by-customer/<customer_id>. The
 * limit is checked, then get_orders_by_customer (a database query, here a
 * parameter) is called and its result returned.
 */
module RouteOrders {
  import opened Wrappers
  import opened PyText
  import opened Http

  /** limit: "10" when absent; ValueError and the 1..50 range both give 422. */
  function OrdersLimit(args: Args): (r: Result<int, string>)
    ensures var v := ParseInt(ArgOr(args, "limit", "10"));
            && (v.None? ==> r == Failure("limit must be a valid integer"))
            && (v.Some? && !(1 <= v.value <= 50) ==> r == Failure("limit must be between 1 and 50"))
            && (r.Success? <==> v.Some? && 1 <= v.value <= 50)
            && (r.Success? ==> r.value == v.value)
  {
    match ParseInt(ArgOr(args, "limit", "10"))
    case None => Failure("limit must be a valid integer")
    case Some(limit) => if 1 <= limit <= 50 then Success(limit) else Failure("limit must be between 1 and 50")
  }

  /**
   * list_orders_by_customer: 422 on a bad limit; otherwise the service's
   * answer for (customer_id, limit) with 200.
   */
  function ListOrdersByCustomer<T>(customerId: string, args: Args, service: (string, int) -> T): (reply: Reply<T>)
    ensures OrdersLimit(args).Failure? ==> reply == Error(422, OrdersLimit(args).error)
    ensures OrdersLimit(args).Success? ==> reply == Json(200, service(customerId, OrdersLimit(args).value))
  {
    match OrdersLimit(args)
    case Failure(e) => Error(422, e)
    case Success(limit) => Json(200, service(customerId, limit))
  }

  /** Without a limit argument the service is asked for 10 orders. */
  lemma DefaultLimitIsTen<T>(customerId: string, args: Args, service: (string, int) -> T)
    requires "limit" !in args
    ensures ListOrdersByCustomer(customerId, args, service) == Json(200, service(customerId, 10))
  {
    assert ParseInt("10") == Some(10) by {
      ParseShow(10);
      assert ShowInt(10) == "10";
    }
    assert ArgOr(args, "limit", "10") == "10";
  }
}
