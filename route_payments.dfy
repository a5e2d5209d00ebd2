/**
 * app/routes/payments.py: GET /payments/by-type. payment_type is checked
 * (present, not blank, at most 50 characters) before limit (an integer in
 * 1..200, "20" when absent); the fetched rows are then shaped one to one.
 */
module RoutePayments {
  import opened Wrappers
  import opened PyText
  import opened Http

  const MaxTypeLength: nat := 50

  /**
   * The validation chain, first failure first. The length is measured on
   * the text as given, not on its stripped form.
   */
  function Validate(args: Args): (r: Result<(string, int), string>)
    ensures var pt := Arg(args, "payment_type");
            var lim := ParseInt(ArgOr(args, "limit", "20"));
            && (r.Success? <==> Truthy(pt) && Strip(pt.value) != "" && |pt.value| <= MaxTypeLength
                                && lim.Some? && 1 <= lim.value <= 200)
            && (r.Success? ==> r.value == (pt.value, lim.value))
            && (!Truthy(pt) ==> r == Failure("Missing required parameter: payment_type"))
            && (Truthy(pt) && Strip(pt.value) == "" ==> r == Failure("payment_type cannot be empty"))
            && (Truthy(pt) && Strip(pt.value) != "" && |pt.value| > MaxTypeLength ==>
                  r == Failure("payment_type must not exceed 50 characters"))
            && (Truthy(pt) && Strip(pt.value) != "" && |pt.value| <= MaxTypeLength && lim.None? ==>
                  r == Failure("limit must be a valid integer"))
            && (Truthy(pt) && Strip(pt.value) != "" && |pt.value| <= MaxTypeLength && lim.Some?
                && !(1 <= lim.value <= 200) ==>
                  r == Failure("limit must be between 1 and 200"))
  {
    var pt := Arg(args, "payment_type");
    if !Truthy(pt) then Failure("Missing required parameter: payment_type")
    else if Strip(pt.value) == "" then Failure("payment_type cannot be empty")
    else if |pt.value| > MaxTypeLength then Failure("payment_type must not exceed 50 characters")
    else match ParseInt(ArgOr(args, "limit", "20"))
      case None => Failure("limit must be a valid integer")
      case Some(limit) =>
        if 1 <= limit <= 200 then Success((pt.value, limit)) else Failure("limit must be between 1 and 200")
  }

  /** An absent limit is 20. */
  lemma DefaultLimit(args: Args)
    requires "limit" !in args
    requires Truthy(Arg(args, "payment_type"))
    requires Strip(args["payment_type"]) != "" && |args["payment_type"]| <= MaxTypeLength
    ensures Validate(args) == Success((args["payment_type"], 20))
  {
    ParseShow(20);
    assert ShowInt(20) == "20";
  }

  /** One fetched row; payment_value is a nullable DECIMAL. */
  datatype PaymentRow = PaymentRow(
    orderId: string,
    sequential: int,
    paymentType: string,
    installments: int,
    value: Option<real>)

  /**
   * The body {"payment_type", "limit", "row_count", "payments"}; every
   * payment is its row's columns under their names, so the row itself.
   */
  datatype PaymentsBody = PaymentsBody(paymentType: string, limit: int, rowCount: nat, payments: seq<PaymentRow>)

  /**
   * payments_by_type: 400 with the first failing check's message; the
   * query runs on the validated type and limit, and its failure gives 500.
   */
  function PaymentsByType(args: Args, fetch: (string, int) -> Result<seq<PaymentRow>, string>): (reply: Reply<PaymentsBody>)
    ensures Validate(args).Failure? ==> reply == Error(400, Validate(args).error)
    ensures Validate(args).Success? ==>
              var (pt, limit) := Validate(args).value;
              && (fetch(pt, limit).Failure? ==> reply == Error(500, "Database error occurred"))
              && (fetch(pt, limit).Success? ==>
                    && reply.Json? && reply.status == 200
                    && reply.body.paymentType == pt && reply.body.limit == limit
                    && reply.body.payments == fetch(pt, limit).value)
    ensures reply.Json? ==> reply.body.rowCount == |reply.body.payments|
  {
    match Validate(args)
    case Failure(e) => Error(400, e)
    case Success((pt, limit)) =>
      match fetch(pt, limit)
      case Failure(_) => Error(500, "Database error occurred")
      case Success(rows) => Json(200, PaymentsBody(pt, limit, |rows|, rows))
  }

  /** payment_type is validated before limit: a bad type is reported whatever the limit. */
  lemma TypeCheckedFirst(args: Args, other: string)
    requires !Truthy(Arg(args, "payment_type")) || Strip(args["payment_type"]) == ""
             || |args["payment_type"]| > MaxTypeLength
    ensures Validate(args) == Validate(args["limit" := other])
  {
    assert Arg(args["limit" := other], "payment_type") == Arg(args, "payment_type");
  }
}
