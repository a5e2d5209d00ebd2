/**
 * app/blueprints/payments/routes.py: GET /mix with no parameters, and GET
 * /by-installments with a lower bound only.
 */
module BpPayments {
  import opened Wrappers
  import opened PyText
  import opened Http

  /** mix: the service's answer, whatever the request carries. */
  function Mix<T>(service: () -> T): (reply: Reply<T>)
    ensures reply.Json? && reply.status == 200 && reply.body == service()
  {
    Json(200, service())
  }

  /** min: "1" when absent; ValueError and min < 1 give 422; there is no upper bound. */
  function ByInstallments<T>(args: Args, service: int -> T): (reply: Reply<T>)
    ensures var v := ParseInt(ArgOr(args, "min", "1"));
            && (v.None? ==> reply == Error(422, "min must be an integer"))
            && (v.Some? && v.value < 1 ==> reply == Error(422, "min must be >= 1"))
            && (v.Some? && v.value >= 1 ==> reply == Json(200, service(v.value)))
  {
    match ParseInt(ArgOr(args, "min", "1"))
    case None => Error(422, "min must be an integer")
    case Some(m) => if m < 1 then Error(422, "min must be >= 1") else Json(200, service(m))
  }

  /** Every integer from 1 up, however large, reaches the service unchanged. */
  lemma NoUpperBound<T>(args: Args, service: int -> T, m: int)
    requires m >= 1 && "min" in args && args["min"] == ShowInt(m)
    ensures ByInstallments(args, service) == Json(200, service(m))
  {
    ParseShow(m);
  }
}
