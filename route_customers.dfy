/** app/routes/customers.py: GET /customers/by-state, a stub that counts nothing. */
module RouteCustomers {
  import opened Wrappers
  import opened PyText
  import opened Http

  /** {"state": state, "total_customers": 0} */
  datatype StateCount = StateCount(state: string, totalCustomers: int)

  /**
   * Absent or '' gives 400; any other text, whitespace included, is echoed
   * back as given, with a count of 0.
   */
  function CustomersByState(args: Args): (reply: Reply<StateCount>)
    ensures !Truthy(Arg(args, "state")) <==> reply == Error(400, "Missing required parameter: state")
    ensures reply.Json? <==> Truthy(Arg(args, "state"))
    ensures reply.Json? ==> reply.status == 200 && reply.body.state == args["state"] && reply.body.totalCustomers == 0
  {
    var state := Arg(args, "state");
    if !Truthy(state) then Error(400, "Missing required parameter: state")
    else Json(200, StateCount(state.value, 0))
  }
}
