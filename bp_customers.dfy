/**
 * app/blueprints/customers/routes.py: GET /by-state. Only presence is
 * checked; the stripped state goes to customers_by_state (a database
 * query, here a parameter).
 */
module BpCustomers {
  import opened Wrappers
  import opened PyText
  import opened Http

  /**
   * Absent, '' or whitespace-only gives 400; anything else reaches the
   * service, stripped, with no length or format check.
   */
  function ByState<T>(args: Args, service: string -> T): (reply: Reply<T>)
    ensures var st := Arg(args, "state");
            && (reply.Error? <==> st.None? || AllSpace(st.value))
            && (reply.Error? ==> reply == Error(400, "state parameter is required"))
            && (reply.Json? ==> reply == Json(200, service(Strip(st.value))))
  {
    var st := Arg(args, "state");
    if st.None? || st.value == "" || Strip(st.value) == "" then Error(400, "state parameter is required")
    else
      StripEmptyIffAllSpace(st.value);
      Json(200, service(Strip(st.value)))
  }

  /** The service never sees surrounding whitespace, nor an empty state. */
  lemma ServiceGetsStrippedState<T>(args: Args, service: string -> T)
    requires "state" in args && !AllSpace(args["state"])
    ensures var s := Strip(args["state"]);
            && ByState(args, service) == Json(200, service(s))
            && s != "" && IsStripped(s)
  {
    StripEmptyIffAllSpace(args["state"]);
  }
}
