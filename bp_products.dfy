/** app/blueprints/products/routes.py: GET /sample, n passed to products_sample. */
module BpProducts {
  import opened Wrappers
  import opened PyText
  import opened Http

  /** n: "10" when absent; ValueError and the 1..100 range both give 422. */
  function Sample<T>(args: Args, service: int -> T): (reply: Reply<T>)
    ensures var v := ParseInt(ArgOr(args, "n", "10"));
            && (v.None? ==> reply == Error(422, "n must be an integer"))
            && (v.Some? && (v.value < 1 || v.value > 100) ==> reply == Error(422, "n must be between 1 and 100"))
            && (v.Some? && 1 <= v.value <= 100 ==> reply == Json(200, service(v.value)))
  {
    match ParseInt(ArgOr(args, "n", "10"))
    case None => Error(422, "n must be an integer")
    case Some(n) => if n < 1 || n > 100 then Error(422, "n must be between 1 and 100") else Json(200, service(n))
  }

  /** Without n the service is asked for 10 products. */
  lemma DefaultSample<T>(args: Args, service: int -> T)
    requires "n" !in args
    ensures Sample(args, service) == Json(200, service(10))
  {
    ParseShow(10);
    assert ShowInt(10) == "10";
  }
}
