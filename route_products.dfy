/**
 * app/routes/products.py: GET /products/sample, answering n placeholder
 * products without touching the database.
 */
module RouteProducts {
  import opened Wrappers
  import opened PyText
  import opened Http

  /** {"product_id": i, "name": f"placeholder_{i}"} */
  datatype Item = Item(productId: int, name: string)

  /** The i-th placeholder, i counted from 1. */
  function Placeholder(i: int): Item {
    Item(i, "placeholder_" + ShowInt(i))
  }

  /** [{"product_id": i, "name": f"placeholder_{i}"} for i in range(1, n+1)] */
  function Placeholders(n: nat): (items: seq<Item>)
    ensures |items| == n
    ensures forall k :: 0 <= k < n ==> items[k] == Placeholder(k + 1)
  {
    seq(n, k requires 0 <= k < n => Placeholder(k + 1))
  }

  /** The placeholder ids run 1..n and no two items share a name. */
  lemma PlaceholderIdsAndNames(n: nat)
    ensures var items := Placeholders(n);
            && (forall k :: 0 <= k < n ==> items[k].productId == k + 1)
            && (forall j, k :: 0 <= j < k < n ==> items[j].name != items[k].name)
  {
    var items := Placeholders(n);
    forall j, k | 0 <= j < k < n ensures items[j].name != items[k].name {
      NamesDiffer(j + 1, k + 1);
    }
  }

  /** Different ids give different names. */
  lemma NamesDiffer(i: int, j: int)
    requires i != j
    ensures Placeholder(i).name != Placeholder(j).name
  {
    ShowIntInjective(i, j);
    var p := |"placeholder_"|;
    assert Placeholder(i).name[p..] == ShowInt(i);
    assert Placeholder(j).name[p..] == ShowInt(j);
  }

  /**
   * int(q): a missing n raises TypeError and a malformed one ValueError;
   * both give 422 with the same message. Then n must lie in 1..100.
   */
  function ProductsSample(args: Args): (reply: Reply<seq<Item>>)
    ensures var q := Arg(args, "n");
            && (q.None? || ParseInt(q.value).None? ==> reply == Error(422, "n must be integer in [1,100]"))
            && (q.Some? && ParseInt(q.value).Some? && !(1 <= ParseInt(q.value).value <= 100) ==>
                  reply == Error(422, "n must be between 1 and 100"))
            && (reply.Json? <==> q.Some? && ParseInt(q.value).Some? && 1 <= ParseInt(q.value).value <= 100)
    ensures reply.Json? ==> reply == Json(200, Placeholders(ParseInt(args["n"]).value))
  {
    var q := Arg(args, "n");
    if q.None? then Error(422, "n must be integer in [1,100]")
    else match ParseInt(q.value)
      case None => Error(422, "n must be integer in [1,100]")
      case Some(n) =>
        if !(1 <= n <= 100) then Error(422, "n must be between 1 and 100")
        else Json(200, Placeholders(n))
  }
}
