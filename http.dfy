/**
 * What the Flask handlers see and return: the query-string arguments of a
 * request and a (status, JSON body) reply as jsonify builds it.
 */
module Http {
  import opened Wrappers
  import opened PyText

  /** request.args: a name absent from the map was not given. */
  type Args = map<string, string>

  /**
   * A handler's answer: jsonify(body) with its status (200 when the handler
   * gives none), or jsonify({"error": message}) with an error status.
   */
  datatype Reply<T> = Json(status: int, body: T) | Error(status: int, message: string)

  /** request.args.get(name) */
  function Arg(args: Args, name: string): (r: Option<string>)
    ensures r.Some? <==> name in args
    ensures r.Some? ==> r.value == args[name]
  {
    if name in args then Some(args[name]) else None
  }

  /** request.args.get(name, default) */
  function ArgOr(args: Args, name: string, default: string): (r: string)
    ensures name in args ==> r == args[name]
    ensures name !in args ==> r == default
  {
    if name in args then args[name] else default
  }

  /**
   * request.args.get(name, default, type=int): the default when the
   * argument is absent or int() raises ValueError on it.
   */
  function ArgInt(args: Args, name: string, default: int): (n: int)
    ensures name in args && ParseInt(args[name]).Some? ==> n == ParseInt(args[name]).value
    ensures name !in args || ParseInt(args[name]).None? ==> n == default
  {
    if name in args && ParseInt(args[name]).Some? then ParseInt(args[name]).value else default
  }
}
