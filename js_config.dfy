/**
 * frontend/js/config.js: the shared API base URL and handleFetchError,
 * which turns a failed fetch into the message shown to the user. The
 * branches are tried in order: network failure, database failure,
 * validation failure, anything else.
 */
module JsConfig {
  import opened Wrappers
  import opened PyText

  const ApiBaseUrl: string := "http://127.0.0.1:5000"

  /** The thrown value: whether it is a TypeError, and its message (None when undefined). */
  datatype FetchError = FetchError(isTypeError: bool, message: Option<string>)

  /** The response object, when there is one; only its status is consulted. */
  datatype Response = Response(status: int)

  const Warning: string := "\U{26A0}\U{FE0F} "
  const NotReachable: string := Warning + "API not reachable. Did you start Flask on 127.0.0.1:5000? Run: .\\scripts\\start-demo.ps1"
  const DbDown: string := Warning + "API is running but DB connection failed. Check .env (DB_VENDOR/DB_PASS) and run: .\\scripts\\check-health.ps1"
  const ValidationFallback: string := "Validation error. Please check your input."
  const GenericFallback: string := "An unexpected error occurred."

  /** error.message || fallback: an undefined or empty message gives way to the fallback. */
  function MessageOr(error: FetchError, fallback: string): (msg: string)
    ensures Truthy(error.message) ==> msg == error.message.value
    ensures !Truthy(error.message) ==> msg == fallback
  {
    if Truthy(error.message) then error.message.value else fallback
  }

  predicate IsStatus(response: Option<Response>, status: int) {
    response.Some? && response.value.status == status
  }

  /** handleFetchError(error, response) */
  function HandleFetchError(error: FetchError, response: Option<Response>): (msg: string)
    ensures error.isTypeError ==> msg == NotReachable
    ensures !error.isTypeError && IsStatus(response, 503) ==> msg == DbDown
    ensures !error.isTypeError && (IsStatus(response, 400) || IsStatus(response, 422)) ==>
              msg == MessageOr(error, ValidationFallback)
    ensures !error.isTypeError && !IsStatus(response, 503) && !IsStatus(response, 400) && !IsStatus(response, 422) ==>
              msg == MessageOr(error, GenericFallback)
  {
    if error.isTypeError then NotReachable
    else if IsStatus(response, 503) then DbDown
    else if IsStatus(response, 400) || IsStatus(response, 422) then MessageOr(error, ValidationFallback)
    else MessageOr(error, GenericFallback)
  }

  /** The four ways a failure can be classified. */
  datatype Kind = Network | Database | Validation | Other

  function KindOf(error: FetchError, response: Option<Response>): Kind {
    if error.isTypeError then Network
    else if IsStatus(response, 503) then Database
    else if IsStatus(response, 400) || IsStatus(response, 422) then Validation
    else Other
  }

  /**
   * The two fixed warnings tell the user which branch fired: the network
   * text appears exactly for a network failure and the database text
   * exactly for a database failure (unless the error's own message is
   * one of those texts).
   */
  lemma WarningsIdentifyBranch(error: FetchError, response: Option<Response>)
    requires error.message != Some(NotReachable) && error.message != Some(DbDown)
    ensures HandleFetchError(error, response) == NotReachable <==> KindOf(error, response) == Network
    ensures HandleFetchError(error, response) == DbDown <==> KindOf(error, response) == Database
  {
    FixedTextsDiffer();
  }

  lemma FixedTextsDiffer()
    ensures NotReachable != DbDown
    ensures NotReachable != ValidationFallback && NotReachable != GenericFallback
    ensures DbDown != ValidationFallback && DbDown != GenericFallback
  {
    assert |NotReachable| == 90 && |DbDown| == 110;
    assert |ValidationFallback| == 42 && |GenericFallback| == 29;
  }

  /** Without a message of its own, the user sees one of the four fixed texts. */
  lemma FixedTextWithoutMessage(error: FetchError, response: Option<Response>)
    requires !Truthy(error.message)
    ensures HandleFetchError(error, response) in {NotReachable, DbDown, ValidationFallback, GenericFallback}
  {
  }

  /** A network failure wins over any response, even a 503 or a 400. */
  lemma NetworkFailureFirst(message: Option<string>, response: Option<Response>)
    ensures HandleFetchError(FetchError(true, message), response) == NotReachable
  {
  }

  /** Without a response only the network and generic branches can apply. */
  lemma NoResponse(error: FetchError)
    ensures HandleFetchError(error, None) == (if error.isTypeError then NotReachable else MessageOr(error, GenericFallback))
  {
  }

  /** 400 and 422 are treated alike: only their fallback text differs from other statuses. */
  lemma ValidationStatusesAlike(error: FetchError)
    ensures HandleFetchError(error, Some(Response(400))) == HandleFetchError(error, Some(Response(422)))
  {
  }
}
