/** Values shared by the three phases of a queue-gated login attempt:
    the parsed server responses, the outcome of one HTTPS request, the values
    that reach the completion callback, and the result of running the protocol
    against a finite sequence of server replies. */
module LoginTypes {

  datatype Option<T> = None | Some(value: T)

  /** A connection-level failure reported by the HTTPS client's 'error' event. */
  datatype TransportError = TransportError(description: string)

  /** The JavaScript values that can reach the completion callback. */
  datatype JsValue = Undefined | Null | Str(s: string) | Error(error: TransportError)

  /** What one request produces, as seen by the protocol: a body that parsed,
      a body that did not parse, or a transport failure. */
  datatype Reply<T> = Parsed(body: T) | Malformed | TransportFailure(error: TransportError)

  /** One row of the ticker table returned by the login endpoint. */
  datatype TickerEntry = TickerEntry(node: int, id: int, current: int)

  /** A JSON object returned by the login endpoint or the token endpoint.
      Absent fields are None; `delay` and `champ` only shape requests and timers. */
  datatype Descriptor = Descriptor(
    token: Option<string>,
    status: Option<string>,
    reason: Option<string>,
    node: int,
    champ: string,
    rate: int,
    delay: int,
    tickers: Option<seq<TickerEntry>>)

  /** JavaScript truthiness of `data.token`: present and not the empty string. */
  predicate HasToken(d: Descriptor)
    ensures d.token.None? ==> !HasToken(d)
    // the empty string is falsy
    ensures d.token == Some("") ==> !HasToken(d)
    ensures d.token.Some? && |d.token.value| > 0 ==> HasToken(d)
  {
    d.token.Some? && d.token.value != ""
  }

  /** A JavaScript number as far as the queue needs it: `parseInt` of a
      missing ticker value is NaN. */
  datatype Number = Int(value: int) | NaN

  /** The arguments of `tickQueue`: the descriptor, our ticket and the ticket being served. */
  datatype QueueState = QueueState(data: Descriptor, id: int, current: Number)

  /** How far a login attempt got on a given sequence of replies. */
  datatype Outcome =
    | Called(err: JsValue, result: JsValue)               // callback(err, result) was invoked; the attempt is over
    | Uncaught                                           // an exception escaped a response handler; the callback is never invoked
    | WaitingForTicker(state: QueueState)                // the replies ran out while waiting in the queue
    | WaitingForToken(data: Descriptor, retryCount: nat) // the replies ran out while polling for the token

  /** An outcome with the number of ticker and token replies it consumed. */
  datatype Run = Run(outcome: Outcome, tickerRequests: nat, tokenRequests: nat)

  const FailedStatus: string := "FAILED"
  const LoginErrorPrefix: string := "Error logging in: "
  const RetryLimitMessage: string := "Retry limit exceeded.  Try again later."
  /** The largest retry count at which a token request is still issued. */
  const MaxRetryCount: nat := 5

  /** JavaScript string concatenation of a field that may be absent. */
  function ConcatText(field: Option<string>): (text: string)
  {
    match field
    case Some(s) => s
    case None => "undefined"
  }
}
