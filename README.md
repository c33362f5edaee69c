# Queue-gated login client: a Dafny model

This project models the client in `lib/lolrmtp/login.js`. The client logs a
user in to a login service that sits behind a virtual waiting-room queue. One
attempt has three phases:

- **Authenticator** (`getAuthKey`). It sends the credentials and classifies the
  response, in priority order: an immediate token, an explicit `FAILED`
  status, or a place in the queue. In the last case it scans the ticker table
  for this user's ticket `id` and the ticket being served, `current`.
- **Queue waiter** (`tickQueue`). It admits the user once
  `id - current <= rate`. Until then it polls the ticker endpoint and takes
  the hexadecimal value for its node as the new `current`.
- **Token fetcher** (`getAuthToken`). It succeeds once the descriptor
  carries a token. It gives up once the retry count exceeds 5. Otherwise it
  polls the token endpoint.

The network is replaced by the replies it would produce. Each request has a
`Reply`: `Parsed(body)`, `Malformed` (the JSON did not parse), or
`TransportFailure(error)`. An attempt is run against three things: the login
reply, the sequence of ticker replies, and the sequence of token replies.
The result is a `Run`. It holds an `Outcome` and the number of ticker and
token replies consumed. The outcome is one of:

- `Called(err, result)`: the completion callback's two arguments, recorded
  exactly as the code passes them.
- `Uncaught`: an exception escaped a response handler, so the callback is
  never invoked.
- `WaitingForTicker` or `WaitingForToken`: the replies ran out, and the
  state shows which request is due next.

The two success paths use different callback slots, and the model keeps them
apart. An immediate token from the login response is passed as the first
argument, `callback(token)` (login.js:11). A fetched token is passed as the
second argument, `callback(null, token)` (login.js:115). Every failure uses
the first argument.

Modules: `LoginTypes` (shared values), `Hex` (base-16 decoding),
`TokenFetcher`, `QueueWaiter`, `Authenticator`. The ticker scan is an
imperative `for` loop (`ScanTickers`) proved equal to the function
`SelectTicket`. The two polling chains are self-recursive continuations in
the source. Here they are recursive functions over the reply sequences
(`TickQueue`, `GetAuthToken`), built on one-reply step functions
(`QueuePoll`, `TokenPoll`).

The retry budget follows the code. The check is `retryCount > 5`, so a fetch
that starts at 0 tolerates six malformed replies. It gives up only on the
check that follows the sixth, having made six token requests.

## Model

| member | source | states |
|---|---|---|
| `LoginTypes.HasToken` | lib/lolrmtp/login.js:10 | `data.token` is truthy exactly for a present, non-empty token: an absent token and the empty string are falsy |
| `Hex.HexValue` | lib/lolrmtp/login.js:95 | the base-16 value of a digit string of length n is below 16^n |
| `Hex.HexValueIgnoresCase` | lib/lolrmtp/login.js:95 | an upper-case digit string has the value of its lower-case spelling |
| `Hex.HexValueIgnoresLeadingZero` | lib/lolrmtp/login.js:95 | a leading zero does not change the value |
| `Hex.HexRoundTrip` | lib/lolrmtp/login.js:95 | base-16 decoding of ticker values inverts base-16 encoding for every natural number |
| `TokenFetcher.TokenPoll` | lib/lolrmtp/login.js:138-151 | a parsed token reply replaces the descriptor and keeps the retry count; a parse failure keeps the descriptor and adds exactly one; a transport failure, and only that, ends the attempt with that error |
| `TokenFetcher.GetAuthToken` | lib/lolrmtp/login.js:113-154 | a token in the descriptor wins at any retry count and goes to the second callback argument; with no token and a count above 5 the retry-limit message goes to the first argument with no request; failures always use the first argument; a transport error comes only after a request; a pending fetch has no token and a count of at most 5; no ticker request is made |
| `TokenFetcher.FetchedTokenIsFirstCarried` | lib/lolrmtp/login.js:114-140 | a successful fetch delivers the token of the descriptor passed in, or else of the first parsed reply that carries one, which is the last reply consumed |
| `TokenFetcher.TransportFailureEndsFetch` | lib/lolrmtp/login.js:148-151 | a transport failure is the last token reply consumed and ends the fetch at once with that reply's error in the first argument, with no further request; every error result comes from the last reply consumed |
| `TokenFetcher.RetryCountIsMalformedCount` | lib/lolrmtp/login.js:118-145 | the retry count is the starting count plus the parse failures consumed, never exceeds 6 from a start of at most 6, and the retry-limit failure happens only once it passes 5 |
| `TokenFetcher.MalformedRepliesExhaustBudget` | lib/lolrmtp/login.js:118-145 | with every reply malformed, a fetch from count c makes exactly 6 - c requests and then fails with the retry-limit message (six requests from 0) |
| `TokenFetcher.TokenlessRepliesKeepBudget` | lib/lolrmtp/login.js:138-141 | any number of parsed replies without a token keep polling with the latest descriptor and the unchanged retry count |
| `QueueWaiter.Admitted` | lib/lolrmtp/login.js:74 | a NaN served ticket is never admitted; a ticket already being served, or passed, is admitted at any non-negative rate |
| `QueueWaiter.AdmissionIsMonotone` | lib/lolrmtp/login.js:74 | serving a later ticket or a larger rate never undoes admission |
| `QueueWaiter.TickerValue` | lib/lolrmtp/login.js:95 | the decoded ticker value is a number exactly when the table has an entry for the node, and NaN otherwise |
| `QueueWaiter.QueuePoll` | lib/lolrmtp/login.js:88-108 | a ticker poll never changes the ticket or the descriptor; a parsed table sets the served ticket to the decoded value for the node; a malformed body changes nothing; a transport failure, and only that, ends the attempt with that error |
| `QueueWaiter.TickQueue` | lib/lolrmtp/login.js:72-111 | the user is admitted (`id - current <= rate`) exactly when token fetching starts at once with the same descriptor and a retry count of 0; waiting consumes every ticker reply |
| `QueueWaiter.LastCurrentIsLastParsed` | lib/lolrmtp/login.js:94-103 | after a sequence of ticker replies the served ticket is the decoded value of the last parsed reply, or the starting one when no reply parsed |
| `QueueWaiter.QueueKeepsTicketAndDescriptor` | lib/lolrmtp/login.js:72-111 | over the whole wait the ticket and descriptor never change and the served ticket is that of the last parsed reply, a malformed reply losing no position; the wait ends in one of three ways: still waiting, on a transport failure in the last reply consumed, or by handing the unchanged descriptor to the token fetcher at count 0 |
| `QueueWaiter.TickerTransportFailureEndsWait` | lib/lolrmtp/login.js:105-108 | a ticker transport failure is the last ticker reply consumed and ends the attempt at once with that error in the first argument, with no retry and no token request |
| `QueueWaiter.QueueWaitsUntilAdmitted` | lib/lolrmtp/login.js:74-102 | every ticker request is made while the served ticket set by the replies so far does not admit, and a wait still pending is not admitted by the last value |
| `QueueWaiter.QueueHandsOverWhenAdmitted` | lib/lolrmtp/login.js:74-98 | when the wait hands over to the token fetcher, the served ticket set by the replies consumed admits, so the hand-off is at the first admitting value |
| `QueueWaiter.AdmissionAfterTickerUpdate` | lib/lolrmtp/login.js:74-98 | ticket 10 with ticket 4 served at rate 3 is not admitted; after the ticker reports 8 it is, and token fetching starts at count 0 |
| `Authenticator.SelectTicket` | lib/lolrmtp/login.js:18-27 | the selected ticket is (0, 0) or the id and current of a row whose node matches |
| `Authenticator.SelectTicketIsLastMatch` | lib/lolrmtp/login.js:18-27 | the selected ticket is (0, 0) when no row matches the node, and otherwise the id and current of the last matching row |
| `Authenticator.ScanTickers` | lib/lolrmtp/login.js:18-27 | the overwriting `for` loop leaves exactly the selected ticket in `id` and `current` |
| `Authenticator.NoMatchingTicketIsAdmitted` | lib/lolrmtp/login.js:18-30 | with no matching row and a non-negative rate, the wait is skipped and token fetching starts at once with a retry count of 0 |
| `Authenticator.GetAuthKey` | lib/lolrmtp/login.js:4-31 | a login transport error goes to the first argument; an unparseable body or missing ticker table throws; a token wins over a FAILED status and goes to the FIRST argument with no polling; FAILED ends with exactly `Error logging in: ` plus the reason; otherwise the queue wait starts at the selected ticket |

## Left out

- HTTPS requests, request options, payload encoding, the lower-cased username
  in the token path, and the disabled certificate check (login.js:34-59,
  80-109, 125-151). These are I/O and transport policy. Each request is
  reduced to its `Reply`.
- The timers (`data.delay` and `data.delay / 10`). These are real time. The
  model fixes the order of events only. `delay` is carried as inert data.
- All logging, including the `Math.max(1, id - current)` queue position.
  Logging has no effect on behaviour.
- Streaming. The code parses each `'data'` chunk on its own, so a response
  that arrives in several chunks would run a handler several times. A
  response with an empty body fires no `'data'` event at all, so the attempt
  stops there and the callback is never invoked. The model has exactly one
  reply per request and covers neither case.
- JSON bodies that are not objects, and fields of unexpected types. They are
  left out. A `null` token reply acts like a malformed one: `getAuthToken`
  throws inside the `try` block and polls again with the count raised by one.
  A number, boolean or array token reply throws nothing. It is polled again as
  a tokenless parsed reply, with the count unchanged. At the ticker endpoint,
  a `null` body throws at login.js:95 and is caught at login.js:100. It
  re-polls with `current` unchanged, exactly like a malformed reply. An array
  body yields its element at index `data.node`, hex-decoded. A string body
  yields its character at that index, hex-decoded. An index past the end of
  an array or string gives NaN, and so does a number or boolean body.
- An exception thrown by the caller's callback inside the `try` block at
  login.js:140. The catch at login.js:144 calls `getAuthToken` again with the
  count raised by one. Below a count of 5 this polls again. At a count of 5
  it invokes the callback a second time, with the retry-limit message. The
  callback is never invoked synchronously from login.js:98, because the
  descriptor there has no token and the count is 0.
- Double-precision arithmetic. `id`, `current`, `rate` and the `parseInt`
  result are JavaScript numbers, exact only below 2^53. The model uses
  unbounded integers, so it does not capture rounding of larger values.
- `QueueWaiter.TickerValue`: only non-empty strings of hexadecimal digits are
  modelled as ticker values. `parseInt` prefix parsing (`"1fz"`), signs,
  whitespace and `0x` prefixes are not modelled. A missing entry gives NaN,
  and NaN is never admitted. Ticker keys are node numbers, not their string
  spellings.
- The unimplemented queue cancellation after the retry limit (the `todo` at
  login.js:119).
