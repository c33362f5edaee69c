/** The token-polling phase (`getAuthToken`): succeed as soon as the
    descriptor carries a token, give up once the retry count exceeds five,
    otherwise poll the token endpoint and continue with what comes back. */
module TokenFetcher {
  import opened LoginTypes

  /** Where one token poll leads: polling again with a descriptor and retry
      count, or ending the attempt with a transport error. */
  datatype TokenNext = Repoll(data: Descriptor, retryCount: nat) | TokenAbort(error: TransportError)

  /** The reply handler of one token request. A parsed body replaces the
      descriptor and keeps the retry count; only a parse failure spends the
      budget, and it keeps the old descriptor. */
  function TokenPoll(data: Descriptor, retryCount: nat, reply: Reply<Descriptor>): (next: TokenNext)
    ensures next.TokenAbort? <==> reply.TransportFailure?
    ensures next.Repoll? ==> next.retryCount == if reply.Malformed? then retryCount + 1 else retryCount
    ensures next.Repoll? ==> next.data == if reply.Parsed? then reply.body else data
    ensures next.TokenAbort? ==> next.error == reply.error
  {
    match reply
    case Parsed(auth) => Repoll(auth, retryCount)
    case Malformed => Repoll(data, retryCount + 1)
    case TransportFailure(e) => TokenAbort(e)
  }

  /** `getAuthToken(config, data, retryCount, callback)` run against the
      replies the token endpoint gives, in order. */
  function GetAuthToken(data: Descriptor, retryCount: nat, replies: seq<Reply<Descriptor>>): (r: Run)
    // the token check comes first, whatever the retry count
    ensures HasToken(data) ==> r == Run(Called(Null, Str(data.token.value)), 0, 0)
    // past the limit: the fixed message in the first slot, and no request
    ensures !HasToken(data) && retryCount > MaxRetryCount ==>
              r == Run(Called(Str(RetryLimitMessage), Undefined), 0, 0)
    ensures r.tickerRequests == 0 && r.tokenRequests <= |replies|
    ensures !r.outcome.WaitingForTicker? && !r.outcome.Uncaught?
    // a success carries a real token in the second slot; every failure uses the first slot
    ensures r.outcome.Called? ==>
              (r.outcome.err == Null && r.outcome.result.Str? && r.outcome.result.s != "") ||
              (r.outcome.result == Undefined &&
               (r.outcome.err == Str(RetryLimitMessage) || r.outcome.err.Error?))
    // waiting means the next request is due: no token yet and budget left
    ensures r.outcome.WaitingForToken? ==>
              !HasToken(r.outcome.data) && r.outcome.retryCount <= MaxRetryCount &&
              r.tokenRequests == |replies|
    // a transport error is reported only after a request was made
    ensures r.outcome.Called? && r.outcome.err.Error? ==> r.tokenRequests > 0
    decreases |replies|
  {
    if HasToken(data) then
      Run(Called(Null, Str(data.token.value)), 0, 0)
    else if retryCount > MaxRetryCount then
      Run(Called(Str(RetryLimitMessage), Undefined), 0, 0)
    else if replies == [] then
      Run(WaitingForToken(data, retryCount), 0, 0)
    else
      match TokenPoll(data, retryCount, replies[0])
      case TokenAbort(e) => Run(Called(Error(e), Undefined), 0, 1)
      case Repoll(next, count) =>
        var r := GetAuthToken(next, count, replies[1..]);
        r.(tokenRequests := r.tokenRequests + 1)
  }

  /** The number of parse failures among the replies. */
  function CountMalformed(replies: seq<Reply<Descriptor>>): (n: nat)
  {
    if replies == [] then 0
    else (if replies[0].Malformed? then 1 else 0) + CountMalformed(replies[1..])
  }

  /** A fetch that succeeds delivers the token of the first descriptor that
      carries one: the one passed in, or else the first parsed reply with a
      token, which is the last reply consumed. */
  lemma {:induction false} FetchedTokenIsFirstCarried(data: Descriptor, retryCount: nat, replies: seq<Reply<Descriptor>>)
    ensures var r := GetAuthToken(data, retryCount, replies);
            var n := r.tokenRequests;
            r.outcome.Called? && r.outcome.err == Null ==>
              && (forall i :: 0 <= i < n - 1 ==> !(replies[i].Parsed? && HasToken(replies[i].body)))
              && (if n == 0 then HasToken(data) && r.outcome.result == Str(data.token.value)
                  else replies[n - 1].Parsed? && HasToken(replies[n - 1].body) &&
                       r.outcome.result == Str(replies[n - 1].body.token.value))
    decreases |replies|
  {
    if !HasToken(data) && retryCount <= MaxRetryCount && replies != [] {
      match TokenPoll(data, retryCount, replies[0])
      case TokenAbort(e) =>
      case Repoll(next, count) =>
        var rest := replies[1..];
        FetchedTokenIsFirstCarried(next, count, rest);
        var r := GetAuthToken(data, retryCount, replies);
        var n := r.tokenRequests;
        if r.outcome.Called? && r.outcome.err == Null {
          forall i | 0 <= i < n - 1
            ensures !(replies[i].Parsed? && HasToken(replies[i].body))
          {
            if i > 0 {
              assert replies[i] == rest[i - 1];
            }
          }
          if n > 1 {
            assert replies[n - 1] == rest[n - 2];
          }
        }
    }
  }

  /** A transport failure is the last token reply the fetch consumes: the
      attempt ends at once with that reply's error in the first slot, and no
      further request is made. Conversely, an error result comes from the
      last reply consumed. */
  lemma {:induction false} TransportFailureEndsFetch(data: Descriptor, retryCount: nat, replies: seq<Reply<Descriptor>>)
    ensures var r := GetAuthToken(data, retryCount, replies);
            var n := r.tokenRequests;
            && (forall i :: 0 <= i < n && replies[i].TransportFailure? ==>
                  i == n - 1 && r == Run(Called(Error(replies[i].error), Undefined), 0, n))
            && (r.outcome.Called? && r.outcome.err.Error? ==>
                  0 < n && replies[n - 1] == TransportFailure(r.outcome.err.error))
    decreases |replies|
  {
    if !HasToken(data) && retryCount <= MaxRetryCount && replies != [] {
      match TokenPoll(data, retryCount, replies[0])
      case TokenAbort(e) =>
      case Repoll(next, count) =>
        var rest := replies[1..];
        TransportFailureEndsFetch(next, count, rest);
        var r := GetAuthToken(data, retryCount, replies);
        var n := r.tokenRequests;
        forall i | 0 <= i < n && replies[i].TransportFailure?
          ensures i == n - 1 && r == Run(Called(Error(replies[i].error), Undefined), 0, n)
        {
          assert i > 0;
          assert replies[i] == rest[i - 1];
        }
        if r.outcome.Called? && r.outcome.err.Error? {
          assert replies[n - 1] == rest[n - 2];
        }
    }
  }

  /** The retry count is the starting count plus the number of parse failures
      consumed, and never passes the limit by more than one: the budget
      allows at most six parse failures from a start of zero. */
  lemma {:induction false} RetryCountIsMalformedCount(data: Descriptor, retryCount: nat, replies: seq<Reply<Descriptor>>)
    ensures var r := GetAuthToken(data, retryCount, replies);
            var spent := CountMalformed(replies[..r.tokenRequests]);
            && (retryCount <= MaxRetryCount + 1 ==> retryCount + spent <= MaxRetryCount + 1)
            && (r.outcome.WaitingForToken? ==> r.outcome.retryCount == retryCount + spent)
            && (r.outcome == Called(Str(RetryLimitMessage), Undefined) ==>
                  retryCount + spent > MaxRetryCount)
    decreases |replies|
  {
    var r := GetAuthToken(data, retryCount, replies);
    if HasToken(data) || retryCount > MaxRetryCount || replies == [] {
      assert replies[..r.tokenRequests] == [];
    } else {
      var rest := replies[1..];
      match TokenPoll(data, retryCount, replies[0])
      case TokenAbort(e) =>
        assert replies[..r.tokenRequests] == [replies[0]];
        assert CountMalformed(replies[..r.tokenRequests]) == 0 by {
          assert replies[..1][1..] == [];
        }
      case Repoll(next, count) =>
        var inner := GetAuthToken(next, count, rest);
        RetryCountIsMalformedCount(next, count, rest);
        var n := inner.tokenRequests;
        assert r.tokenRequests == n + 1;
        assert replies[..n + 1][1..] == rest[..n];
        assert CountMalformed(replies[..n + 1]) ==
               (if replies[0].Malformed? then 1 else 0) + CountMalformed(rest[..n]);
    }
  }

  /** With every reply malformed, a fetch starting at `retryCount` makes
      exactly `6 - retryCount` requests and then fails with the retry-limit
      message; from zero that is six requests. */
  lemma {:induction false} MalformedRepliesExhaustBudget(data: Descriptor, retryCount: nat, replies: seq<Reply<Descriptor>>)
    requires !HasToken(data) && retryCount <= MaxRetryCount + 1
    requires |replies| >= MaxRetryCount + 1 - retryCount
    requires forall i :: 0 <= i < |replies| ==> replies[i].Malformed?
    ensures GetAuthToken(data, retryCount, replies) ==
            Run(Called(Str(RetryLimitMessage), Undefined), 0, MaxRetryCount + 1 - retryCount)
    decreases MaxRetryCount + 1 - retryCount
  {
    if retryCount <= MaxRetryCount {
      assert replies[0].Malformed?;
      MalformedRepliesExhaustBudget(data, retryCount + 1, replies[1..]);
    }
  }

  /** Replies that parse but carry no token never spend the budget: the
      fetch keeps polling with the latest descriptor and the same count. */
  lemma {:induction false} TokenlessRepliesKeepBudget(data: Descriptor, retryCount: nat, replies: seq<Reply<Descriptor>>)
    requires !HasToken(data) && retryCount <= MaxRetryCount
    requires forall i :: 0 <= i < |replies| ==> replies[i].Parsed? && !HasToken(replies[i].body)
    ensures GetAuthToken(data, retryCount, replies) ==
            Run(WaitingForToken(if replies == [] then data else replies[|replies| - 1].body, retryCount),
                0, |replies|)
    decreases |replies|
  {
    if replies != [] {
      var rest := replies[1..];
      assert forall i :: 0 <= i < |rest| ==> rest[i] == replies[i + 1];
      TokenlessRepliesKeepBudget(replies[0].body, retryCount, rest);
      if rest != [] {
        assert rest[|rest| - 1] == replies[|replies| - 1];
      }
    }
  }
}
