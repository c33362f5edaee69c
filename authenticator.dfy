/** The login phase (`getAuthKey`): classify the login response as an
    immediate token, an explicit failure, or a place in the queue, and in the
    last case find our ticket in the ticker table and start waiting. */
module Authenticator {
  import opened LoginTypes
  import opened TokenFetcher
  import opened QueueWaiter

  /** Our ticket and the ticket being served, as read from the ticker table. */
  datatype Ticket = Ticket(id: int, current: int)

  /** The ticker row the scan leaves behind: the last row for `node`, or
      (0, 0) when no row matches. */
  function SelectTicket(tickers: seq<TickerEntry>, node: int): (t: Ticket)
    ensures t == Ticket(0, 0) ||
            exists k :: 0 <= k < |tickers| && tickers[k].node == node &&
                        t == Ticket(tickers[k].id, tickers[k].current)
  {
    if tickers == [] then Ticket(0, 0)
    else
      var last := tickers[|tickers| - 1];
      if last.node == node then Ticket(last.id, last.current)
      else SelectTicket(tickers[..|tickers| - 1], node)
  }

  /** Without a matching row the ticket is (0, 0); otherwise it is the one of
      the matching row that no later row matches. */
  lemma {:induction false} SelectTicketIsLastMatch(tickers: seq<TickerEntry>, node: int)
    ensures (forall k :: 0 <= k < |tickers| ==> tickers[k].node != node) ==>
              SelectTicket(tickers, node) == Ticket(0, 0)
    ensures forall k :: 0 <= k < |tickers| && tickers[k].node == node &&
                        (forall j :: k < j < |tickers| ==> tickers[j].node != node) ==>
              SelectTicket(tickers, node) == Ticket(tickers[k].id, tickers[k].current)
  {
    if tickers != [] {
      var init := tickers[..|tickers| - 1];
      var t := SelectTicket(tickers, node);
      SelectTicketIsLastMatch(init, node);
      if tickers[|tickers| - 1].node == node {
        forall k | 0 <= k < |tickers| && tickers[k].node == node &&
                   (forall j :: k < j < |tickers| ==> tickers[j].node != node)
          ensures t == Ticket(tickers[k].id, tickers[k].current)
        {
          assert k == |tickers| - 1;
        }
      } else {
        assert t == SelectTicket(init, node);
        forall k | 0 <= k < |tickers| && tickers[k].node == node &&
                   (forall j :: k < j < |tickers| ==> tickers[j].node != node)
          ensures t == Ticket(tickers[k].id, tickers[k].current)
        {
          assert init[k] == tickers[k];
          assert forall j :: k < j < |init| ==> init[j] == tickers[j];
        }
        assert (forall k :: 0 <= k < |tickers| ==> tickers[k].node != node) ==>
               (forall k :: 0 <= k < |init| ==> init[k].node != node);
      }
    }
  }

  /** The `for` loop over `data.tickers`: every matching row overwrites
      `id` and `current`, so the last match wins. */
  method ScanTickers(tickers: seq<TickerEntry>, node: int) returns (id: int, current: int)
    ensures Ticket(id, current) == SelectTicket(tickers, node)
  {
    id, current := 0, 0;
    for i := 0 to |tickers|
      invariant Ticket(id, current) == SelectTicket(tickers[..i], node)
    {
      assert tickers[..i + 1][..i] == tickers[..i];
      if tickers[i].node != node {
        continue;
      }
      id := tickers[i].id;
      current := tickers[i].current;
    }
    assert tickers[..|tickers|] == tickers;
  }

  /** A table with no row for our node puts us at (0, 0), which any
      non-negative rate admits at once: token fetching starts straight away
      without a single ticker request. */
  lemma {:induction false} NoMatchingTicketIsAdmitted(d: Descriptor, tickers: seq<TickerEntry>,
                                                     tokenReplies: seq<Reply<Descriptor>>)
    requires forall k :: 0 <= k < |tickers| ==> tickers[k].node != d.node
    requires d.rate >= 0
    ensures SelectTicket(tickers, d.node) == Ticket(0, 0)
    ensures forall tickerReplies: seq<Reply<TickerTable>> ::
              TickQueue(QueueState(d, 0, Int(0)), tickerReplies, tokenReplies) ==
              GetAuthToken(d, 0, tokenReplies)
  {
  }

  /** `getAuthKey(config, callback)` run against the login reply, then the
      ticker replies, then the token replies. The checks come in priority
      order: transport error, token, failure status, queue. */
  method GetAuthKey(login: Reply<Descriptor>, tickerReplies: seq<Reply<TickerTable>>,
                    tokenReplies: seq<Reply<Descriptor>>) returns (r: Run)
    // a failed login request goes to the callback's first argument
    ensures login.TransportFailure? ==> r == Run(Called(Error(login.error), Undefined), 0, 0)
    // an unparseable login body throws out of the response handler
    ensures login.Malformed? ==> r == Run(Uncaught, 0, 0)
    // an immediate token is delivered in the FIRST argument, with no polling at all
    ensures login.Parsed? && HasToken(login.body) ==>
              r == Run(Called(Str(login.body.token.value), Undefined), 0, 0)
    // an explicit failure, when there is no token, ends with the server's reason
    ensures login.Parsed? && !HasToken(login.body) && login.body.status == Some(FailedStatus) ==>
              r == Run(Called(Str(LoginErrorPrefix + ConcatText(login.body.reason)), Undefined), 0, 0)
    // otherwise the response places us in the queue at the selected ticket
    ensures login.Parsed? && !HasToken(login.body) && login.body.status != Some(FailedStatus) ==>
              if login.body.tickers.None? then r == Run(Uncaught, 0, 0)
              else
                var t := SelectTicket(login.body.tickers.value, login.body.node);
                r == TickQueue(QueueState(login.body, t.id, Int(t.current)), tickerReplies, tokenReplies)
  {
    match login
    case TransportFailure(e) =>
      r := Run(Called(Error(e), Undefined), 0, 0);
    case Malformed =>
      r := Run(Uncaught, 0, 0);
    case Parsed(data) =>
      if HasToken(data) {
        r := Run(Called(Str(data.token.value), Undefined), 0, 0);
      } else if data.status == Some(FailedStatus) {
        r := Run(Called(Str(LoginErrorPrefix + ConcatText(data.reason)), Undefined), 0, 0);
      } else if data.tickers.None? {
        // reading `data.tickers.length` throws
        r := Run(Uncaught, 0, 0);
      } else {
        var id, current := ScanTickers(data.tickers.value, data.node);
        r := TickQueue(QueueState(data, id, Int(current)), tickerReplies, tokenReplies);
      }
  }
}
