/** The queue-waiting phase (`tickQueue`): admitted once our ticket is
    within one processing batch of the ticket being served, otherwise poll
    the ticker endpoint and wait again. */
module QueueWaiter {
  import opened LoginTypes
  import opened Hex
  import opened TokenFetcher

  /** The ticker endpoint's reply: hexadecimal ticker values keyed by node id. */
  type TickerTable = map<int, HexText>

  /** The admission test `id - current <= data.rate`; a NaN comparison is false. */
  predicate Admitted(id: int, current: Number, rate: int)
    // NaN is never admitted
    ensures current.NaN? ==> !Admitted(id, current, rate)
    // a ticket already being served, or passed, is admitted at any non-negative rate
    ensures current.Int? && id <= current.value && rate >= 0 ==> Admitted(id, current, rate)
  {
    match current
    case Int(c) => id - c <= rate
    case NaN => false
  }

  /** Serving a later ticket, or a larger rate, never undoes admission. */
  lemma AdmissionIsMonotone(id: int, current: int, rate: int, later: int, larger: int)
    requires Admitted(id, Int(current), rate)
    requires later >= current && larger >= rate
    ensures Admitted(id, Int(later), larger)
  {
  }

  /** `parseInt(obj[data.node], 16)`: the decoded value, or NaN when the
      table has no entry for the node. */
  function TickerValue(table: TickerTable, node: int): (n: Number)
    ensures n.Int? <==> node in table
  {
    if node in table then Int(HexValue(table[node])) else NaN
  }

  /** Where one ticker poll leads: waiting again, or ending the attempt. */
  datatype QueueNext = Requeue(state: QueueState) | QueueAbort(error: TransportError)

  /** The reply handler of one ticker request. */
  function QueuePoll(s: QueueState, reply: Reply<TickerTable>): (next: QueueNext)
    // a poll never changes our ticket or the descriptor
    ensures next.Requeue? ==> next.state.data == s.data && next.state.id == s.id
    // a parsed table replaces the served ticket; a malformed body loses no position
    ensures reply.Parsed? ==> next.Requeue? && next.state.current == TickerValue(reply.body, s.data.node)
    ensures reply.Malformed? ==> next == Requeue(s)
    // a transport failure ends the attempt with that error
    ensures next.QueueAbort? <==> reply.TransportFailure?
    ensures next.QueueAbort? ==> next.error == reply.error
  {
    match reply
    case Parsed(table) => Requeue(s.(current := TickerValue(table, s.data.node)))
    case Malformed => Requeue(s)
    case TransportFailure(e) => QueueAbort(e)
  }

  /** `tickQueue(config, data, id, current, callback)` run against the
      replies of the ticker endpoint, then of the token endpoint. */
  function TickQueue(s: QueueState, tickerReplies: seq<Reply<TickerTable>>,
                     tokenReplies: seq<Reply<Descriptor>>): (r: Run)
    // admitted exactly when token fetching starts at once, from count 0 with the same descriptor
    ensures Admitted(s.id, s.current, s.data.rate) <==> r == GetAuthToken(s.data, 0, tokenReplies)
    ensures r.tickerRequests <= |tickerReplies|
    ensures r.outcome.WaitingForTicker? ==> r.tickerRequests == |tickerReplies|
    decreases |tickerReplies|
  {
    if Admitted(s.id, s.current, s.data.rate) then
      GetAuthToken(s.data, 0, tokenReplies)
    else if tickerReplies == [] then
      Run(WaitingForTicker(s), 0, 0)
    else
      match QueuePoll(s, tickerReplies[0])
      case QueueAbort(e) => Run(Called(Error(e), Undefined), 1, 0)
      case Requeue(next) =>
        var r := TickQueue(next, tickerReplies[1..], tokenReplies);
        r.(tickerRequests := r.tickerRequests + 1)
  }

  /** The served ticket after one ticker reply: a parsed table sets it to the
      node's decoded value, anything else keeps it. */
  function NextCurrent(current: Number, node: int, reply: Reply<TickerTable>): Number
  {
    if reply.Parsed? then TickerValue(reply.body, node) else current
  }

  /** The served ticket after a sequence of ticker replies: each parsed
      table replaces it with the node's decoded value, anything else keeps it. */
  function LastCurrent(current: Number, node: int, replies: seq<Reply<TickerTable>>): Number
    decreases |replies|
  {
    if replies == [] then current
    else LastCurrent(NextCurrent(current, node, replies[0]), node, replies[1..])
  }

  /** The served ticket after the replies is the starting one when no reply
      parsed, and otherwise the decoded value of the last parsed reply. */
  lemma {:induction false} LastCurrentIsLastParsed(current: Number, node: int, replies: seq<Reply<TickerTable>>)
    ensures (forall i :: 0 <= i < |replies| ==> !replies[i].Parsed?) ==> LastCurrent(current, node, replies) == current
    ensures forall k :: 0 <= k < |replies| && replies[k].Parsed? &&
                        (forall j :: k < j < |replies| ==> !replies[j].Parsed?) ==>
              LastCurrent(current, node, replies) == TickerValue(replies[k].body, node)
    decreases |replies|
  {
    if replies != [] {
      var rest := replies[1..];
      LastCurrentIsLastParsed(NextCurrent(current, node, replies[0]), node, rest);
      assert forall j :: 0 <= j < |rest| ==> rest[j] == replies[j + 1];
    }
  }

  /** Over the whole wait, the ticket and the descriptor never change and
      the served ticket follows the parsed replies, a malformed one losing no
      position; the wait ends still waiting, on a transport failure, or by
      handing the unchanged descriptor to the token fetcher with a retry
      count of 0. */
  lemma {:induction false} QueueKeepsTicketAndDescriptor(s: QueueState, tickerReplies: seq<Reply<TickerTable>>,
                                                         tokenReplies: seq<Reply<Descriptor>>)
    ensures var r := TickQueue(s, tickerReplies, tokenReplies);
            var n := r.tickerRequests;
            && (r.outcome.WaitingForTicker? ==>
                  && r.outcome.state.data == s.data && r.outcome.state.id == s.id
                  && r.outcome.state.current == LastCurrent(s.current, s.data.node, tickerReplies))
            && (|| r.outcome.WaitingForTicker?
                || (0 < n && tickerReplies[n - 1].TransportFailure?)
                || r == GetAuthToken(s.data, 0, tokenReplies).(tickerRequests := n))
    decreases |tickerReplies|
  {
    if !Admitted(s.id, s.current, s.data.rate) && tickerReplies != [] {
      match QueuePoll(s, tickerReplies[0])
      case QueueAbort(e) =>
      case Requeue(next) =>
        var rest := tickerReplies[1..];
        QueueKeepsTicketAndDescriptor(next, rest, tokenReplies);
        var inner := TickQueue(next, rest, tokenReplies);
        var r := TickQueue(s, tickerReplies, tokenReplies);
        assert r == inner.(tickerRequests := inner.tickerRequests + 1);
        var n := r.tickerRequests;
        if r.outcome.WaitingForTicker? {
          assert next.current == NextCurrent(s.current, s.data.node, tickerReplies[0]);
          assert LastCurrent(s.current, s.data.node, tickerReplies) == LastCurrent(next.current, s.data.node, rest);
        }
        if 0 < inner.tickerRequests && rest[inner.tickerRequests - 1].TransportFailure? {
          assert tickerReplies[n - 1] == rest[n - 2];
        }
        var g := GetAuthToken(s.data, 0, tokenReplies);
        if inner == g.(tickerRequests := inner.tickerRequests) {
          assert r == g.(tickerRequests := n);
        }
    }
  }

  /** A ticker transport failure is the last ticker reply the wait consumes:
      the attempt ends at once with that reply's error in the first slot,
      with no retry and no token request. */
  lemma {:induction false} TickerTransportFailureEndsWait(s: QueueState, tickerReplies: seq<Reply<TickerTable>>,
                                                          tokenReplies: seq<Reply<Descriptor>>)
    ensures var r := TickQueue(s, tickerReplies, tokenReplies);
            var n := r.tickerRequests;
            forall i :: 0 <= i < n && tickerReplies[i].TransportFailure? ==>
              i == n - 1 && r == Run(Called(Error(tickerReplies[i].error), Undefined), n, 0)
    decreases |tickerReplies|
  {
    if !Admitted(s.id, s.current, s.data.rate) && tickerReplies != [] {
      match QueuePoll(s, tickerReplies[0])
      case QueueAbort(e) =>
      case Requeue(next) =>
        var rest := tickerReplies[1..];
        TickerTransportFailureEndsWait(next, rest, tokenReplies);
        var inner := TickQueue(next, rest, tokenReplies);
        var r := TickQueue(s, tickerReplies, tokenReplies);
        assert r == inner.(tickerRequests := inner.tickerRequests + 1);
        forall i | 0 <= i < r.tickerRequests && tickerReplies[i].TransportFailure?
          ensures i == r.tickerRequests - 1 && r == Run(Called(Error(tickerReplies[i].error), Undefined), r.tickerRequests, 0)
        {
          assert i > 0;
          assert tickerReplies[i] == rest[i - 1];
        }
    }
  }

  lemma LastCurrentOfPrefix(current: Number, node: int, replies: seq<Reply<TickerTable>>, m: nat)
    requires m < |replies|
    ensures LastCurrent(current, node, replies[..m + 1]) ==
            LastCurrent(NextCurrent(current, node, replies[0]), node, replies[1..][..m])
  {
    assert replies[..m + 1][0] == replies[0];
    assert replies[..m + 1][1..] == replies[1..][..m];
  }

  /** The wait keeps polling only while the served ticket, as the replies
      so far have set it, does not admit us; a wait still pending has not
      been admitted by any reply. */
  lemma {:induction false} QueueWaitsUntilAdmitted(s: QueueState, tickerReplies: seq<Reply<TickerTable>>,
                                                   tokenReplies: seq<Reply<Descriptor>>)
    ensures var r := TickQueue(s, tickerReplies, tokenReplies);
            && (forall m :: 0 <= m < r.tickerRequests ==>
                  !Admitted(s.id, LastCurrent(s.current, s.data.node, tickerReplies[..m]), s.data.rate))
            && (r.outcome.WaitingForTicker? ==>
                  !Admitted(s.id, LastCurrent(s.current, s.data.node, tickerReplies), s.data.rate))
    decreases |tickerReplies|
  {
    if !Admitted(s.id, s.current, s.data.rate) && tickerReplies != [] {
      var node := s.data.node;
      var r := TickQueue(s, tickerReplies, tokenReplies);
      match QueuePoll(s, tickerReplies[0])
      case QueueAbort(e) =>
        assert r.tickerRequests == 1;
        assert tickerReplies[..0] == [];
      case Requeue(next) =>
        var rest := tickerReplies[1..];
        var inner := TickQueue(next, rest, tokenReplies);
        assert r == inner.(tickerRequests := inner.tickerRequests + 1);
        assert next.current == NextCurrent(s.current, node, tickerReplies[0]);
        QueueWaitsUntilAdmitted(next, rest, tokenReplies);
        forall m | 0 <= m < r.tickerRequests
          ensures !Admitted(s.id, LastCurrent(s.current, node, tickerReplies[..m]), s.data.rate)
        {
          if m == 0 {
            assert tickerReplies[..0] == [];
          } else {
            LastCurrentOfPrefix(s.current, node, tickerReplies, m - 1);
          }
        }
        if r.outcome.WaitingForTicker? {
          LastCurrentOfPrefix(s.current, node, tickerReplies, |tickerReplies| - 1);
          assert tickerReplies[..|tickerReplies|] == tickerReplies;
          assert rest[..|rest|] == rest;
        }
    }
  }

  /** The wait hands over to the token fetcher exactly at the first reply
      whose value admits us: the served ticket set by the replies consumed
      admits. */
  lemma {:induction false} QueueHandsOverWhenAdmitted(s: QueueState, tickerReplies: seq<Reply<TickerTable>>,
                                                      tokenReplies: seq<Reply<Descriptor>>)
    ensures var r := TickQueue(s, tickerReplies, tokenReplies);
            var n := r.tickerRequests;
            r == GetAuthToken(s.data, 0, tokenReplies).(tickerRequests := n) ==>
              Admitted(s.id, LastCurrent(s.current, s.data.node, tickerReplies[..n]), s.data.rate)
    decreases |tickerReplies|
  {
    var r := TickQueue(s, tickerReplies, tokenReplies);
    var n := r.tickerRequests;
    var g := GetAuthToken(s.data, 0, tokenReplies);
    if Admitted(s.id, s.current, s.data.rate) {
      assert tickerReplies[..n] == [];
    } else if tickerReplies != [] {
      var node := s.data.node;
      match QueuePoll(s, tickerReplies[0])
      case QueueAbort(e) =>
        // a ticker transport error is not a result the token fetcher gives before a request
        assert r == Run(Called(Error(e), Undefined), 1, 0);
        assert g.outcome.Called? && g.outcome.err.Error? ==> g.tokenRequests > 0;
      case Requeue(next) =>
        var rest := tickerReplies[1..];
        var inner := TickQueue(next, rest, tokenReplies);
        assert r == inner.(tickerRequests := inner.tickerRequests + 1);
        QueueHandsOverWhenAdmitted(next, rest, tokenReplies);
        if r == g.(tickerRequests := n) {
          assert inner == g.(tickerRequests := n - 1);
          assert next.current == NextCurrent(s.current, node, tickerReplies[0]);
          LastCurrentOfPrefix(s.current, node, tickerReplies, n - 1);
        }
    }
  }

  /** The example of a queue update: ticket 10, ticket 4 being served, rate 3
      is not admitted; after the ticker reports 8 it is, and token fetching
      starts from a retry count of 0. */
  lemma AdmissionAfterTickerUpdate(d: Descriptor, table: TickerTable)
    requires d.node == 1 && d.rate == 3 && !HasToken(d)
    requires 1 in table && table[1] == "8"
    ensures !Admitted(10, Int(4), d.rate)
    ensures TickQueue(QueueState(d, 10, Int(4)), [Parsed(table)], []) == Run(WaitingForToken(d, 0), 1, 0)
  {
  }
}
