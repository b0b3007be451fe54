/** One exchange with the server: draining, filtering, acknowledging and re-queueing messages. */
module Exchange {
  import opened Common
  import opened Queue
  import opened Persist

  const MAX_PER_EXCHANGE: nat := 100

  /** The server takes this message: it has declared no types yet, it declared this one, or it is a protocol message. */
  predicate Accepts(types: seq<Kind>, m: Message) {
    types == [] || m.kind in types || !m.kind.Named?
  }

  function Filtered(types: seq<Kind>, msgs: seq<Message>): seq<Message> {
    if msgs == [] then []
    else if Accepts(types, msgs[0]) then [msgs[0]] + Filtered(types, msgs[1..])
    else Filtered(types, msgs[1..])
  }

  /** The front of the queue that one exchange takes. */
  function Batch(queue: seq<Message>): seq<Message> { queue[..Min(|queue|, MAX_PER_EXCHANGE)] }

  function AfterBatch(queue: seq<Message>): seq<Message> { queue[Min(|queue|, MAX_PER_EXCHANGE)..] }

  /** The messages put back when the server's next-expected sequence is `ack`. */
  function Requeued(snapshot: seq<Message>, start: int, ack: int): seq<Message> {
    if ack < start + |snapshot| then snapshot[Max(ack - start, 0)..] else []
  }

  datatype Inbound =
    | SetId(id: Option<string>, insecureID: Option<string>)
    | AcceptedTypes(types: Option<seq<Kind>>)
    | Resynchronize(reply: Message)       // `reply` is the acknowledgement, with the operation id copied
    | UnknownId
    | Other(kind: string)                 // registration, registration-complete, and messages for subscribers

  /** What became of the save at the end of an exchange; `disk` is the state it found in the file. */
  datatype StateSave = StateUnreadable | StateNotWritten(disk: State) | StateWritten(disk: State)

  /** What became of the POST. */
  datatype Reply =
    | NotMarshalled
    | PostFailed
    | Undecodable
    | Response(ack: Option<int>, token: Option<string>, inbound: seq<Inbound>, save: StateSave)

  /** What the exchange loop owns. */
  datatype Client = Client(queue: seq<Message>, wake: bool, insecureID: string, state: State)

  const REGISTER := Message(Register, 0)

  function Received(hash: seq<Kind> -> Bytes, c: Client, msg: Inbound): Client {
    match msg
    case SetId(id, insecure) =>
      var s := c.state.(secureID := if id.Some? then id.value else c.state.secureID,
                        insecureID := if insecure.Some? then insecure.value else c.state.insecureID,
                        pluginState := None);
      c.(state := s, insecureID := s.insecureID)
    case AcceptedTypes(Some(types)) => c.(state := c.state.(acceptedTypes := types, acceptedTypesHash := hash(types)))
    case AcceptedTypes(None) => c
    case Resynchronize(reply) => c.(queue := [reply] + c.queue, state := c.state.(pluginState := None))
    case UnknownId => c.(state := c.state.(secureID := "", insecureID := ""))
    case Other(_) => c
  }

  function ReceivedAll(hash: seq<Kind> -> Bytes, c: Client, msgs: seq<Inbound>): Client
    decreases |msgs|
  {
    if msgs == [] then c else ReceivedAll(hash, Received(hash, c, msgs[0]), msgs[1..])
  }

  lemma {:induction false} ReceivedAllAppend(hash: seq<Kind> -> Bytes, c: Client, msgs: seq<Inbound>, m: Inbound)
    ensures ReceivedAll(hash, c, msgs + [m]) == Received(hash, ReceivedAll(hash, c, msgs), m)
    decreases |msgs|
  {
    if msgs == [] {
      assert ReceivedAll(hash, Received(hash, c, m), []) == Received(hash, c, m);
    } else {
      assert (msgs + [m])[1..] == msgs[1..] + [m];
      ReceivedAllAppend(hash, Received(hash, c, msgs[0]), msgs[1..], m);
    }
  }

  lemma {:induction false} OthersChangeNothing(hash: seq<Kind> -> Bytes, c: Client, msgs: seq<Inbound>)
    requires forall m | m in msgs :: m.Other?
    ensures ReceivedAll(hash, c, msgs) == c
    decreases |msgs|
  {
    if msgs != [] {
      assert msgs[0].Other?;
      OthersChangeNothing(hash, c, msgs[1..]);
    }
  }

  /** The queue an exchange starts from: an unregistered client puts a registration in front. */
  function Outgoing(c: Client): seq<Message> {
    if c.state.secureID == "" then [REGISTER] + c.queue else c.queue
  }

  function Snapshot(c: Client): seq<Message> { Filtered(c.state.acceptedTypes, Batch(Outgoing(c))) }

  /** The client once it has read the acknowledgement, the token and the number of messages in a response. */
  function Acked(c: Client, snapshot: seq<Message>, rest: seq<Message>, ack: int, token: Option<string>, inbound: nat): Client {
    c.(queue := Requeued(snapshot, c.state.outboundSequence, ack) + rest,
       state := c.state.(outboundSequence := ack,
                         nextExpectedFromServer := c.state.nextExpectedFromServer + inbound,
                         exchangeToken := if token.Some? then token.value else c.state.exchangeToken))
  }

  /** Memory's plugin entries once the save has merged those on disk into them, whether or not it then succeeds. */
  function Merged(save: StateSave, memory: State): State {
    if save.StateUnreadable? then memory else MemoryAfterSave(save.disk, memory)
  }

  /** The end of an exchange: the state is saved, and if that works, a backlog wakes the loop. */
  function Concluded(c: Client, save: StateSave): Client {
    c.(state := Merged(save, c.state), wake := c.wake || (save.StateWritten? && c.queue != []))
  }

  /** The client after a whole exchange, when other goroutines sent `arrivals` while the request was out. */
  function AfterExchange(hash: seq<Kind> -> Bytes, c: Client, reply: Reply, arrivals: seq<Message>): Client {
    var snapshot := Snapshot(c);
    var rest := AfterBatch(Outgoing(c)) + arrivals;
    match reply
    case NotMarshalled => c.(queue := rest)
    case PostFailed => c.(queue := snapshot + rest)
    case Undecodable => c.(queue := rest)
    case Response(ackField, token, inbound, save) =>
      var start := c.state.outboundSequence;
      var ack := if ackField.Some? then ackField.value else start + |snapshot|;
      var acked := Acked(c, snapshot, rest, ack, token, |inbound|);
      Concluded(ReceivedAll(hash, acked, inbound), save)
  }

  /**
   What the server takes of `whole`, each message as often as it occurs there, in order:
   everything if it has declared no types, and otherwise the declared types and the three
   of the protocol.
   */
  ghost predicate Takes(types: seq<Kind>, part: seq<Message>, whole: seq<Message>) {
    && InOrder(part, whole)
    && forall m :: multiset(part)[m] ==
         if types == [] || m.kind in types || m.kind == Register || m.kind == Kind.Resynchronize || m.kind == OperationResult
         then multiset(whole)[m] else 0
  }

  lemma {:induction false} FilteredTakes(types: seq<Kind>, msgs: seq<Message>)
    ensures Takes(types, Filtered(types, msgs), msgs)
  {
    if msgs == [] {
      InOrderNone(msgs);
    } else {
      var m, rest := msgs[0], msgs[1..];
      FilteredTakes(types, rest);
      assert msgs == [m] + rest;
      if Accepts(types, m) {
        InOrderTake(m, Filtered(types, rest), rest);
      } else {
        InOrderSkip(Filtered(types, rest), m, rest);
      }
    }
  }

  /**
   The start of an exchange: an unregistered client has a registration in front, at most a
   hundred messages leave the queue, and `snapshot` is what the server takes of them.
   */
  ghost predicate Drains(secureID: string, types: seq<Kind>, queue: seq<Message>,
                         snapshot: seq<Message>, rest: seq<Message>) {
    var out := if secureID == "" then [Message(Register, 0)] + queue else queue;
    var n := if |out| < 100 then |out| else 100;
    Takes(types, snapshot, out[..n]) && rest == out[n..]
  }

  lemma SnapshotDrains(c: Client)
    ensures Drains(c.state.secureID, c.state.acceptedTypes, c.queue, Snapshot(c), AfterBatch(Outgoing(c)))
  {
    hide Takes, Filtered;
    FilteredTakes(c.state.acceptedTypes, Batch(Outgoing(c)));
  }

  /** `persist.State` as the loop holds it and updates it. */
  class Session {
    var secureID: string
    var insecureID: string
    var serverUUID: string
    var outboundSequence: int
    var nextExpectedFromServer: int
    var exchangeToken: string
    var acceptedTypes: seq<Kind>
    var acceptedTypesHash: Bytes
    var pluginState: Option<map<string, Raw>>

    function View(): State
      reads this
    {
      State(secureID, insecureID, serverUUID, outboundSequence, nextExpectedFromServer, exchangeToken,
            acceptedTypes, acceptedTypesHash, pluginState)
    }
  }

  /** The exchange coordinator. `wake` is the one-slot channel: true when it holds a token. */
  class Coordinator {
    const hash: seq<Kind> -> Bytes
    var pending: seq<Message>
    var wake: bool
    var insecureID: string

    ghost function View(session: Session): Client
      reads this, session
    {
      Client(pending, wake, insecureID, session.View())
    }

    /** `TriggerExchange`: never blocks, and a second trigger adds nothing. */
    method TriggerExchange()
      modifies this`wake
      ensures wake
    {
      if !wake { wake := true; }
    }

    method Send(m: Message)
      modifies this`pending
      ensures pending == old(pending) + [m]
    {
      pending := pending + [m];
    }

    method SendUrgent(m: Message)
      modifies this`pending, this`wake
      ensures pending == old(pending) + [m] && wake
    {
      pending := pending + [m];
      TriggerExchange();
    }

    /** `persistQueue`, apart from writing the spool file. */
    method PersistQueue()
      modifies this`pending
      ensures Bounds(pending, old(pending))
      ensures pending == Bounded(old(pending))
    {
      hide Bounds;
      var kept, dropped := EnforceQueueBound(pending);
      pending := kept;
    }

    /** The loop that filters the drained messages. */
    method FilterAccepted(types: seq<Kind>, msgs: seq<Message>) returns (filtered: seq<Message>)
      ensures Takes(types, filtered, msgs)
      ensures filtered == Filtered(types, msgs)
    {
      hide Takes;
      if |types| == 0 {
        FilterNothing(types, msgs);
        FilteredTakes(types, msgs);
        return msgs;
      }
      var accepted := (set t | t in types) + {Register, Kind.Resynchronize, OperationResult};
      filtered := [];
      for i := 0 to |msgs|
        invariant Filtered(types, msgs) == filtered + Filtered(types, msgs[i..])
      {
        assert msgs[i..][1..] == msgs[i + 1..];
        if msgs[i].kind in accepted {
          Reassociate(filtered, [msgs[i]], Filtered(types, msgs[i + 1..]));
          filtered := filtered + [msgs[i]];
        }
      }
      assert filtered + [] == filtered;
      FilteredTakes(types, msgs);
    }

    /** One message from the server. */
    method Receive(session: Session, msg: Inbound)
      modifies this, session
      ensures View(session) == Received(hash, old(View(session)), msg)
    {
      match msg {
        case SetId(id, insecure) =>
          if id.Some? { session.secureID := id.value; }
          if insecure.Some? { session.insecureID := insecure.value; }
          session.pluginState := None;
          insecureID := session.insecureID;
        case AcceptedTypes(types) =>
          if types.Some? {
            session.acceptedTypes := types.value;
            session.acceptedTypesHash := hash(types.value);
          }
        case Resynchronize(reply) =>
          session.pluginState := None;
          pending := [reply] + pending;
        case UnknownId =>
          session.secureID := "";
          session.insecureID := "";
        case Other(_) =>
      }
    }

    /** The first part of `performExchange`: register if need be, drain a batch, drop what the server does not take. */
    method Drain(session: Session) returns (snapshot: seq<Message>)
      modifies this`pending
      ensures Drains(old(session.secureID), old(session.acceptedTypes), old(pending), snapshot, pending)
      ensures snapshot == Snapshot(old(View(session)))
      ensures pending == AfterBatch(Outgoing(old(View(session))))
    {
      hide Filtered, Takes;
      SnapshotDrains(View(session));
      hide Drains;
      if session.secureID == "" { pending := [REGISTER] + pending; }
      var n := Min(|pending|, MAX_PER_EXCHANGE);
      snapshot := pending[..n];
      pending := pending[n..];
      snapshot := FilterAccepted(session.acceptedTypes, snapshot);
    }

    /** What the server has not confirmed goes back to the front of the queue. */
    method Requeue(snapshot: seq<Message>, start: int, serverACK: int)
      modifies this`pending
      ensures pending == Requeued(snapshot, start, serverACK) + old(pending)
    {
      if serverACK < start + |snapshot| {
        var nAcked := Max(serverACK - start, 0);
        if nAcked < |snapshot| { pending := snapshot[nAcked..] + pending; }
      }
    }

    /** The head of the response: what the server has not confirmed goes back to the front of the queue. */
    method ReadResponse(session: Session, snapshot: seq<Message>, ack: Option<int>, token: Option<string>, inbound: nat)
      modifies this`pending, session
      ensures
        var c := old(View(session));
        var next := if ack.Some? then ack.value else c.state.outboundSequence + |snapshot|;
        View(session) == Acked(c, snapshot, old(pending), next, token, inbound)
    {
      var sentUpTo := session.outboundSequence + |snapshot|;
      var serverACK := if ack.Some? then ack.value else sentUpTo;
      Requeue(snapshot, session.outboundSequence, serverACK);
      session.outboundSequence := serverACK;
      session.nextExpectedFromServer := session.nextExpectedFromServer + inbound;
      if token.Some? { session.exchangeToken := token.value; }
    }

    /** The loop over the server's messages. */
    method ReceiveAll(session: Session, inbound: seq<Inbound>)
      modifies this, session
      ensures View(session) == ReceivedAll(hash, old(View(session)), inbound)
      ensures wake == old(wake)
    {
      for i := 0 to |inbound|
        invariant View(session) == ReceivedAll(hash, old(View(session)), inbound[..i])
        invariant wake == old(wake)
      {
        Receive(session, inbound[i]);
        assert inbound[..i + 1] == inbound[..i] + [inbound[i]];
        ReceivedAllAppend(hash, old(View(session)), inbound[..i], inbound[i]);
      }
      assert inbound[..|inbound|] == inbound;
    }

    /** The save merges the entries on disk into the map that memory holds; a nil map is not kept. */
    method Conclude(session: Session, save: StateSave)
      modifies this`wake, session`pluginState
      ensures View(session) == Concluded(old(View(session)), save)
    {
      if !save.StateUnreadable? && session.pluginState.Some? {
        session.pluginState := Some(session.pluginState.value + save.disk.Plugins());
      }
      if save.StateWritten? && |pending| > 0 { TriggerExchange(); }
    }

    /** `performExchange`; `reply` stands for the network and the state file, `arrivals` for concurrent senders. */
    method PerformExchange(session: Session, reply: Reply, arrivals: seq<Message>) returns (ok: bool)
      modifies this, session
      ensures View(session) == AfterExchange(hash, old(View(session)), reply, arrivals)
      ensures ok == (reply.Response? && reply.save.StateWritten?)
    {
      hide Filtered, Merged, Drains, ReceivedAll, Requeued;
      ghost var c := View(session);
      var snapshot := Drain(session);
      pending := pending + arrivals;
      ghost var rest := pending;
      match reply {
        case NotMarshalled => ok := false;
        case PostFailed =>
          pending := snapshot + pending;
          ok := false;
        case Undecodable => ok := false;
        case Response(ack, token, inbound, save) =>
          ReadResponse(session, snapshot, ack, token, |inbound|);
          ghost var next := if ack.Some? then ack.value else c.state.outboundSequence + |snapshot|;
          assert View(session) == Acked(c, snapshot, rest, next, token, |inbound|);
          ReceiveAll(session, inbound);
          Conclude(session, save);
          ok := save.StateWritten?;
      }
    }
  }

  lemma {:induction false} FilterNothing(types: seq<Kind>, msgs: seq<Message>)
    requires forall m | m in msgs :: Accepts(types, m)
    ensures Filtered(types, msgs) == msgs
  {
    if msgs != [] { FilterNothing(types, msgs[1..]); }
  }

  lemma {:induction false} FilteredConcat(types: seq<Kind>, a: seq<Message>, b: seq<Message>)
    ensures Filtered(types, a + b) == Filtered(types, a) + Filtered(types, b)
  {
    if a == [] {
      assert a + b == b;
    } else {
      FilteredConcat(types, a[1..], b);
      assert (a + b)[0] == a[0] && (a + b)[1..] == a[1..] + b;
      Reassociate([a[0]], Filtered(types, a[1..]), Filtered(types, b));
    }
  }

  lemma {:induction false} FilteredAccepted(types: seq<Kind>, msgs: seq<Message>)
    ensures forall m | m in Filtered(types, msgs) :: Accepts(types, m) && m in msgs
    ensures |Filtered(types, msgs)| <= |msgs|
  {
    if msgs != [] { FilteredAccepted(types, msgs[1..]); }
  }

  lemma {:induction false} FilteredMember(types: seq<Kind>, msgs: seq<Message>, m: Message)
    requires m in msgs && Accepts(types, m)
    ensures m in Filtered(types, msgs)
  {
    if msgs[0] != m { FilteredMember(types, msgs[1..], m); }
  }
}
