/** What an exchange leaves of the client: who it thinks it is, and everything else, message by message. */
module Identity {
  import opened Common
  import opened Queue
  import opened Exchange
  import opened Persist

  /** Every set-id message carries both ids. */
  ghost predicate CarriesIds(msgs: seq<Inbound>) {
    forall i | 0 <= i < |msgs| && msgs[i].SetId? ::
      msgs[i].id.Some? && msgs[i].id.value != "" && msgs[i].insecureID.Some? && msgs[i].insecureID.value != ""
  }

  /** The last of the messages that are about the client's identity tells the client it is unknown. */
  predicate EndsUnknown(msgs: seq<Inbound>) {
    msgs != [] &&
    var last := msgs[|msgs| - 1];
    last.UnknownId? || (!last.SetId? && EndsUnknown(msgs[..|msgs| - 1]))
  }

  predicate Registered(c: Client) { c.state.secureID != "" && c.state.insecureID != "" }

  predicate InSync(c: Client) { c.insecureID == c.state.insecureID }

  predicate MentionsSetId(msgs: seq<Inbound>) { exists i :: 0 <= i < |msgs| && msgs[i].SetId? }

  /** The insecure id that the state holds after some messages, if it held `id` before. */
  function StateId(id: string, msgs: seq<Inbound>): string {
    if msgs == [] then id
    else
      match msgs[|msgs| - 1]
      case SetId(_, Some(insecure)) => insecure
      case UnknownId => ""
      case _ => StateId(id, msgs[..|msgs| - 1])
  }

  /** The ping loop's insecure id: the one that the state held after the last set-id. */
  function PingId(c: Client, msgs: seq<Inbound>): string {
    if msgs == [] then c.insecureID
    else if msgs[|msgs| - 1].SetId? then StateId(c.state.insecureID, msgs)
    else PingId(c, msgs[..|msgs| - 1])
  }

  /**
   What the server's messages leave of the client's identity. The ping loop goes on with an
   id that the state has given up exactly when it has one and the server's last word on
   the client's identity is unknown-id; and a registered client that is sent whole
   identities stays registered exactly when that is not the last word.
   */
  lemma {:induction false} UnknownIdLeavesPingId(hash: seq<Kind> -> Bytes, c: Client, msgs: seq<Inbound>)
    ensures
      var d := ReceivedAll(hash, c, msgs);
      && d.state.insecureID == StateId(c.state.insecureID, msgs)
      && d.insecureID == PingId(c, msgs)
      && (EndsUnknown(msgs) ==> d.state.secureID == "" && d.state.insecureID == "")
      && (InSync(d) <==> if EndsUnknown(msgs) then PingId(c, msgs) == "" else InSync(c) || MentionsSetId(msgs))
      && (Registered(c) && CarriesIds(msgs) ==> (Registered(d) <==> !EndsUnknown(msgs)))
  {
    if msgs != [] {
      var n := |msgs| - 1;
      UnknownIdLeavesPingId(hash, c, msgs[..n]);
      assert msgs == msgs[..n] + [msgs[n]];
      ReceivedAllAppend(hash, c, msgs[..n], msgs[n]);
      assert MentionsSetId(msgs) <==> msgs[n].SetId? || MentionsSetId(msgs[..n]);
    }
  }

  /** Whatever the server's messages say, the numbers and the token stay. */
  lemma {:induction false} ReceivingKeepsNumbers(hash: seq<Kind> -> Bytes, c: Client, msgs: seq<Inbound>)
    ensures
      var d := ReceivedAll(hash, c, msgs);
      && d.state.outboundSequence == c.state.outboundSequence
      && d.state.nextExpectedFromServer == c.state.nextExpectedFromServer
      && d.state.exchangeToken == c.state.exchangeToken
      && d.state.serverUUID == c.state.serverUUID
    decreases |msgs|
  {
    if msgs != [] {
      ReceivingKeepsNumbers(hash, Received(hash, c, msgs[0]), msgs[1..]);
    }
  }

  // All that the server's messages decide.

  /** The `id` of the last set-id that carries one, unless unknown-id came after it. */
  function SecureId(own: string, msgs: seq<Inbound>): string {
    if msgs == [] then own
    else
      match msgs[|msgs| - 1]
      case SetId(Some(id), _) => id
      case UnknownId => ""
      case _ => SecureId(own, msgs[..|msgs| - 1])
  }

  /** The last list of accepted types. */
  function DeclaredTypes(msgs: seq<Inbound>): Option<seq<Kind>> {
    if msgs == [] then None
    else
      match msgs[|msgs| - 1]
      case AcceptedTypes(Some(types)) => Some(types)
      case _ => DeclaredTypes(msgs[..|msgs| - 1])
  }

  /** The acknowledgements of resynchronize messages, the last one in front. */
  function Acknowledgements(msgs: seq<Inbound>): seq<Message> {
    if msgs == [] then []
    else
      match msgs[|msgs| - 1]
      case Resynchronize(reply) => [reply] + Acknowledgements(msgs[..|msgs| - 1])
      case _ => Acknowledgements(msgs[..|msgs| - 1])
  }

  predicate ResetsPlugins(msgs: seq<Inbound>) {
    exists i :: 0 <= i < |msgs| && (msgs[i].SetId? || msgs[i].Resynchronize?)
  }

  /** For any messages from the server: the ids, accepted types and plugin entries that they leave. */
  lemma {:induction false} ReceivingDecides(hash: seq<Kind> -> Bytes, c: Client, msgs: seq<Inbound>)
    ensures
      var d, declared := ReceivedAll(hash, c, msgs), DeclaredTypes(msgs);
      && d.state.secureID == SecureId(c.state.secureID, msgs)
      && d.state.acceptedTypes == (if declared.Some? then declared.value else c.state.acceptedTypes)
      && d.state.acceptedTypesHash == (if declared.Some? then hash(declared.value) else c.state.acceptedTypesHash)
      && d.state.pluginState == (if ResetsPlugins(msgs) then None else c.state.pluginState)
  {
    if msgs != [] {
      var n := |msgs| - 1;
      ReceivingDecides(hash, c, msgs[..n]);
      assert ReceivedAll(hash, c, msgs) == Received(hash, ReceivedAll(hash, c, msgs[..n]), msgs[n]) by {
        assert msgs == msgs[..n] + [msgs[n]];
        ReceivedAllAppend(hash, c, msgs[..n], msgs[n]);
      }
      hide ReceivedAll;
      assert ResetsPlugins(msgs) <==> msgs[n].SetId? || msgs[n].Resynchronize? || ResetsPlugins(msgs[..n]);
      hide ResetsPlugins;
    }
  }

  /** And the queue: every acknowledgement goes in front. */
  lemma {:induction false} ReceivingQueues(hash: seq<Kind> -> Bytes, c: Client, msgs: seq<Inbound>)
    ensures ReceivedAll(hash, c, msgs).queue == Acknowledgements(msgs) + c.queue
    ensures ReceivedAll(hash, c, msgs).wake == c.wake
  {
    if msgs == [] {
      assert [] + c.queue == c.queue;
    } else {
      var n := |msgs| - 1;
      ReceivingQueues(hash, c, msgs[..n]);
      assert msgs == msgs[..n] + [msgs[n]];
      ReceivedAllAppend(hash, c, msgs[..n], msgs[n]);
      hide ReceivedAll;
      if msgs[n].Resynchronize? { Reassociate([msgs[n].reply], Acknowledgements(msgs[..n]), c.queue); }
    }
  }

  /** An exchange that ends before a response is read changes the queue and nothing else. */
  lemma EarlyEnd(hash: seq<Kind> -> Bytes, c: Client, reply: Reply, arrivals: seq<Message>)
    requires !reply.Response?
    ensures
      var d := AfterExchange(hash, c, reply, arrivals);
      exists snapshot, rest ::
        && Drains(c.state.secureID, c.state.acceptedTypes, c.queue, snapshot, rest)
        && d == c.(queue := (if reply.PostFailed? then snapshot else []) + (rest + arrivals))
  {
    hide Drains;
    SnapshotDrains(c);
    assert [] + (AfterBatch(Outgoing(c)) + arrivals) == AfterBatch(Outgoing(c)) + arrivals;
  }

  /** How many of `sent` messages lie below the server's next-expected number. */
  function Confirmed(start: int, next: int, sent: nat): nat {
    if next <= start then 0 else if next - start >= sent then sent else next - start
  }

  lemma {:induction false} SamePingId(c: Client, d: Client, msgs: seq<Inbound>)
    requires d.insecureID == c.insecureID && d.state.insecureID == c.state.insecureID
    ensures PingId(d, msgs) == PingId(c, msgs)
  {
    if msgs != [] { SamePingId(c, d, msgs[..|msgs| - 1]); }
  }

  /** The client with the head of the response read. */
  function HeadRead(c: Client, reply: Reply, arrivals: seq<Message>): Client
    requires reply.Response?
  {
    var snapshot := Snapshot(c);
    var next := if reply.ack.Some? then reply.ack.value else c.state.outboundSequence + |snapshot|;
    Acked(c, snapshot, AfterBatch(Outgoing(c)) + arrivals, next, reply.token, |reply.inbound|)
  }

  lemma ResponseIs(hash: seq<Kind> -> Bytes, c: Client, reply: Reply, arrivals: seq<Message>)
    requires reply.Response?
    ensures AfterExchange(hash, c, reply, arrivals)
         == Concluded(ReceivedAll(hash, HeadRead(c, reply, arrivals), reply.inbound), reply.save)
  {
    hide Filtered, ReceivedAll, Merged, Requeued;
  }

  /** What a response leaves of the client's state: numbers and token from its head, the rest from its messages. */
  lemma ResponseState(hash: seq<Kind> -> Bytes, c: Client, reply: Reply, arrivals: seq<Message>)
    requires reply.Response?
    ensures
      var d, s := AfterExchange(hash, c, reply, arrivals), c.state;
      var msgs, declared := reply.inbound, DeclaredTypes(reply.inbound);
      && d.state.secureID == SecureId(s.secureID, msgs) && d.state.insecureID == StateId(s.insecureID, msgs)
      && d.insecureID == PingId(c, msgs) && d.state.serverUUID == s.serverUUID
      && d.state.acceptedTypes == (if declared.Some? then declared.value else s.acceptedTypes)
      && d.state.acceptedTypesHash == (if declared.Some? then hash(declared.value) else s.acceptedTypesHash)
      && d.state.exchangeToken == (if reply.token.Some? then reply.token.value else s.exchangeToken)
      && d.state.nextExpectedFromServer == s.nextExpectedFromServer + |msgs|
      && (reply.ack.Some? ==> d.state.outboundSequence == reply.ack.value)
  {
    hide Filtered, ReceivedAll, Requeued, AfterExchange, SecureId, StateId, DeclaredTypes;
    var acked := HeadRead(c, reply, arrivals);
    ResponseIs(hash, c, reply, arrivals);
    SamePingId(c, acked, reply.inbound);
    hide PingId;
    ReceivingDecides(hash, acked, reply.inbound);
    UnknownIdLeavesPingId(hash, acked, reply.inbound);
    ReceivingKeepsNumbers(hash, acked, reply.inbound);
  }

  /**
   The plugin entries that memory holds after a response: none if a set-id or resynchronize
   came; otherwise those on disk join them, whether or not the save then works.
   */
  lemma ResponsePlugins(hash: seq<Kind> -> Bytes, c: Client, reply: Reply, arrivals: seq<Message>)
    requires reply.Response?
    ensures
      var d := AfterExchange(hash, c, reply, arrivals);
      if ResetsPlugins(reply.inbound) || c.state.pluginState.None? then d.state.pluginState.None?
      else if reply.save.StateUnreadable? then d.state.pluginState == c.state.pluginState
      else d.state.pluginState.Some? && forall onDisk | HasPlugins(reply.save.disk, onDisk) ::
             Joined(d.state.pluginState.value, c.state.pluginState.value, onDisk)
  {
    hide Filtered, ReceivedAll, Requeued, AfterExchange, ResetsPlugins;
    ResponseIs(hash, c, reply, arrivals);
    ReceivingDecides(hash, HeadRead(c, reply, arrivals), reply.inbound);
  }

  /**
   The queue that a response leaves: acknowledgements, what the server has not confirmed of
   the batch, and the rest. It sets the wake token, if the state is saved, unless it is empty.
   */
  lemma ResponseQueue(hash: seq<Kind> -> Bytes, c: Client, reply: Reply, arrivals: seq<Message>)
    requires reply.Response?
    ensures
      var d, start := AfterExchange(hash, c, reply, arrivals), c.state.outboundSequence;
      && d.wake == (c.wake || (reply.save.StateWritten? && d.queue != []))
      && exists snapshot, rest ::
           && Drains(c.state.secureID, c.state.acceptedTypes, c.queue, snapshot, rest)
           && (reply.ack.None? ==> d.state.outboundSequence == start + |snapshot|)
           && d.queue == Acknowledgements(reply.inbound)
                         + (snapshot[Confirmed(start, d.state.outboundSequence, |snapshot|)..] + (rest + arrivals))
  {
    hide Filtered, ReceivedAll, AfterExchange, Drains, Acknowledgements;
    var acked, snapshot := HeadRead(c, reply, arrivals), Snapshot(c);
    ResponseIs(hash, c, reply, arrivals);
    SnapshotDrains(c);
    ReceivingQueues(hash, acked, reply.inbound);
    ReceivingKeepsNumbers(hash, acked, reply.inbound);
    RequeuedRest(snapshot, c.state.outboundSequence, acked.state.outboundSequence);
  }

  lemma RequeuedRest(snapshot: seq<Message>, start: int, ack: int)
    ensures Requeued(snapshot, start, ack) == snapshot[Confirmed(start, ack, |snapshot|)..]
  {
  }

  /** An unregistered client sends a registration first, whatever types the server has declared. */
  lemma RegistersFirst(c: Client)
    requires c.state.secureID == ""
    ensures Snapshot(c) != [] && Snapshot(c)[0] == Message(Register, 0)
  {
    var batch := Batch(Outgoing(c));
    assert batch[0] == REGISTER;
  }

  /** A client without a state file is unregistered, with its numbers at zero. */
  lemma FreshClientRegisters(d: Disk, c: Client)
    requires d.main.Missing? && Load(d) == Some(c.state)
    ensures c.state.secureID == "" && c.state.outboundSequence == 0 && c.state.nextExpectedFromServer == 0
    ensures c.state.acceptedTypes == [] && Snapshot(c) != [] && Snapshot(c)[0] == Message(Register, 0)
  {
    RegistersFirst(c);
  }
}
