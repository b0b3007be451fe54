/** Every message accounted for, over any run of the client and any behaviour of the server. */
module Ledger {
  import opened Common
  import opened Queue
  import opened Exchange
  import Identity
  import Persist

  /** What can happen to the client's queue. */
  datatype Event =
    | Enqueue(m: Message)                                   // Send or SendUrgent
    | Exchanged(reply: Reply, arrivals: seq<Message>)       // performExchange
    | Bound                                                 // persistQueue

  function Next(hash: seq<Kind> -> Bytes, c: Client, e: Event): Client {
    match e
    case Enqueue(m) => c.(queue := c.queue + [m])
    case Exchanged(reply, arrivals) => AfterExchange(hash, c, reply, arrivals)
    case Bound => c.(queue := Bounded(c.queue))
  }

  function Run(hash: seq<Kind> -> Bytes, c: Client, events: seq<Event>): Client
    decreases |events|
  {
    if events == [] then c else Run(hash, Next(hash, c, events[0]), events[1..])
  }

  /** The part of a snapshot whose sequence numbers lie below the server's next-expected one. */
  function Confirmed(snapshot: seq<Message>, start: int, ack: int): seq<Message> {
    snapshot[..Max(0, Min(ack - start, |snapshot|))]
  }

  /** The drained messages of a type the server has not declared. */
  function Rejected(types: seq<Kind>, msgs: seq<Message>): seq<Message> {
    if msgs == [] then []
    else if Accepts(types, msgs[0]) then Rejected(types, msgs[1..])
    else [msgs[0]] + Rejected(types, msgs[1..])
  }

  function Removed(msgs: seq<Message>, excess: nat): seq<Message> {
    if msgs == [] || excess == 0 then []
    else if IsUrgent(msgs[0]) then Removed(msgs[1..], excess)
    else [msgs[0]] + Removed(msgs[1..], excess - 1)
  }

  /** The acknowledgements that resynchronize messages put into the queue. */
  function Replies(inbound: seq<Inbound>): seq<Message> {
    if inbound == [] then []
    else if inbound[0].Resynchronize? then [inbound[0].reply] + Replies(inbound[1..])
    else Replies(inbound[1..])
  }

  // The ways in and out of the queue, event by event.

  function Entering(c: Client, e: Event): seq<Message> {
    match e
    case Enqueue(m) => [m]
    case Exchanged(reply, arrivals) =>
      (if c.state.secureID == "" then [REGISTER] else []) + arrivals
      + (if reply.Response? then Replies(reply.inbound) else [])
    case Bound => []
  }

  /** Confirmed by the server. */
  function Covered(c: Client, e: Event): seq<Message> {
    if e.Exchanged? && e.reply.Response? then
      var snapshot, start := Snapshot(c), c.state.outboundSequence;
      Confirmed(snapshot, start, if e.reply.ack.Some? then e.reply.ack.value else start + |snapshot|)
    else []
  }

  /** Dropped on purpose: of no use to the server, or beyond the queue bound. */
  function Discarded(c: Client, e: Event): seq<Message> {
    match e
    case Enqueue(_) => []
    case Exchanged(_, _) => Rejected(c.state.acceptedTypes, Batch(Outgoing(c)))
    case Bound => if |c.queue| <= MAX_QUEUED then [] else Removed(c.queue, |c.queue| - MAX_QUEUED)
  }

  /** Given up by an exchange that returns early without re-queueing. */
  function Forfeited(c: Client, e: Event): seq<Message> {
    if e.Exchanged? && (e.reply.NotMarshalled? || e.reply.Undecodable?) then Snapshot(c) else []
  }

  /** How often a message occurs. */
  function Count(m: Message, msgs: seq<Message>): nat {
    if msgs == [] then 0 else (if msgs[0] == m then 1 else 0) + Count(m, msgs[1..])
  }

  lemma {:induction false} CountConcat(m: Message, a: seq<Message>, b: seq<Message>)
    ensures Count(m, a + b) == Count(m, a) + Count(m, b)
  {
    if a == [] {
      assert a + b == b;
    } else {
      CountConcat(m, a[1..], b);
      assert (a + b)[1..] == a[1..] + b;
    }
  }

  lemma {:induction false} FilterPartition(types: seq<Kind>, msgs: seq<Message>, m: Message)
    ensures Count(m, msgs) == Count(m, Filtered(types, msgs)) + Count(m, Rejected(types, msgs))
    ensures IsUrgent(m) ==> Count(m, Rejected(types, msgs)) == 0
  {
    if msgs != [] {
      FilterPartition(types, msgs[1..], m);
      if Accepts(types, msgs[0]) {
        CountConcat(m, [msgs[0]], Filtered(types, msgs[1..]));
      } else {
        CountConcat(m, [msgs[0]], Rejected(types, msgs[1..]));
      }
    }
  }

  lemma {:induction false} TrimPartition(msgs: seq<Message>, excess: nat, m: Message)
    ensures Count(m, msgs) == Count(m, Trim(msgs, excess)) + Count(m, Removed(msgs, excess))
    ensures IsUrgent(m) ==> Count(m, Removed(msgs, excess)) == 0
  {
    if msgs != [] && excess > 0 {
      if IsUrgent(msgs[0]) {
        TrimPartition(msgs[1..], excess, m);
        CountConcat(m, [msgs[0]], Trim(msgs[1..], excess));
      } else {
        TrimPartition(msgs[1..], excess - 1, m);
        CountConcat(m, [msgs[0]], Removed(msgs[1..], excess - 1));
      }
    }
  }

  /** An acknowledgement splits the snapshot: confirmed, or back in the queue. */
  lemma AckPartition(snapshot: seq<Message>, start: int, ack: int, m: Message)
    ensures Count(m, snapshot) == Count(m, Confirmed(snapshot, start, ack)) + Count(m, Requeued(snapshot, start, ack))
  {
    assert snapshot == Confirmed(snapshot, start, ack) + Requeued(snapshot, start, ack);
    CountConcat(m, Confirmed(snapshot, start, ack), Requeued(snapshot, start, ack));
  }

  lemma {:induction false} ReceivedQueue(hash: seq<Kind> -> Bytes, c: Client, inbound: seq<Inbound>, m: Message)
    ensures Count(m, ReceivedAll(hash, c, inbound).queue) == Count(m, c.queue) + Count(m, Replies(inbound))
    decreases |inbound|
  {
    if inbound != [] {
      var next := Received(hash, c, inbound[0]);
      ReceivedQueue(hash, next, inbound[1..], m);
      if inbound[0].Resynchronize? {
        CountConcat(m, [inbound[0].reply], c.queue);
        CountConcat(m, [inbound[0].reply], Replies(inbound[1..]));
      }
    }
  }

  /** The first part of an exchange: everything on hand is in the snapshot, left in the queue, or rejected. */
  lemma DrainPartition(c: Client, arrivals: seq<Message>, m: Message)
    ensures Count(m, Outgoing(c)) + Count(m, arrivals)
         == Count(m, Snapshot(c)) + Count(m, AfterBatch(Outgoing(c)) + arrivals)
            + Count(m, Rejected(c.state.acceptedTypes, Batch(Outgoing(c))))
  {
    var out := Outgoing(c);
    assert out == Batch(out) + AfterBatch(out);
    CountConcat(m, Batch(out), AfterBatch(out));
    CountConcat(m, AfterBatch(out), arrivals);
    FilterPartition(c.state.acceptedTypes, Batch(out), m);
  }

  lemma EnteringCount(c: Client, reply: Reply, arrivals: seq<Message>, m: Message)
    ensures Count(m, c.queue) + Count(m, Entering(c, Exchanged(reply, arrivals)))
         == Count(m, Outgoing(c)) + Count(m, arrivals) + (if reply.Response? then Count(m, Replies(reply.inbound)) else 0)
  {
    var first := if c.state.secureID == "" then [REGISTER] else [];
    var last := if reply.Response? then Replies(reply.inbound) else [];
    CountConcat(m, first + arrivals, last);
    CountConcat(m, first, arrivals);
    assert Outgoing(c) == first + c.queue;
    CountConcat(m, first, c.queue);
  }

  lemma ResponseConserves(hash: seq<Kind> -> Bytes, c: Client, reply: Reply, arrivals: seq<Message>, m: Message)
    requires reply.Response?
    ensures Count(m, AfterExchange(hash, c, reply, arrivals).queue) + Count(m, Covered(c, Exchanged(reply, arrivals)))
         == Count(m, Snapshot(c)) + Count(m, AfterBatch(Outgoing(c)) + arrivals) + Count(m, Replies(reply.inbound))
  {
    hide Count, Filtered, ReceivedAll, Requeued, Merged;
    var snapshot, start := Snapshot(c), c.state.outboundSequence;
    var rest := AfterBatch(Outgoing(c)) + arrivals;
    var ack := if reply.ack.Some? then reply.ack.value else start + |snapshot|;
    AckPartition(snapshot, start, ack, m);
    CountConcat(m, Requeued(snapshot, start, ack), rest);
    ReceivedQueue(hash, Acked(c, snapshot, rest, ack, reply.token, |reply.inbound|), reply.inbound, m);
  }

  /** One exchange: what was queued or came in is still queued, or confirmed, or discarded, or given up. */
  lemma ExchangeConserves(hash: seq<Kind> -> Bytes, c: Client, reply: Reply, arrivals: seq<Message>, m: Message)
    ensures
      var e := Exchanged(reply, arrivals);
      Count(m, c.queue) + Count(m, Entering(c, e))
        == Count(m, AfterExchange(hash, c, reply, arrivals).queue)
           + Count(m, Covered(c, e)) + Count(m, Discarded(c, e)) + Count(m, Forfeited(c, e))
  {
    var snapshot, rest := Snapshot(c), AfterBatch(Outgoing(c)) + arrivals;
    EnteringCount(c, reply, arrivals, m);
    DrainPartition(c, arrivals, m);
    match reply
    case NotMarshalled =>
    case PostFailed => CountConcat(m, snapshot, rest);
    case Undecodable =>
    case Response(_, _, _, _) => ResponseConserves(hash, c, reply, arrivals, m);
  }

  lemma EventConserves(hash: seq<Kind> -> Bytes, c: Client, e: Event, m: Message)
    ensures Count(m, c.queue) + Count(m, Entering(c, e))
         == Count(m, Next(hash, c, e).queue)
            + Count(m, Covered(c, e)) + Count(m, Discarded(c, e)) + Count(m, Forfeited(c, e))
    ensures IsUrgent(m) ==> Count(m, Discarded(c, e)) == 0
  {
    match e
    case Enqueue(sent) => CountConcat(m, c.queue, [sent]);
    case Exchanged(reply, arrivals) =>
      ExchangeConserves(hash, c, reply, arrivals, m);
      FilterPartition(c.state.acceptedTypes, Batch(Outgoing(c)), m);
    case Bound =>
      if |c.queue| > MAX_QUEUED { TrimPartition(c.queue, |c.queue| - MAX_QUEUED, m); }
  }

  /** How often a message entered, was confirmed, discarded, or given up over a run. */
  datatype Totals = Totals(entered: nat, covered: nat, discarded: nat, forfeited: nat)

  function Tally(hash: seq<Kind> -> Bytes, c: Client, events: seq<Event>, m: Message): Totals
    decreases |events|
  {
    if events == [] then Totals(0, 0, 0, 0)
    else
      var e, rest := events[0], Tally(hash, Next(hash, c, events[0]), events[1..], m);
      Totals(rest.entered + Count(m, Entering(c, e)), rest.covered + Count(m, Covered(c, e)),
             rest.discarded + Count(m, Discarded(c, e)), rest.forfeited + Count(m, Forfeited(c, e)))
  }

  /** Conservation over any run: no message is duplicated, and none disappears unaccounted for. */
  lemma {:induction false} Conservation(hash: seq<Kind> -> Bytes, c: Client, events: seq<Event>, m: Message)
    ensures
      var t := Tally(hash, c, events, m);
      && Count(m, c.queue) + t.entered == Count(m, Run(hash, c, events).queue) + t.covered + t.discarded + t.forfeited
      && (IsUrgent(m) ==> t.discarded == 0)
    decreases |events|
  {
    if events != [] {
      EventConserves(hash, c, events[0], m);
      Conservation(hash, Next(hash, c, events[0]), events[1..], m);
    }
  }

  /** No exchange of the run fails to marshal its payload or gets a response it cannot decode. */
  predicate NoEarlyReturn(events: seq<Event>) {
    forall e | e in events :: e.Exchanged? ==> e.reply.PostFailed? || e.reply.Response?
  }

  /**
   Operation results are never lost: each is still queued or was confirmed by the server.
   The early returns of `performExchange` are the only way out.
   */
  lemma ResultsNeverLost(hash: seq<Kind> -> Bytes, c: Client, events: seq<Event>, m: Message)
    requires IsUrgent(m)
    ensures
      var t := Tally(hash, c, events, m);
      && Count(m, c.queue) + t.entered == Count(m, Run(hash, c, events).queue) + t.covered + t.forfeited
      && (NoEarlyReturn(events) ==> t.forfeited == 0)
  {
    Conservation(hash, c, events, m);
    if NoEarlyReturn(events) { NothingForfeited(hash, c, events, m); }
  }

  lemma {:induction false} NothingForfeited(hash: seq<Kind> -> Bytes, c: Client, events: seq<Event>, m: Message)
    requires NoEarlyReturn(events)
    ensures Tally(hash, c, events, m).forfeited == 0
    decreases |events|
  {
    if events != [] {
      assert events[0] in events;
      NothingForfeited(hash, Next(hash, c, events[0]), events[1..], m);
    }
  }

  lemma {:induction false} CountMember(m: Message, msgs: seq<Message>)
    ensures Count(m, msgs) > 0 <==> m in msgs
  {
    if msgs != [] { CountMember(m, msgs[1..]); }
  }

  /** No event takes an operation result out of the queue unless an acknowledgement covers it or an early return gives it up. */
  lemma EventSettles(hash: seq<Kind> -> Bytes, c: Client, e: Event, m: Message)
    requires IsUrgent(m) && m in c.queue
    ensures m in Next(hash, c, e).queue || m in Covered(c, e) || m in Forfeited(c, e)
  {
    EventConserves(hash, c, e, m);
    CountMember(m, c.queue);
    CountMember(m, Next(hash, c, e).queue);
    CountMember(m, Covered(c, e));
    CountMember(m, Forfeited(c, e));
  }

  // Numbering.

  /** The messages that the server's responses have delivered. */
  function InboundTotal(events: seq<Event>): nat {
    if events == [] then 0
    else
      var e := events[0];
      InboundTotal(events[1..]) + (if e.Exchanged? && e.reply.Response? then |e.reply.inbound| else 0)
  }

  /** Over any run, the client's next-expected sequence counts the messages it has received. */
  lemma {:induction false} InboundCounted(hash: seq<Kind> -> Bytes, c: Client, events: seq<Event>)
    ensures Run(hash, c, events).state.nextExpectedFromServer == c.state.nextExpectedFromServer + InboundTotal(events)
    decreases |events|
  {
    if events != [] {
      var e := events[0];
      if e.Exchanged? && e.reply.Response? { ResponseCounts(hash, c, e.reply, e.arrivals); }
      InboundCounted(hash, Next(hash, c, e), events[1..]);
    }
  }

  /** A response with an acknowledgement sets the client's sequence number to it, whatever its messages say. */
  lemma ResponseCounts(hash: seq<Kind> -> Bytes, c: Client, reply: Reply, arrivals: seq<Message>)
    requires reply.Response?
    ensures
      var d := AfterExchange(hash, c, reply, arrivals);
      && d.state.nextExpectedFromServer == c.state.nextExpectedFromServer + |reply.inbound|
      && d.state.outboundSequence == (if reply.ack.Some? then reply.ack.value else c.state.outboundSequence + |Snapshot(c)|)
  {
    var snapshot, rest := Snapshot(c), AfterBatch(Outgoing(c)) + arrivals;
    var ack := if reply.ack.Some? then reply.ack.value else c.state.outboundSequence + |snapshot|;
    Identity.ReceivingKeepsNumbers(hash, Acked(c, snapshot, rest, ack, reply.token, |reply.inbound|), reply.inbound);
  }

  // Draining a backlog.

  /** An exchange in which the server confirms everything and says nothing else, and the state is saved. */
  function FullyAcked(c: Client, disk: Persist.State): Reply {
    Response(Some(c.state.outboundSequence + |Snapshot(c)|), None, [], StateWritten(disk))
  }

  /** The server takes everything that is queued. */
  ghost predicate AllAccepted(c: Client) { forall m | m in c.queue :: Accepts(c.state.acceptedTypes, m) }

  /** One turn of the loop: an exchange, and then the bound. */
  function Round(hash: seq<Kind> -> Bytes, c: Client, disk: Persist.State): Client {
    Next(hash, Next(hash, c, Exchanged(FullyAcked(c, disk), [])), Bound)
  }

  function Drained(hash: seq<Kind> -> Bytes, c: Client, disk: Persist.State, rounds: nat): Client {
    if rounds == 0 then c else Round(hash, Drained(hash, c, disk, rounds - 1), disk)
  }

  /** The turns that a queue of this length takes. */
  function Turns(length: nat): nat { (length + MAX_PER_EXCHANGE - 1) / MAX_PER_EXCHANGE }

  /**
   Backlog progress: each turn takes the next hundred messages, numbers them right after
   the ones before, and leaves the wake token set if any remain. The bound drops telemetry
   after the first turn at most; so L messages take exactly ceil(L / 100) turns if L is at
   most 1100, and otherwise one turn more than what the bound leaves takes.
   */
  lemma BacklogProgress(hash: seq<Kind> -> Bytes, c: Client, disk: Persist.State, rounds: nat)
    requires c.state.secureID != "" && AllAccepted(c) && rounds > 0
    ensures
      var rest, d := Bounded(AfterBatch(c.queue)), Drained(hash, c, disk, rounds);
      var done := Min(MAX_PER_EXCHANGE * (rounds - 1), |rest|);
      && d.queue == rest[done..]
      && d.state.outboundSequence == c.state.outboundSequence + |Batch(c.queue)| + done
      && (d.queue != [] ==> d.wake)
      && (d.queue == [] <==> rounds >= 1 + Turns(|rest|))
      && (|c.queue| <= MAX_QUEUED + MAX_PER_EXCHANGE ==> (d.queue == [] <==> rounds >= Max(1, Turns(|c.queue|))))
  {
    RoundsDrain(hash, c, disk, rounds);
    TurnsNeeded(|Bounded(AfterBatch(c.queue))|, rounds - 1);
    TurnsNeeded(|c.queue|, rounds);
  }

  lemma TurnsNeeded(length: nat, rounds: nat)
    ensures MAX_PER_EXCHANGE * rounds >= length <==> rounds >= Turns(length)
  {
  }

  /** `d` is a registered client with the types of `c`, this queue and this sequence number. */
  ghost predicate DrainedTo(c: Client, d: Client, queue: seq<Message>, sequence: int) {
    && d.queue == queue && d.state.outboundSequence == sequence
    && d.state.secureID == c.state.secureID && d.state.acceptedTypes == c.state.acceptedTypes
  }

  lemma {:induction false} RoundsDrain(hash: seq<Kind> -> Bytes, c: Client, disk: Persist.State, rounds: nat)
    requires c.state.secureID != "" && AllAccepted(c) && rounds > 0
    ensures
      var rest, d := Bounded(AfterBatch(c.queue)), Drained(hash, c, disk, rounds);
      var done := Min(MAX_PER_EXCHANGE * (rounds - 1), |rest|);
      && DrainedTo(c, d, rest[done..], c.state.outboundSequence + |Batch(c.queue)| + done)
      && (d.queue != [] ==> d.wake)
  {
    hide AfterExchange, Bounded;
    if rounds == 1 {
      BacklogRound(hash, c, disk);
      assert Drained(hash, c, disk, 1) == Round(hash, Drained(hash, c, disk, 0), disk);
    } else {
      RoundsDrain(hash, c, disk, rounds - 1);
      var before := Drained(hash, c, disk, rounds - 1);
      DrainStep(hash, c, before, disk, Min(MAX_PER_EXCHANGE * (rounds - 2), |Bounded(AfterBatch(c.queue))|));
    }
  }

  lemma DrainStep(hash: seq<Kind> -> Bytes, c: Client, d: Client, disk: Persist.State, done: nat)
    requires c.state.secureID != "" && AllAccepted(c) && done <= |Bounded(AfterBatch(c.queue))|
    requires DrainedTo(c, d, Bounded(AfterBatch(c.queue))[done..], c.state.outboundSequence + |Batch(c.queue)| + done)
    ensures
      var rest, next := Bounded(AfterBatch(c.queue)), Round(hash, d, disk);
      var done' := Min(done + MAX_PER_EXCHANGE, |rest|);
      && DrainedTo(c, next, rest[done'..], c.state.outboundSequence + |Batch(c.queue)| + done')
      && (next.queue != [] ==> next.wake)
  {
    hide AfterExchange;
    var rest := Bounded(AfterBatch(c.queue));
    RestAccepted(c, rest, done);
    BacklogRound(hash, d, disk);
    DropTwice(rest, done, |Batch(d.queue)|);
    BoundedSuffix(AfterBatch(c.queue), Min(done + MAX_PER_EXCHANGE, |rest|));
  }

  lemma RestAccepted(c: Client, rest: seq<Message>, done: nat)
    requires AllAccepted(c) && rest == Bounded(AfterBatch(c.queue)) && done <= |rest|
    ensures forall m | m in rest[done..] :: Accepts(c.state.acceptedTypes, m)
  {
    forall m | m in rest[done..] ensures Accepts(c.state.acceptedTypes, m) {
      BoundedMembers(AfterBatch(c.queue), m);
      assert m in c.queue;
    }
  }

  lemma DropTwice<T>(s: seq<T>, a: nat, b: nat)
    requires a + b <= |s|
    ensures s[a..][b..] == s[a + b..]
  {
  }

  lemma BacklogRound(hash: seq<Kind> -> Bytes, c: Client, disk: Persist.State)
    requires c.state.secureID != "" && AllAccepted(c)
    ensures
      var d := Round(hash, c, disk);
      && DrainedTo(c, d, Bounded(AfterBatch(c.queue)), c.state.outboundSequence + |Batch(c.queue)|)
      && (d.queue != [] ==> d.wake)
  {
    AckedRound(hash, c, disk);
    var rest := AfterBatch(c.queue);
    if Bounded(rest) != [] { BoundedMembers(rest, Bounded(rest)[0]); }
  }

  lemma AckedRound(hash: seq<Kind> -> Bytes, c: Client, disk: Persist.State)
    requires c.state.secureID != "" && AllAccepted(c)
    ensures
      var d := AfterExchange(hash, c, FullyAcked(c, disk), []);
      && DrainedTo(c, d, AfterBatch(c.queue), c.state.outboundSequence + |Batch(c.queue)|)
      && (d.queue != [] ==> d.wake)
  {
    FilterNothing(c.state.acceptedTypes, Batch(c.queue));
    assert AfterBatch(c.queue) + [] == AfterBatch(c.queue);
  }
}
