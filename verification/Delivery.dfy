/**
 Delivery over a network that loses, delays and repeats requests and responses, for a
 registered client whose accepted types stay fixed and whose queue stays within its
 bound, against a server that ignores sequence numbers it has already seen.
 */
module Delivery {
  import opened Common
  import opened Queue
  import opened Exchange

  datatype Request = Request(attempt: nat, start: int, msgs: seq<Message>)

  datatype System = System(
    types: seq<Kind>,
    sent: seq<Message>,               // everything ever handed to Send or SendUrgent
    pending: seq<Message>,
    inflight: Option<Request>,        // the exchange under way
    outboundSequence: int,
    attempt: nat,
    requests: set<Request>,           // every request ever put on the wire: each may still arrive, any number of times
    answers: set<(nat, int)>,         // every response ever given, by attempt
    log: seq<Message>,                // what the server has processed, in order
    next: int,                        // the server's next-expected sequence
    base: int)                        // where numbering began

  datatype Step =
    | SendOne(m: Message)
    | Begin
    | Serve(r: Request, taken: nat)   // the server takes `taken` of the messages it has not seen
    | Lose                            // the client gives up: request or response lost
    | Settle(ack: int)                // a response to the exchange under way arrives
    | Persist

  function Initial(types: seq<Kind>, base: int): System {
    System(types, [], [], None, base, 0, {}, {}, [], base, base)
  }

  /** The messages of a request that the server has not seen. */
  function Fresh(s: System, r: Request): seq<Message> {
    if r.start <= s.next <= r.start + |r.msgs| then r.msgs[s.next - r.start..] else []
  }

  predicate Enabled(s: System, step: Step) {
    match step
    case SendOne(_) => true
    case Begin => s.inflight.None?
    case Serve(r, taken) => r in s.requests && taken <= |Fresh(s, r)|
    case Lose => s.inflight.Some?
    case Settle(ack) => s.inflight.Some? && (s.inflight.value.attempt, ack) in s.answers
    case Persist => s.inflight.None? && |s.pending| <= MAX_QUEUED
  }

  function Apply(s: System, step: Step): System
    requires Enabled(s, step)
  {
    match step
    case SendOne(m) => s.(sent := s.sent + [m], pending := s.pending + [m])
    case Begin =>
      var r := Request(s.attempt, s.outboundSequence, Filtered(s.types, Batch(s.pending)));
      s.(pending := AfterBatch(s.pending), inflight := Some(r), attempt := s.attempt + 1, requests := s.requests + {r})
    case Serve(r, taken) =>
      s.(log := s.log + Fresh(s, r)[..taken], next := s.next + taken, answers := s.answers + {(r.attempt, s.next + taken)})
    case Lose => s.(pending := s.inflight.value.msgs + s.pending, inflight := None)
    case Settle(ack) =>
      s.(pending := Requeued(s.inflight.value.msgs, s.outboundSequence, ack) + s.pending,
         inflight := None, outboundSequence := ack)
    case Persist => s.(pending := Bounded(s.pending))
  }

  predicate Runs(s: System, steps: seq<Step>)
    decreases |steps|
  {
    steps == [] || (Enabled(s, steps[0]) && Runs(Apply(s, steps[0]), steps[1..]))
  }

  function After(s: System, steps: seq<Step>): System
    requires Runs(s, steps)
    decreases |steps|
  {
    if steps == [] then s else After(Apply(s, steps[0]), steps[1..])
  }

  // Bookkeeping for the invariant.

  /** The messages the server has to receive, in the order of their sequence numbers from `base` on. */
  function Stream(s: System): seq<Message> { Filtered(s.types, s.sent) }

  /** The client's queue, including what the exchange under way has taken from it. */
  function Queued(s: System): seq<Message> {
    (if s.inflight.Some? then s.inflight.value.msgs else []) + s.pending
  }

  /** How many messages at the front of `msgs` the server takes. */
  function Leading(types: seq<Kind>, msgs: seq<Message>): nat {
    if msgs == [] || !Accepts(types, msgs[0]) then 0 else 1 + Leading(types, msgs[1..])
  }

  /** How far beyond the client's sequence number any request on the wire can reach. */
  function Reach(s: System): nat {
    if s.inflight.Some? then |s.inflight.value.msgs|
    else Min(MAX_PER_EXCHANGE, Leading(s.types, s.pending))
  }

  /** `msgs` is the part of the stream that starts at sequence number `start`. */
  ghost predicate Labelled(s: System, start: int, msgs: seq<Message>) {
    && s.base <= start && start - s.base + |msgs| <= |Stream(s)|
    && msgs == Stream(s)[start - s.base..start - s.base + |msgs|]
  }

  ghost predicate GoodRequest(s: System, r: Request) {
    && Labelled(s, r.start, r.msgs)
    && r.start <= s.outboundSequence
    && r.start + |r.msgs| <= s.outboundSequence + Reach(s)
    && r.attempt < s.attempt
    && |r.msgs| <= MAX_PER_EXCHANGE
  }

  ghost predicate GoodAnswer(s: System, answer: (nat, int)) {
    && answer.0 < s.attempt
    && (s.inflight.Some? && answer.0 == s.inflight.value.attempt ==> s.outboundSequence <= answer.1 <= s.next)
  }

  ghost predicate GoodInflight(s: System) {
    s.inflight.Some? ==>
      && s.inflight.value in s.requests
      && s.inflight.value.start == s.outboundSequence
      && s.inflight.value.attempt + 1 == s.attempt
      && Filtered(s.types, s.inflight.value.msgs) == s.inflight.value.msgs
  }

  /** The numbers agree, and the log is the front of the stream. */
  ghost predicate LogInv(s: System) {
    && s.base <= s.outboundSequence <= s.next <= s.outboundSequence + Reach(s)
    && s.next - s.base <= |Stream(s)|
    && s.log == Stream(s)[..s.next - s.base]
  }

  /** What the queue still holds for the server is the stream from the client's sequence number on. */
  ghost predicate QueueInv(s: System) {
    && s.base <= s.outboundSequence <= s.base + |Stream(s)|
    && Filtered(s.types, Queued(s)) == Stream(s)[s.outboundSequence - s.base..]
  }

  ghost predicate WireInv(s: System) {
    && GoodInflight(s)
    && (forall r | r in s.requests :: GoodRequest(s, r))
    && (forall a | a in s.answers :: GoodAnswer(s, a))
  }

  ghost predicate Inv(s: System) { LogInv(s) && QueueInv(s) && WireInv(s) }

  lemma {:induction false} LeadingGrows(types: seq<Kind>, msgs: seq<Message>, more: seq<Message>)
    ensures Leading(types, msgs) <= Leading(types, msgs + more)
    ensures Leading(types, msgs) <= |msgs|
    ensures Filtered(types, msgs) == msgs ==> Leading(types, msgs + more) >= |msgs|
  {
    if msgs != [] {
      assert (msgs + more)[1..] == msgs[1..] + more;
      LeadingGrows(types, msgs[1..], more);
      FilteredAccepted(types, msgs[1..]);
      if Filtered(types, msgs) == msgs {
        assert Accepts(types, msgs[0]);
        assert msgs[1..] == Filtered(types, msgs)[1..];
      }
    }
  }

  /** A drained batch carries at least the leading messages that earlier requests can have carried. */
  lemma {:induction false} FilteredBatchReaches(types: seq<Kind>, queue: seq<Message>, n: nat)
    requires n <= |queue|
    ensures Min(n, Leading(types, queue)) <= |Filtered(types, queue[..n])| <= n
    ensures Filtered(types, Filtered(types, queue[..n])) == Filtered(types, queue[..n])
  {
    FilteredAccepted(types, queue[..n]);
    FilterNothing(types, Filtered(types, queue[..n]));
    if n > 0 && Accepts(types, queue[0]) {
      assert queue[..n][1..] == queue[1..][..n - 1];
      FilteredBatchReaches(types, queue[1..], n - 1);
    }
  }

  /** A request stays good while the stream, the client's sequence number and its reach only grow. */
  lemma RequestsStay(s: System, s': System)
    requires forall r | r in s.requests :: GoodRequest(s, r)
    requires s'.requests == s.requests && s'.base == s.base && Stream(s) <= Stream(s')
    requires s.outboundSequence <= s'.outboundSequence && s.attempt <= s'.attempt
    requires s.outboundSequence + Reach(s) <= s'.outboundSequence + Reach(s')
    ensures forall r | r in s'.requests :: GoodRequest(s', r)
  {
    forall r | r in s'.requests ensures GoodRequest(s', r) {
      assert GoodRequest(s, r);
      assert Stream(s')[r.start - s.base..r.start - s.base + |r.msgs|]
          == Stream(s)[r.start - s.base..r.start - s.base + |r.msgs|];
    }
  }

  lemma SendKeepsInv(s: System, m: Message)
    requires Inv(s)
    ensures Inv(Apply(s, SendOne(m)))
  {
    hide Filtered, Leading;
    var s' := Apply(s, SendOne(m));
    FilteredConcat(s.types, s.sent, [m]);
    FilteredConcat(s.types, Queued(s), [m]);
    assert Queued(s') == Queued(s) + [m];
    LeadingGrows(s.types, s.pending, [m]);
    RequestsStay(s, s');
    assert forall a | a in s'.answers :: GoodAnswer(s, a);
  }

  lemma QueuedIdle(s: System)
    requires s.inflight.None?
    ensures Queued(s) == s.pending
  {
  }

  lemma SplitStream<T>(stream: seq<T>, from: nat, front: seq<T>, rest: seq<T>)
    requires from <= |stream| && stream[from..] == front + rest
    ensures |stream| == from + |front| + |rest|
    ensures stream[..from + |front|][from..] == front
    ensures stream[..from + |front|] + rest == stream
  {
    assert stream == stream[..from] + (front + rest);
    Reassociate(stream[..from], front, rest);
  }

  lemma FrontOfStream<T>(stream: seq<T>, n: nat, front: seq<T>, rest: seq<T>)
    requires n <= |stream| && stream[n..] == front + rest
    ensures n + |front| <= |stream| && stream[..n + |front|] == stream[..n] + front
  {
    SplitStream(stream, n, front, rest);
  }

  /** The request that a new exchange puts on the wire carries the stream from the client's sequence number on. */
  lemma BeginBatch(s: System)
    requires Inv(s) && s.inflight.None?
    ensures
      var r := Apply(s, Begin).inflight.value;
      && Labelled(s, r.start, r.msgs)
      && Reach(s) <= |r.msgs| <= MAX_PER_EXCHANGE
      && Filtered(s.types, r.msgs) == r.msgs
      && Filtered(s.types, r.msgs + AfterBatch(s.pending)) == Filtered(s.types, s.pending)
  {
    hide Filtered, Leading;
    var r := Apply(s, Begin).inflight.value;
    QueuedIdle(s);
    LeadingGrows(s.types, s.pending, []);
    BatchAndRest(s.types, s.pending);
    SplitStream(Stream(s), s.outboundSequence - s.base, r.msgs, Filtered(s.types, AfterBatch(s.pending)));
  }

  /** Filtering the batch alone or the whole queue gives the same messages in front. */
  lemma BatchAndRest(types: seq<Kind>, queue: seq<Message>)
    ensures
      var front, rest := Filtered(types, Batch(queue)), AfterBatch(queue);
      && Filtered(types, front) == front && Min(MAX_PER_EXCHANGE, Leading(types, queue)) <= |front| <= MAX_PER_EXCHANGE
      && Filtered(types, queue) == front + Filtered(types, rest) == Filtered(types, front + rest)
  {
    var batch, rest := Batch(queue), AfterBatch(queue);
    assert queue == batch + rest;
    FilteredConcat(types, batch, rest);
    FilteredBatchReaches(types, queue, |batch|);
    FilteredConcat(types, Filtered(types, batch), rest);
    LeadingGrows(types, queue, []);
  }

  lemma BeginWire(s: System)
    requires Inv(s) && s.inflight.None?
    ensures WireInv(Apply(s, Begin))
  {
    hide Bounded, QueueInv, Filtered, Leading;
    var s' := Apply(s, Begin);
    var r := s'.inflight.value;
    BeginBatch(s);
    assert GoodRequest(s', r);
    var unsent := s'.(requests := s.requests);
    RequestsStay(s, unsent);
    forall q | q in s.requests ensures GoodRequest(s', q) { assert GoodRequest(unsent, q); }
    forall a | a in s'.answers ensures GoodAnswer(s', a) { assert GoodAnswer(s, a); }
  }

  lemma BeginKeepsInv(s: System)
    requires Inv(s) && s.inflight.None?
    ensures Inv(Apply(s, Begin))
  {
    hide Filtered, Leading;
    BeginBatch(s);
    BeginWire(s);
    assert Queued(s) == s.pending;
  }

  lemma SliceOfSlice<T>(s: seq<T>, a: nat, b: nat, i: nat, n: nat)
    requires a <= b <= |s| && i + n <= b - a
    ensures s[a..b][i..][..n] == s[a + i..a + i + n]
  {
  }

  lemma PrefixGrows<T>(s: seq<T>, i: nat, n: nat)
    requires i + n <= |s|
    ensures s[..i] + s[i..i + n] == s[..i + n]
  {
  }

  /** What the server takes from a request is the next part of the stream. */
  lemma FreshInStream(s: System, r: Request, taken: nat)
    requires LogInv(s) && GoodRequest(s, r) && taken <= |Fresh(s, r)|
    ensures s.next - s.base + taken <= |Stream(s)| && s.next + taken <= s.outboundSequence + Reach(s)
    ensures Fresh(s, r)[..taken] == Stream(s)[s.next - s.base..s.next - s.base + taken]
  {
    hide Reach, Stream;
    if taken > 0 {
      SliceOfSlice(Stream(s), r.start - s.base, r.start - s.base + |r.msgs|, s.next - r.start, taken);
    }
  }

  lemma ServeLog(s: System, r: Request, taken: nat)
    requires LogInv(s) && GoodRequest(s, r) && taken <= |Fresh(s, r)|
    ensures LogInv(Apply(s.(requests := s.requests + {r}), Serve(r, taken)))
  {
    var s' := Apply(s.(requests := s.requests + {r}), Serve(r, taken));
    assert Reach(s') == Reach(s) && Stream(s') == Stream(s);
    FreshInStream(s, r, taken);
    hide Reach, Stream, Fresh;
    PrefixGrows(Stream(s), s.next - s.base, taken);
  }

  lemma ServeKeepsInv(s: System, r: Request, taken: nat)
    requires Inv(s) && r in s.requests && taken <= |Fresh(s, r)|
    ensures Inv(Apply(s, Serve(r, taken)))
  {
    hide Filtered, Leading;
    var s' := Apply(s, Serve(r, taken));
    assert GoodRequest(s, r);
    assert s.requests + {r} == s.requests;
    ServeLog(s, r, taken);
    RequestsStay(s, s');
    forall a | a in s'.answers ensures GoodAnswer(s', a) {
      if a in s.answers { assert GoodAnswer(s, a); }
    }
  }

  lemma LoseKeepsInv(s: System)
    requires Inv(s) && s.inflight.Some?
    ensures Inv(Apply(s, Lose))
  {
    hide Filtered, Leading;
    var s' := Apply(s, Lose);
    assert GoodRequest(s, s.inflight.value);
    LeadingGrows(s.types, s.inflight.value.msgs, s.pending);
    assert Queued(s') == Queued(s);
    RequestsStay(s, s');
    assert forall a | a in s'.answers :: GoodAnswer(s, a);
  }

  /** After a response, the queue holds the stream from the acknowledged sequence number on. */
  lemma SettleQueue(s: System, ack: int)
    requires Inv(s) && s.inflight.Some? && s.outboundSequence <= ack <= s.next
    ensures
      var r := s.inflight.value;
      && 0 <= ack - s.outboundSequence <= |r.msgs|
      && Requeued(r.msgs, s.outboundSequence, ack) == r.msgs[ack - s.outboundSequence..]
      && Filtered(s.types, r.msgs[ack - s.outboundSequence..]) == r.msgs[ack - s.outboundSequence..]
      && Filtered(s.types, r.msgs[ack - s.outboundSequence..] + s.pending) == Stream(s)[ack - s.base..]
  {
    hide Filtered, Leading;
    var r := s.inflight.value;
    var n := ack - s.outboundSequence;
    var taken, back := r.msgs[..n], r.msgs[n..];
    assert r.msgs == taken + back;
    FilteredPart(s.types, r.msgs, n);
    Reassociate(taken, back, s.pending);
    assert Queued(s) == taken + (back + s.pending);
    FilteredConcat(s.types, taken, back + s.pending);
    assert Stream(s)[s.outboundSequence - s.base..][n..] == Stream(s)[ack - s.base..];
  }

  lemma SettleKeepsInv(s: System, ack: int)
    requires Inv(s) && Enabled(s, Settle(ack))
    ensures Inv(Apply(s, Settle(ack)))
  {
    hide Filtered, Leading;
    var s' := Apply(s, Settle(ack));
    var r := s.inflight.value;
    assert GoodAnswer(s, (r.attempt, ack)) && GoodRequest(s, r);
    SettleQueue(s, ack);
    LeadingGrows(s.types, r.msgs[ack - s.outboundSequence..], s.pending);
    QueuedIdle(s');
    assert LogInv(s');
    assert QueueInv(s');
    SettleWire(s, s', ack);
  }

  lemma SettleWire(s: System, s': System, ack: int)
    requires WireInv(s) && Enabled(s, Settle(ack)) && s' == Apply(s, Settle(ack))
    requires s.outboundSequence <= ack && s.outboundSequence + Reach(s) <= ack + Reach(s')
    ensures WireInv(s')
  {
    RequestsStay(s, s');
    assert forall a | a in s'.answers :: GoodAnswer(s, a);
  }

  /** If the filter keeps a whole sequence, it keeps both parts of it. */
  lemma {:induction false} FilteredPart(types: seq<Kind>, msgs: seq<Message>, n: nat)
    requires n <= |msgs| && Filtered(types, msgs) == msgs
    ensures Filtered(types, msgs[..n]) == msgs[..n] && Filtered(types, msgs[n..]) == msgs[n..]
  {
    FilteredAccepted(types, msgs);
    FilterNothing(types, msgs[..n]);
    FilterNothing(types, msgs[n..]);
  }

  lemma StepKeepsInv(s: System, step: Step)
    requires Inv(s) && Enabled(s, step)
    ensures Inv(Apply(s, step))
  {
    match step
    case SendOne(m) => SendKeepsInv(s, m);
    case Begin => BeginKeepsInv(s);
    case Serve(r, taken) => ServeKeepsInv(s, r, taken);
    case Lose => LoseKeepsInv(s);
    case Settle(ack) => SettleKeepsInv(s, ack);
    case Persist => assert Apply(s, step) == s;
  }

  lemma {:induction false} RunKeepsInv(s: System, steps: seq<Step>)
    requires Inv(s) && Runs(s, steps)
    ensures Inv(After(s, steps))
    decreases |steps|
  {
    if steps != [] {
      StepKeepsInv(s, steps[0]);
      RunKeepsInv(Apply(s, steps[0]), steps[1..]);
    }
  }

  lemma {:induction false} LeadingFiltered(types: seq<Kind>, msgs: seq<Message>, d: nat)
    requires d <= Leading(types, msgs)
    ensures d <= |msgs| && Filtered(types, msgs[..d]) == msgs[..d]
    ensures Filtered(types, msgs) == msgs[..d] + Filtered(types, msgs[d..])
  {
    if d > 0 {
      LeadingFiltered(types, msgs[1..], d - 1);
      assert msgs[..d][1..] == msgs[1..][..d - 1] && msgs[d..] == msgs[1..][d - 1..];
      assert msgs[..d] == [msgs[0]] + msgs[1..][..d - 1];
    }
  }

  /** How many messages at the front of the client's queue the server has already processed. */
  function Overlap(s: System): int { s.next - s.outboundSequence }

  /**
   The log is the accepted part of what was sent, up to the messages still queued behind
   the overlap; and the overlap is both the front of the queue and the end of the log.
   */
  ghost predicate Delivered(s: System) {
    && 0 <= Overlap(s) <= |Queued(s)| && Overlap(s) <= |s.log|
    && Queued(s)[..Overlap(s)] == s.log[|s.log| - Overlap(s)..]
    && s.log + Filtered(s.types, Queued(s)[Overlap(s)..]) == Filtered(s.types, s.sent)
  }

  lemma InvDelivers(s: System)
    requires Inv(s)
    ensures Delivered(s)
  {
    OverlapAccepted(s);
    var q, d := Queued(s), Overlap(s);
    LeadingFiltered(s.types, q, d);
    SplitStream(Stream(s), s.outboundSequence - s.base, q[..d], Filtered(s.types, q[d..]));
  }

  lemma OverlapAccepted(s: System)
    requires Inv(s)
    ensures 0 <= Overlap(s) <= Leading(s.types, Queued(s))
  {
    if s.inflight.Some? {
      LeadingGrows(s.types, s.inflight.value.msgs, s.pending);
    } else {
      assert Queued(s) == s.pending;
    }
  }

  lemma InitialInv(types: seq<Kind>, base: int)
    ensures Inv(Initial(types, base))
  {
    var s := Initial(types, base);
    QueuedIdle(s);
    assert LogInv(s) by { InitialLog(s); }
    assert WireInv(s) by { InitialWire(s); }
  }

  lemma InitialLog(s: System)
    requires s == Initial(s.types, s.base)
    ensures LogInv(s)
  {
    hide Leading;
    assert Stream(s) == [];
  }

  lemma InitialWire(s: System)
    requires s == Initial(s.types, s.base)
    ensures WireInv(s)
  {
    hide GoodRequest, GoodAnswer;
  }

  /**
   Exactly once and in order: whatever is lost, delayed or repeated, and however senders
   interleave, nothing the server accepts is skipped, reordered or processed twice.
   */
  lemma ExactlyOnceInOrder(types: seq<Kind>, base: int, steps: seq<Step>)
    requires Runs(Initial(types, base), steps)
    ensures Delivered(After(Initial(types, base), steps))
  {
    var s := Initial(types, base);
    InitialInv(types, base);
    RunKeepsInv(s, steps);
    InvDelivers(After(s, steps));
  }

  /** Whatever the server did meanwhile, the client's side of an exchange is the one `PerformExchange` carries out. */
  lemma ExchangeIsBeginThenSettle(hash: seq<Kind> -> Bytes, c: Client, s: System, mid: System, arrivals: seq<Message>,
                                  ack: int, token: Option<string>, inbound: seq<Inbound>, save: StateSave)
    requires c.state.secureID != "" && s.inflight.None?
    requires c.queue == s.pending && c.state.acceptedTypes == s.types && c.state.outboundSequence == s.outboundSequence
    requires mid.inflight == Apply(s, Begin).inflight && mid.outboundSequence == s.outboundSequence
    requires mid.pending == Apply(s, Begin).pending + arrivals
    requires forall m | m in inbound :: m.Other?
    ensures AfterExchange(hash, c, PostFailed, arrivals).queue == Apply(mid, Lose).pending
    ensures AfterExchange(hash, c, PostFailed, arrivals).state == c.state
    ensures AfterExchange(hash, c, Undecodable, arrivals) == AfterExchange(hash, c, NotMarshalled, arrivals)
         == c.(queue := mid.(inflight := None).pending)
    ensures Enabled(mid, Settle(ack)) ==>
      var c' := AfterExchange(hash, c, Response(Some(ack), token, inbound, save), arrivals);
      && c'.queue == Apply(mid, Settle(ack)).pending
      && c'.state.outboundSequence == Apply(mid, Settle(ack)).outboundSequence
      && c'.state.acceptedTypes == s.types && c'.state.secureID != ""
  {
    assert Outgoing(c) == s.pending;
    var acked := Acked(c, Snapshot(c), AfterBatch(c.queue) + arrivals, ack, token, |inbound|);
    OthersChangeNothing(hash, acked, inbound);
  }

  // A queue over its bound.

  ghost predicate NoRepeats(msgs: seq<Message>) {
    forall i, j | 0 <= i < j < |msgs| :: msgs[i] != msgs[j]
  }

  lemma {:induction false} TrimKeepsUrgentFront(msgs: seq<Message>, excess: nat, d: nat)
    requires d <= |msgs| && forall m | m in msgs[..d] :: IsUrgent(m)
    ensures d <= |Trim(msgs, excess)| && Trim(msgs, excess)[..d] == msgs[..d]
  {
    if d > 0 && excess > 0 {
      assert msgs[0] in msgs[..d] && msgs[..d] == [msgs[0]] + msgs[1..][..d - 1];
      TrimKeepsUrgentFront(msgs[1..], excess, d - 1);
    }
  }

  lemma {:induction false} TrimMovesForward(msgs: seq<Message>, excess: nat, k: nat)
    requires k < |Trim(msgs, excess)|
    ensures k < |msgs| && Trim(msgs, excess)[k] in msgs[k..]
  {
    if msgs != [] && excess > 0 {
      if !IsUrgent(msgs[0]) {
        TrimMovesForward(msgs[1..], excess - 1, k);
        assert msgs[1..][k..] == msgs[k + 1..];
        assert forall m | m in msgs[k + 1..] :: m in msgs[k..];
      } else if k > 0 {
        TrimMovesForward(msgs[1..], excess, k - 1);
        assert msgs[1..][k - 1..] == msgs[k..];
      }
    }
  }

  lemma {:induction false} TrimCutsFront(msgs: seq<Message>, excess: nat, d: nat)
    requires 0 < d <= |Trim(msgs, excess)| && excess > 0 && d <= |msgs|
    requires exists m :: m in msgs[..d] && !IsUrgent(m)
    ensures Trim(msgs, excess)[d - 1] in msgs[d..]
  {
    if !IsUrgent(msgs[0]) {
      TrimMovesForward(msgs[1..], excess - 1, d - 1);
      assert msgs[1..][d - 1..] == msgs[d..];
    } else {
      var m :| m in msgs[..d] && !IsUrgent(m);
      assert msgs[..d] == [msgs[0]] + msgs[1..][..d - 1];
      assert m in msgs[1..][..d - 1];
      TrimCutsFront(msgs[1..], excess, d - 1);
      assert msgs[1..][d - 1..] == msgs[d..];
    }
  }

  /** The server has processed the message at this place in the queue, or a request that may still arrive carries it. */
  ghost predicate Reached(s: System, i: nat) {
    i < Overlap(s) || exists r :: r in s.requests && s.outboundSequence + i < r.start + |r.msgs|
  }

  /** The queue bound drops nothing that is reached. */
  ghost predicate TrimSparesReached(s: System) {
    |s.pending| <= MAX_QUEUED || forall i | 0 <= i < |s.pending| && Reached(s, i) :: IsUrgent(s.pending[i])
  }

  /** Some account of what was sent fits the system with this queue: delivery goes on unharmed. */
  ghost predicate Continues(s: System, queue: seq<Message>) {
    exists sent :: Inv(s.(pending := queue, inflight := None, sent := sent))
  }

  /**
   Once requests on the wire have arrived, this queue has a message that the server has
   not seen, or none at all, where the server takes the sequence number for seen.
   */
  ghost predicate Skips(s: System, queue: seq<Message>) {
    exists steps: seq<Step> ::
      && Runs(s, steps) && (forall step | step in steps :: step.Serve?)
      && SkipsNow(After(s, steps), queue)
  }

  predicate SkipsNow(s: System, queue: seq<Message>) {
    exists i :: 0 <= i < Overlap(s) && (|queue| <= i || queue[i] !in s.log)
  }

  /**
   Dropping telemetry is safe exactly when it drops nothing that is reached: then delivery
   goes on as before with the remaining messages. Otherwise a message that the server has
   never seen is skipped.
   */
  lemma OverflowIsSafeIff(s: System)
    requires Inv(s) && s.inflight.None?
    requires NoRepeats(Stream(s))
    ensures Continues(s, Bounded(s.pending)) <==> TrimSparesReached(s)
    ensures TrimSparesReached(s) ==>
      && 0 <= Overlap(s) <= |Bounded(s.pending)|
      && Inv(s.(pending := Bounded(s.pending), sent := s.log + Bounded(s.pending)[Overlap(s)..]))
    ensures !TrimSparesReached(s) ==> Skips(s, Bounded(s.pending))
  {
    hide Filtered, Leading;
    if TrimSparesReached(s) {
      SafeOverflow(s);
    } else {
      var i :| 0 <= i < |s.pending| && Reached(s, i) && !IsUrgent(s.pending[i]);
      UnsafeOverflow(s, i);
    }
  }

  /** Every request on the wire finds its messages where they were. */
  lemma SpareFront(s: System, e: nat)
    requires s.inflight.None? && |s.pending| > MAX_QUEUED && TrimSparesReached(s)
    requires e == Overlap(s) || exists r :: r in s.requests && s.outboundSequence + e == r.start + |r.msgs|
    requires e <= |s.pending|
    ensures e <= |Bounded(s.pending)| && Bounded(s.pending)[..e] == s.pending[..e]
  {
    forall m | m in s.pending[..e] ensures IsUrgent(m) {
      var i :| 0 <= i < e && s.pending[i] == m;
      assert Reached(s, i);
    }
    TrimKeepsUrgentFront(s.pending, |s.pending| - MAX_QUEUED, e);
  }

  lemma SafeOverflow(s: System)
    requires Inv(s) && s.inflight.None? && TrimSparesReached(s)
    ensures 0 <= Overlap(s) <= |Bounded(s.pending)|
    ensures Inv(s.(pending := Bounded(s.pending), sent := s.log + Bounded(s.pending)[Overlap(s)..]))
    ensures Continues(s, Bounded(s.pending))
  {
    hide Filtered, Leading;
    OverlapFacts(s);
    var kept, d := Bounded(s.pending), Overlap(s);
    LeadingGrows(s.types, s.pending, []);
    if |s.pending| > MAX_QUEUED {
      SpareFront(s, d);
      forall r | r in s.requests && s.outboundSequence <= r.start + |r.msgs|
        ensures SameFront(s.pending, kept, r.start + |r.msgs| - s.outboundSequence)
      {
        assert GoodRequest(s, r);
        SpareFront(s, r.start + |r.msgs| - s.outboundSequence);
      }
    }
    SparedQueueKeepsInv(s, kept);
    assert Inv(s.(pending := kept, inflight := None, sent := s.log + kept[d..]));
  }

  predicate SameFront(a: seq<Message>, b: seq<Message>, e: int) {
    0 <= e <= |a| && e <= |b| && a[..e] == b[..e]
  }

  lemma OverlapFacts(s: System)
    requires Inv(s) && s.inflight.None?
    ensures 0 <= Overlap(s) <= |s.pending| && Overlap(s) <= |s.log|
    ensures s.pending[..Overlap(s)] == s.log[|s.log| - Overlap(s)..]
    ensures Filtered(s.types, s.pending[..Overlap(s)]) == s.pending[..Overlap(s)]
    ensures Filtered(s.types, s.log) == s.log
  {
    InvDelivers(s);
    OverlapAccepted(s);
    assert Queued(s) == s.pending;
    LeadingFiltered(s.types, s.pending, Overlap(s));
    LogAccepted(s);
  }

  /** A queue that keeps what is reached may change behind it: delivery goes on with it. */
  lemma SparedQueueKeepsInv(s: System, queue: seq<Message>)
    requires Inv(s) && s.inflight.None? && 0 <= Overlap(s) && SameFront(s.pending, queue, Overlap(s))
    requires forall r | r in s.requests && s.outboundSequence <= r.start + |r.msgs| ::
               SameFront(s.pending, queue, r.start + |r.msgs| - s.outboundSequence)
    ensures Inv(s.(pending := queue, sent := s.log + queue[Overlap(s)..]))
  {
    hide Filtered, Leading;
    OverlapFacts(s);
    var d := Overlap(s);
    var s' := s.(pending := queue, sent := s.log + queue[d..]);
    assert queue == s.pending[..d] + queue[d..];
    JoinParts(s.types, s.log, s.pending[..d], queue[d..]);
    assert Queued(s') == queue;
    assert Stream(s')[..|s.log|] == s.log;
    assert LogInv(s');
    assert QueueInv(s');
    forall r | r in s.requests ensures GoodRequest(s', r) { SparedRequestStays(s, s', r); }
    assert forall a | a in s'.answers :: GoodAnswer(s, a);
  }

  lemma SparedRequestStays(s: System, s': System, r: Request)
    requires Inv(s) && s.inflight.None? && r in s.requests && LogInv(s') && QueueInv(s')
    requires s' == s.(pending := s'.pending, sent := s'.sent)
    requires s.outboundSequence <= r.start + |r.msgs| ==>
               SameFront(s.pending, s'.pending, r.start + |r.msgs| - s.outboundSequence)
    ensures GoodRequest(s', r)
  {
    hide Filtered, Leading;
    assert GoodRequest(s, r);
    var from, to := r.start - s.base, r.start + |r.msgs| - s.base;
    if r.start + |r.msgs| <= s.next {
      SliceOfPrefix(Stream(s), |s.log|, from, to);
      SliceOfPrefix(Stream(s'), |s.log|, from, to);
      FrontReaches(s, s', r.start + |r.msgs| - s.outboundSequence);
    } else {
      FrontReaches(s, s', r.start + |r.msgs| - s.outboundSequence);
      SliceOfPrefix(Stream(s), to, from, to);
      SliceOfPrefix(Stream(s'), to, from, to);
    }
  }

  /** An accepted front that both queues share is the same part of both streams, and within reach of both. */
  lemma FrontReaches(s: System, s': System, e: int)
    requires LogInv(s) && QueueInv(s) && LogInv(s') && QueueInv(s') && s.inflight.None?
    requires s' == s.(pending := s'.pending, sent := s'.sent)
    requires 0 <= e ==> e <= Reach(s) && SameFront(s.pending, s'.pending, e)
    ensures e <= Reach(s')
    ensures s.next - s.outboundSequence <= e ==>
      var n := s.outboundSequence - s.base + e;
      n <= |Stream(s)| && n <= |Stream(s')| && Stream(s)[..n] == Stream(s')[..n]
  {
    if 0 <= e {
      ReachKept(s.types, s.pending, s'.pending, e);
      if s.next - s.outboundSequence <= e {
        FrontInStream(s, e);
        FrontInStream(s', e);
      }
    }
  }

  lemma ReachKept(types: seq<Kind>, queue: seq<Message>, queue': seq<Message>, e: nat)
    requires e <= Leading(types, queue) && SameFront(queue, queue', e)
    ensures e <= Leading(types, queue')
  {
    LeadingFiltered(types, queue, e);
    assert queue' == queue[..e] + queue'[e..];
    LeadingGrows(types, queue[..e], queue'[e..]);
  }

  lemma FrontInStream(s: System, e: nat)
    requires LogInv(s) && QueueInv(s) && s.inflight.None? && e <= Reach(s)
    ensures
      var n := s.outboundSequence - s.base;
      e <= |s.pending| && n <= |s.log| && n + e <= |Stream(s)| && Stream(s)[..n + e] == s.log[..n] + s.pending[..e]
  {
    QueuedIdle(s);
    AcceptedFront(s.types, Stream(s), s.log, s.outboundSequence - s.base, s.pending, e);
  }

  lemma AcceptedFront(types: seq<Kind>, stream: seq<Message>, log: seq<Message>, n: nat, queue: seq<Message>, e: nat)
    requires n <= |log| <= |stream| && log == stream[..|log|]
    requires stream[n..] == Filtered(types, queue) && e <= Leading(types, queue)
    ensures e <= |queue| && n + e <= |stream| && stream[..n + e] == log[..n] + queue[..e]
  {
    LeadingFiltered(types, queue, e);
    FrontOfStream(stream, n, queue[..e], Filtered(types, queue[e..]));
    assert stream[..n] == log[..n];
  }

  lemma SliceOfPrefix<T>(s: seq<T>, n: nat, a: nat, b: nat)
    requires a <= b <= n <= |s|
    ensures s[a..b] == s[..n][a..b]
  {
  }

  lemma UnsafeOverflow(s: System, i: nat)
    requires s.inflight.None? && Inv(s)
    requires NoRepeats(Stream(s))
    requires |s.pending| > MAX_QUEUED && i < |s.pending| && Reached(s, i) && !IsUrgent(s.pending[i])
    ensures Skips(s, Bounded(s.pending)) && !Continues(s, Bounded(s.pending))
  {
    hide Filtered, Leading;
    var steps := Arrive(s, i);
    TrimmedSkips(After(s, steps), i);
    SkippingBreaks(s, steps, Bounded(s.pending));
  }

  /** Dropping a processed message moves an unseen one into the overlap. */
  lemma TrimmedSkips(s: System, i: nat)
    requires s.inflight.None? && Inv(s)
    requires NoRepeats(Stream(s))
    requires |s.pending| > MAX_QUEUED && i < Overlap(s) && i < |s.pending| && !IsUrgent(s.pending[i])
    ensures SkipsNow(s, Bounded(s.pending))
  {
    hide Inv, SkipsNow, NoRepeats, Bounded, Filtered, Leading;
    OverlapFacts(s);
    ReachIsShort(s);
    QueuedIdle(s);
    BoundCutsFront(s.pending, i, Overlap(s));
    BehindOverlapUnseen(s, Bounded(s.pending)[Overlap(s) - 1]);
    SkipsAt(s, Bounded(s.pending), Overlap(s) - 1);
  }

  lemma BoundCutsFront(queue: seq<Message>, i: nat, d: nat)
    requires |queue| > MAX_QUEUED && i < d <= MAX_PER_EXCHANGE && !IsUrgent(queue[i])
    ensures d <= |Bounded(queue)| && Bounded(queue)[d - 1] in queue[d..]
  {
    QueueBound(queue);
    assert queue[..d][i] == queue[i];
    TrimCutsFront(queue, |queue| - MAX_QUEUED, d);
  }

  lemma ReachIsShort(s: System)
    requires Inv(s) && s.inflight.None?
    ensures Overlap(s) <= MAX_PER_EXCHANGE
  {
  }

  lemma SkipsAt(s: System, queue: seq<Message>, i: nat)
    requires i < Overlap(s) && (|queue| <= i || queue[i] !in s.log)
    ensures SkipsNow(s, queue)
  {
  }

  /** If the message at place `i` is reached, the server can come to process it without the client's doing. */
  lemma Arrive(s: System, i: nat) returns (steps: seq<Step>)
    requires Inv(s) && s.inflight.None? && Reached(s, i)
    ensures Runs(s, steps) && forall step | step in steps :: step.Serve?
    ensures
      var t := After(s, steps);
      && Inv(t) && t == s.(log := t.log, next := t.next, answers := t.answers) && i < Overlap(t)
  {
    steps := [];
    if Overlap(s) <= i {
      var r :| r in s.requests && s.outboundSequence + i < r.start + |r.msgs|;
      steps := ArriveByRequest(s, r);
    }
  }

  /** A request on the wire arrives, and the server takes all of it. */
  lemma ArriveByRequest(s: System, r: Request) returns (steps: seq<Step>)
    requires Inv(s) && r in s.requests && s.next <= r.start + |r.msgs|
    ensures steps == [Serve(r, |Fresh(s, r)|)] && Runs(s, steps)
    ensures
      var t := After(s, steps);
      && Inv(t) && t == s.(log := t.log, next := t.next, answers := t.answers) && t.next == r.start + |r.msgs|
  {
    assert GoodRequest(s, r);
    var step := Serve(r, |Fresh(s, r)|);
    steps := [step];
    ServeKeepsInv(s, r, |Fresh(s, r)|);
    assert steps[1..] == [] && Runs(Apply(s, step), []);
  }

  /** Serving touches neither the client's queue nor what it has sent. */
  lemma {:induction false} ServeAnyQueue(s: System, s': System, steps: seq<Step>)
    requires Runs(s, steps) && forall step | step in steps :: step.Serve?
    requires s' == s.(pending := s'.pending, inflight := s'.inflight, sent := s'.sent)
    ensures Runs(s', steps)
    ensures After(s', steps) == After(s, steps).(pending := s'.pending, inflight := s'.inflight, sent := s'.sent)
    decreases |steps|
  {
    if steps != [] {
      assert steps[0].Serve?;
      ServeAnyQueue(Apply(s, steps[0]), Apply(s', steps[0]), steps[1..]);
    }
  }

  /** A queue with which the server skips a message is no queue that delivery can go on with. */
  lemma SkippingBreaks(s: System, steps: seq<Step>, queue: seq<Message>)
    requires Runs(s, steps) && (forall step | step in steps :: step.Serve?) && SkipsNow(After(s, steps), queue)
    ensures Skips(s, queue) && !Continues(s, queue)
  {
    forall sent ensures !Inv(s.(pending := queue, inflight := None, sent := sent)) {
      var s' := s.(pending := queue, inflight := None, sent := sent);
      ServeAnyQueue(s, s', steps);
      var t, t' := After(s, steps), After(s', steps);
      var i :| 0 <= i < Overlap(t) && (|queue| <= i || queue[i] !in t.log);
      assert Overlap(t') == Overlap(t) && t'.log == t.log && t'.pending == queue;
      if Inv(s') {
        RunKeepsInv(s', steps);
        SkippedQueue(t', i);
      }
    }
  }

  lemma SkippedQueue(s: System, i: nat)
    requires Inv(s) && s.inflight.None? && i < Overlap(s)
    ensures i < |s.pending| && s.pending[i] in s.log
  {
    OverlapFacts(s);
    var d := Overlap(s);
    assert s.pending[..d][i] == s.log[|s.log| - d..][i];
  }

  /** A queued message behind the overlap has not been processed. */
  lemma BehindOverlapUnseen(s: System, m: Message)
    requires Inv(s) && NoRepeats(Stream(s))
    requires 0 <= Overlap(s) <= |Queued(s)| && m in Queued(s)[Overlap(s)..]
    ensures m !in s.log
  {
    InvDelivers(s);
    LogAccepted(s);
    UndeliveredBehindOverlap(s.types, s.log, Queued(s)[Overlap(s)..], m);
  }

  // Exchanges that return early.

  /**
   A response that cannot be decoded: the client drops the batch and keeps its sequence
   number. Delivery survives that exactly when the batch was empty; otherwise the server
   comes to skip as many of the messages behind it.
   */
  lemma UndecodableIsSafeIff(s: System)
    requires s.inflight.Some? && Inv(s)
    requires NoRepeats(Stream(s))
    ensures Continues(s, s.pending) <==> s.inflight.value.msgs == []
    ensures s.inflight.value.msgs != [] ==> Skips(s, s.pending)
  {
    hide Filtered, Leading;
    var r := s.inflight.value;
    if r.msgs == [] {
      EmptyBatchLost(s);
    } else {
      var steps := UndecodableSkips(s);
      SkippingBreaks(s, steps, s.pending);
    }
  }

  lemma EmptyBatchLost(s: System)
    requires Inv(s) && s.inflight.Some? && s.inflight.value.msgs == []
    ensures Continues(s, s.pending)
  {
    LoseKeepsInv(s);
    assert [] + s.pending == s.pending;
    assert Inv(s.(pending := s.pending, inflight := None, sent := s.sent));
  }

  lemma UndecodableSkips(s: System) returns (steps: seq<Step>)
    requires s.inflight.Some? && Inv(s) && s.inflight.value.msgs != []
    requires NoRepeats(Stream(s))
    ensures Runs(s, steps) && (forall step | step in steps :: step.Serve?) && SkipsNow(After(s, steps), s.pending)
  {
    hide SkipsNow, NoRepeats, Filtered, Leading;
    var r := s.inflight.value;
    assert GoodRequest(s, r);
    steps := ArriveByRequest(s, r);
    var t := After(s, steps);
    assert Overlap(t) == |r.msgs|;
    if |r.msgs| <= |s.pending| {
      assert Queued(t)[Overlap(t)..] == s.pending;
      BehindOverlapUnseen(t, s.pending[Overlap(t) - 1]);
    }
    SkipsAt(t, s.pending, Overlap(t) - 1);
  }

  /** A payload that cannot be marshalled loses its batch, and is safe exactly when nothing queued is reached. */
  lemma MarshalErrorIsSafeIff(s: System)
    requires s.inflight.None? && Inv(s)
    requires NoRepeats(Stream(s))
    ensures Continues(s, AfterBatch(s.pending)) <==> !Reached(s, 0)
    ensures Reached(s, 0) ==> Skips(s, AfterBatch(s.pending))
  {
    hide Filtered, Leading;
    if Reached(s, 0) {
      var steps := MarshalErrorSkips(s);
      SkippingBreaks(s, steps, AfterBatch(s.pending));
    } else {
      NothingReachedContinues(s, AfterBatch(s.pending));
    }
  }

  lemma MarshalErrorSkips(s: System) returns (steps: seq<Step>)
    requires s.inflight.None? && Inv(s) && Reached(s, 0)
    requires NoRepeats(Stream(s))
    ensures Runs(s, steps) && (forall step | step in steps :: step.Serve?) && SkipsNow(After(s, steps), AfterBatch(s.pending))
  {
    hide Filtered, Leading;
    steps := Arrive(s, 0);
    var t := After(s, steps);
    OverlapFacts(t);
    ReachIsShort(t);
    BehindBatch(t);
  }

  lemma BehindBatch(s: System)
    requires s.inflight.None? && Inv(s) && 0 < Overlap(s) <= MAX_PER_EXCHANGE && Overlap(s) <= |s.pending|
    requires NoRepeats(Stream(s))
    ensures SkipsNow(s, AfterBatch(s.pending))
  {
    hide Filtered, Leading;
    var queue, d := AfterBatch(s.pending), Overlap(s);
    QueuedIdle(s);
    if d <= |queue| {
      assert queue[d - 1] == s.pending[d..][|s.pending| - |queue| - 1];
      BehindOverlapUnseen(s, queue[d - 1]);
    }
    SkipsAt(s, queue, d - 1);
  }

  /**
   A resynchronize from the server: the client puts its acknowledgement in front of the
   queue, and is safe exactly when nothing queued is reached. Otherwise the acknowledgement
   takes a sequence number that the server takes for seen.
   */
  lemma ResynchronizeIsSafeIff(s: System, reply: Message)
    requires s.inflight.None? && Inv(s)
    requires reply !in Stream(s)
    ensures Continues(s, [reply] + s.pending) <==> !Reached(s, 0)
    ensures Reached(s, 0) ==> Skips(s, [reply] + s.pending)
  {
    if Reached(s, 0) {
      var steps := Arrive(s, 0);
      var t := After(s, steps);
      assert t.log == Stream(s)[..t.next - t.base];
      SkipsAt(t, [reply] + s.pending, 0);
      SkippingBreaks(s, steps, [reply] + s.pending);
    } else {
      NothingReachedContinues(s, [reply] + s.pending);
    }
  }

  lemma NothingReachedContinues(s: System, queue: seq<Message>)
    requires Inv(s) && s.inflight.None? && !Reached(s, 0)
    ensures Continues(s, queue)
  {
    OverlapFacts(s);
    forall r | r in s.requests && s.outboundSequence <= r.start + |r.msgs|
      ensures SameFront(s.pending, queue, r.start + |r.msgs| - s.outboundSequence)
    {
    }
    SparedQueueKeepsInv(s, queue);
    assert Inv(s.(pending := queue, inflight := None, sent := s.log + queue[Overlap(s)..]));
  }

  lemma LogAccepted(s: System)
    requires Delivered(s)
    ensures Filtered(s.types, s.log) == s.log && forall m | m in s.log :: Accepts(s.types, m)
  {
    FilteredAccepted(s.types, s.sent);
    assert forall m | m in s.log :: m in Filtered(s.types, s.sent);
    FilterNothing(s.types, s.log);
  }

  /** A queued message behind the overlap has not been processed. */
  lemma UndeliveredBehindOverlap(types: seq<Kind>, log: seq<Message>, rest: seq<Message>, m: Message)
    requires forall x | x in log :: Accepts(types, x)
    requires NoRepeats(log + Filtered(types, rest)) && m in rest
    ensures m !in log
  {
    if Accepts(types, m) {
      FilteredMember(types, rest, m);
      var all := log + Filtered(types, rest);
      var j :| 0 <= j < |Filtered(types, rest)| && Filtered(types, rest)[j] == m;
      forall i | 0 <= i < |log| ensures log[i] != m { assert all[i] != all[|log| + j]; }
    }
  }

  /** The end of an accepted log, put in front of more messages. */
  lemma JoinParts(types: seq<Kind>, log: seq<Message>, front: seq<Message>, back: seq<Message>)
    requires |front| <= |log| && front == log[|log| - |front|..]
    requires Filtered(types, log) == log && Filtered(types, front) == front
    ensures |front| <= Leading(types, front + back)
    ensures Filtered(types, log + back) == log + Filtered(types, back)
    ensures Filtered(types, front + back) == (log + Filtered(types, back))[|log| - |front|..]
  {
    FilteredConcat(types, log, back);
    FilteredConcat(types, front, back);
    LeadingGrows(types, front, back);
    DropInConcat(log, Filtered(types, back), |log| - |front|);
  }

  lemma DropInConcat<T>(a: seq<T>, b: seq<T>, n: nat)
    requires n <= |a|
    ensures (a + b)[n..] == a[n..] + b
  {
  }
}
