/**
 No lost wake-up: urgent senders, pings and the exchange loop as they interleave, one
 lock section or channel operation at a time.
 */
module Wakeup {
  import opened Common
  import opened Queue
  import opened Exchange

  /** Where the exchange loop is. */
  datatype Phase =
    | Starting                            // at the head of an exchange
    | Draining                            // a registration, if needed, is in the queue
    | OnWire(snapshot: seq<Message>)
    | Handling                            // working through the server's messages
    | Checking                            // state saved, backlog not yet looked at
    | Checked(backlog: bool)
    | Finishing(ok: bool)                 // the exchange returned, the queue is not yet bounded
    | Waiting(ok: bool)                   // in the select; `ok` is how the last exchange ended

  /** Messages that senders queue are told apart by their tags, which are given out in order. */
  datatype World = World(
    pending: seq<Message>,
    wake: bool,
    phase: Phase,
    calling: set<nat>,                    // calls of SendUrgent that have queued their message
    returned: set<nat>,                   // calls of SendUrgent that have returned
    nextTag: nat,
    time: nat,
    deadline: nat)                        // when the timer of the current wait fires

  datatype Step =
    | Send(kind: Kind)
    | UrgentAppend(kind: Kind)            // the two halves of SendUrgent
    | UrgentTrigger(tag: nat)
    | Ping
    | Register
    | Drain(types: seq<Kind>)
    | NotSent                             // marshal error or undecodable response
    | NotPosted
    | Settle(acked: int)                  // the server's next-expected sequence, relative to the client's
    | QueueReply(reply: Message)          // the acknowledgement of a resynchronize
    | Save(saved: bool)
    | Check
    | TriggerIfBacklog
    | PersistQueue(spool: bool, interval: nat)   // and the timer is set
    | Pass(duration: nat)
    | TakeWake
    | Timer

  const INITIAL := World([], false, Starting, {}, {}, 1, 0, 0)

  predicate Enabled(w: World, step: Step) {
    match step
    case Send(_) | UrgentAppend(_) | Ping | Pass(_) => true
    case UrgentTrigger(tag) => tag in w.calling
    case Register => w.phase.Starting?
    case Drain(_) => w.phase.Starting? || w.phase.Draining?
    case NotSent | NotPosted | Settle(_) => w.phase.OnWire?
    case QueueReply(_) | Save(_) => w.phase.Handling?
    case Check => w.phase.Checking?
    case TriggerIfBacklog => w.phase.Checked?
    case PersistQueue(_, _) => w.phase.Finishing?
    case TakeWake => w.phase.Waiting? && w.wake
    case Timer => w.phase.Waiting? && w.deadline <= w.time
  }

  function Apply(w: World, step: Step): World
    requires Enabled(w, step)
  {
    match step
    case Send(kind) => w.(pending := w.pending + [Message(kind, w.nextTag)], nextTag := w.nextTag + 1)
    case UrgentAppend(kind) =>
      w.(pending := w.pending + [Message(kind, w.nextTag)], calling := w.calling + {w.nextTag}, nextTag := w.nextTag + 1)
    case UrgentTrigger(tag) => w.(wake := true, calling := w.calling - {tag}, returned := w.returned + {tag})
    case Ping => w.(wake := true)
    case Register => w.(pending := [REGISTER] + w.pending, phase := Draining)
    case Drain(types) => w.(pending := AfterBatch(w.pending), phase := OnWire(Filtered(types, Batch(w.pending))))
    case NotSent => w.(phase := Finishing(false))
    case NotPosted => w.(pending := w.phase.snapshot + w.pending, phase := Finishing(false))
    case Settle(acked) => w.(pending := Requeued(w.phase.snapshot, 0, acked) + w.pending, phase := Handling)
    case QueueReply(reply) => w.(pending := [reply] + w.pending)
    case Save(saved) => w.(phase := if saved then Checking else Finishing(false))
    case Check => w.(phase := Checked(w.pending != []))
    case TriggerIfBacklog => w.(wake := w.wake || w.phase.backlog, phase := Finishing(true))
    case PersistQueue(spool, interval) =>
      w.(pending := if spool then Bounded(w.pending) else w.pending, phase := Waiting(w.phase.ok), deadline := w.time + interval)
    case Pass(duration) => w.(time := w.time + duration)
    case TakeWake => w.(wake := false, phase := Starting)
    case Timer => w.(phase := Starting)
  }

  predicate Runs(w: World, steps: seq<Step>)
    decreases |steps|
  {
    steps == [] || (Enabled(w, steps[0]) && Runs(Apply(w, steps[0]), steps[1..]))
  }

  function After(w: World, steps: seq<Step>): World
    requires Runs(w, steps)
    decreases |steps|
  {
    if steps == [] then w else After(Apply(w, steps[0]), steps[1..])
  }

  /** No message whose SendUrgent has returned is still queued. */
  ghost predicate NothingOwed(w: World) {
    forall i | 0 <= i < |w.pending| :: w.pending[i].tag !in w.returned
  }

  /** The loop has found the queue empty, and has not started another exchange since. */
  predicate FoundEmpty(phase: Phase) {
    match phase
    case Checked(backlog) => !backlog
    case Finishing(ok) => ok
    case Waiting(ok) => ok
    case _ => false
  }

  ghost predicate Inv(w: World) {
    && (forall tag | tag in w.calling + w.returned :: tag < w.nextTag)
    && (FoundEmpty(w.phase) && !w.wake ==> NothingOwed(w))
  }

  lemma BoundedOwesNothing(w: World)
    requires NothingOwed(w)
    ensures NothingOwed(w.(pending := Bounded(w.pending)))
  {
    forall k | 0 <= k < |Bounded(w.pending)| ensures Bounded(w.pending)[k].tag !in w.returned {
      BoundedMembers(w.pending, Bounded(w.pending)[k]);
    }
  }

  lemma AppendOwesNothing(w: World, m: Message)
    requires NothingOwed(w) && m.tag !in w.returned
    ensures NothingOwed(w.(pending := w.pending + [m]))
  {
    var sent := w.(pending := w.pending + [m]);
    forall i | 0 <= i < |sent.pending| ensures sent.pending[i].tag !in w.returned {
      if i < |w.pending| { assert sent.pending[i] == w.pending[i]; }
    }
  }

  lemma StepKeepsInv(w: World, step: Step)
    requires Inv(w) && Enabled(w, step)
    ensures Inv(Apply(w, step))
  {
    hide Bounded, Filtered, NothingOwed;
    var next := Apply(w, step);
    assert forall tag | tag in next.calling + next.returned :: tag < next.nextTag;
    if FoundEmpty(next.phase) && !next.wake {
      assert NothingOwed(next) by {
        if step.Check? {
          NothingQueued(next);
        } else {
          QuietKeepsOwing(w, step);
        }
      }
    }
  }

  lemma NothingQueued(w: World)
    requires w.pending == []
    ensures NothingOwed(w)
  {
  }

  lemma QuietKeepsOwing(w: World, step: Step)
    requires Inv(w) && Enabled(w, step) && !step.Check?
    requires FoundEmpty(Apply(w, step).phase) && !Apply(w, step).wake
    ensures NothingOwed(Apply(w, step))
  {
    hide Bounded, Filtered;
    assert w.nextTag !in w.calling + w.returned;
    match step
    case Send(kind) => AppendOwesNothing(w, Message(kind, w.nextTag));
    case UrgentAppend(kind) => AppendOwesNothing(w, Message(kind, w.nextTag));
    case PersistQueue(_, _) => BoundedOwesNothing(w);
    case _ =>
  }

  lemma {:induction false} RunKeepsInv(w: World, steps: seq<Step>)
    requires Inv(w) && Runs(w, steps)
    ensures Inv(After(w, steps))
    decreases |steps|
  {
    if steps != [] {
      StepKeepsInv(w, steps[0]);
      RunKeepsInv(Apply(w, steps[0]), steps[1..]);
    }
  }

  /**
   In every interleaving: if the loop waits with no token in the wake channel after an
   exchange that succeeded, every message whose SendUrgent has returned has left the queue.
   */
  lemma NoLostWakeup(steps: seq<Step>)
    requires Runs(INITIAL, steps)
    ensures
      var w := After(INITIAL, steps);
      w.phase == Waiting(true) && !w.wake ==> NothingOwed(w)
  {
    RunKeepsInv(INITIAL, steps);
  }

  /** A trigger puts a token into the wake channel. */
  predicate Wakes(step: Step) { step.Ping? || step.UrgentTrigger? }

  /**
   When the next exchange can start. Before the timer's deadline, exactly if a wake token
   was in the channel when the wait began or has arrived since; from the deadline on, in
   any case. The backoff lengthens the timer only: a ping or an urgent message cuts it short.
   */
  lemma {:induction false} StartsEarlyIffWoken(w: World, steps: seq<Step>)
    requires w.phase.Waiting? && Runs(w, steps) && forall step | step in steps :: !step.TakeWake? && !step.Timer?
    ensures
      var now := After(w, steps);
      && now.phase == w.phase && now.deadline == w.deadline
      && (now.time < now.deadline ==>
            (Enabled(now, TakeWake) || Enabled(now, Timer) <==> w.wake || exists step :: step in steps && Wakes(step)))
      && (now.time >= now.deadline ==> Enabled(now, Timer))
    decreases |steps|
  {
    if steps != [] {
      assert steps[0] in steps;
      var next := Apply(w, steps[0]);
      StartsEarlyIffWoken(next, steps[1..]);
      assert forall step :: step in steps <==> step == steps[0] || step in steps[1..];
    }
  }

  lemma RunsCons(w: World, step: Step, rest: seq<Step>)
    requires Enabled(w, step)
    ensures Runs(w, [step] + rest) <==> Runs(Apply(w, step), rest)
    ensures Runs(Apply(w, step), rest) ==> After(w, [step] + rest) == After(Apply(w, step), rest)
  {
    assert ([step] + rest)[1..] == rest;
  }

  lemma {:induction false} RunsConcat(w: World, first: seq<Step>, second: seq<Step>)
    ensures Runs(w, first + second) <==> Runs(w, first) && Runs(After(w, first), second)
    ensures Runs(w, first + second) ==> After(w, first + second) == After(After(w, first), second)
    decreases |first|
  {
    if first == [] {
      assert first + second == second;
    } else {
      assert (first + second)[1..] == first[1..] + second;
      if Enabled(w, first[0]) { RunsConcat(Apply(w, first[0]), first[1..], second); }
    }
  }

  // One exchange, as the loop's steps.

  function ReplySteps(inbound: seq<Inbound>): seq<Step> {
    if inbound == [] then []
    else if inbound[0].Resynchronize? then [QueueReply(inbound[0].reply)] + ReplySteps(inbound[1..])
    else ReplySteps(inbound[1..])
  }

  function SaveSteps(saved: bool): seq<Step> {
    [Save(saved)] + (if saved then [Check] + ([TriggerIfBacklog] + []) else [])
  }

  function ReplyTail(c: Client, reply: Reply): seq<Step> {
    match reply
    case NotMarshalled => [NotSent] + []
    case PostFailed => [NotPosted] + []
    case Undecodable => [NotSent] + []
    case Response(ack, _, inbound, save) =>
      var acked := if ack.Some? then ack.value - c.state.outboundSequence else |Snapshot(c)|;
      [Settle(acked)] + (ReplySteps(inbound) + SaveSteps(save.StateWritten?))
  }

  function ExchangeSteps(c: Client, reply: Reply): seq<Step> {
    var drain := [Drain(c.state.acceptedTypes)] + ReplyTail(c, reply);
    if c.state.secureID == "" then [Step.Register] + drain else drain
  }

  /** Without interference, the loop's steps are one exchange as `PerformExchange` carries it out, on every path. */
  lemma LoopIsExchange(hash: seq<Kind> -> Bytes, c: Client, w: World, reply: Reply)
    requires w.pending == c.queue && w.wake == c.wake && w.phase.Starting?
    ensures Runs(w, ExchangeSteps(c, reply))
    ensures
      var d, end := AfterExchange(hash, c, reply, []), After(w, ExchangeSteps(c, reply));
      end == w.(pending := d.queue, wake := d.wake, phase := Finishing(reply.Response? && reply.save.StateWritten?))
  {
    var ready := w.(pending := Outgoing(c), phase := if c.state.secureID == "" then Draining else Starting);
    var drain := [Drain(c.state.acceptedTypes)] + ReplyTail(c, reply);
    if c.state.secureID == "" { RunsCons(w, Step.Register, drain); }
    RunsCons(ready, Drain(c.state.acceptedTypes), ReplyTail(c, reply));
    var sent := w.(pending := AfterBatch(Outgoing(c)), phase := OnWire(Snapshot(c)));
    assert Apply(ready, Drain(c.state.acceptedTypes)) == sent;
    TailIsExchange(hash, c, w, sent, reply);
  }

  lemma TailIsExchange(hash: seq<Kind> -> Bytes, c: Client, w: World, sent: World, reply: Reply)
    requires w.wake == c.wake && sent == w.(pending := AfterBatch(Outgoing(c)), phase := OnWire(Snapshot(c)))
    ensures Runs(sent, ReplyTail(c, reply))
    ensures
      var d, end := AfterExchange(hash, c, reply, []), After(sent, ReplyTail(c, reply));
      end == w.(pending := d.queue, wake := d.wake, phase := Finishing(reply.Response? && reply.save.StateWritten?))
  {
    hide Filtered, ReceivedAll;
    match reply
    case NotMarshalled =>
      assert AfterBatch(Outgoing(c)) + [] == AfterBatch(Outgoing(c));
      RunsCons(sent, NotSent, []);
    case PostFailed =>
      assert AfterBatch(Outgoing(c)) + [] == AfterBatch(Outgoing(c));
      RunsCons(sent, NotPosted, []);
    case Undecodable =>
      assert AfterBatch(Outgoing(c)) + [] == AfterBatch(Outgoing(c));
      RunsCons(sent, NotSent, []);
    case Response(_, _, _, _) => AnswerIsExchange(hash, c, w, sent, reply);
  }

  lemma AnswerIsExchange(hash: seq<Kind> -> Bytes, c: Client, w: World, sent: World, reply: Reply)
    requires w.wake == c.wake && sent == w.(pending := AfterBatch(Outgoing(c)), phase := OnWire(Snapshot(c)))
    requires reply.Response?
    ensures Runs(sent, ReplyTail(c, reply))
    ensures
      var d, end := AfterExchange(hash, c, reply, []), After(sent, ReplyTail(c, reply));
      end == w.(pending := d.queue, wake := d.wake, phase := Finishing(reply.save.StateWritten?))
  {
    hide Filtered, Requeued, ReceivedAll, ReplySteps, SaveSteps, Runs, After, Merged;
    var Response(ackField, token, inbound, save) := reply;
    var rest := AfterBatch(Outgoing(c)) + [];
    assert rest == AfterBatch(Outgoing(c));
    var saved := save.StateWritten?;
    var ack := if ackField.Some? then ackField.value else c.state.outboundSequence + |Snapshot(c)|;
    var acked := Acked(c, Snapshot(c), rest, ack, token, |inbound|);
    var settled := sent.(pending := acked.queue, phase := Handling);
    RequeuedFrom(Snapshot(c), c.state.outboundSequence, ack);
    assert Apply(sent, Settle(ack - c.state.outboundSequence)) == settled;
    RunsCons(sent, Settle(ack - c.state.outboundSequence), ReplySteps(inbound) + SaveSteps(saved));
    RunsConcat(settled, ReplySteps(inbound), SaveSteps(saved));
    RepliesRun(hash, acked, settled, inbound);
    SaveRuns(After(settled, ReplySteps(inbound)), saved);
  }

  lemma RequeuedFrom(snapshot: seq<Message>, start: int, ack: int)
    ensures Requeued(snapshot, 0, ack - start) == Requeued(snapshot, start, ack)
  {
  }

  lemma {:induction false} RepliesRun(hash: seq<Kind> -> Bytes, c: Client, w: World, inbound: seq<Inbound>)
    requires w.phase.Handling? && w.pending == c.queue
    ensures Runs(w, ReplySteps(inbound))
    ensures After(w, ReplySteps(inbound)) == w.(pending := ReceivedAll(hash, c, inbound).queue)
    ensures ReceivedAll(hash, c, inbound).wake == c.wake
    decreases |inbound|
  {
    if inbound != [] {
      var next := Received(hash, c, inbound[0]);
      RepliesRun(hash, next, w.(pending := next.queue), inbound[1..]);
      if inbound[0].Resynchronize? { RunsCons(w, QueueReply(inbound[0].reply), ReplySteps(inbound[1..])); }
    }
  }

  lemma SaveRuns(w: World, saved: bool)
    requires w.phase.Handling?
    ensures Runs(w, SaveSteps(saved))
    ensures After(w, SaveSteps(saved)) == w.(wake := w.wake || (saved && w.pending != []), phase := Finishing(saved))
  {
    if saved {
      var checking := w.(phase := Checking);
      RunsCons(w, Save(true), [Check] + ([TriggerIfBacklog] + []));
      RunsCons(checking, Check, [TriggerIfBacklog] + []);
      RunsCons(Apply(checking, Check), TriggerIfBacklog, []);
    } else {
      RunsCons(w, Save(false), []);
    }
  }

  // Exchanges that fail.

  /** The ways an exchange fails: nothing sent or nothing decoded, not posted, or answered but not saved. */
  datatype Failure = Unsent | Unposted | Unsaved(acked: int)

  function FailureTail(f: Failure, spool: bool, interval: nat): seq<Step> {
    var end := [PersistQueue(spool, interval)] + [];
    match f
    case Unsent => [NotSent] + end
    case Unposted => [NotPosted] + end
    case Unsaved(acked) => [Settle(acked)] + ([Save(false)] + end)
  }

  function FailureSteps(types: seq<Kind>, f: Failure, spool: bool, interval: nat): seq<Step> {
    [Drain(types)] + FailureTail(f, spool, interval)
  }

  /** What a failed exchange leaves queued, before the bound. */
  function LeftQueued(types: seq<Kind>, queue: seq<Message>, f: Failure): seq<Message> {
    var snapshot := Filtered(types, Batch(queue));
    match f
    case Unsent => AfterBatch(queue)
    case Unposted => snapshot + AfterBatch(queue)
    case Unsaved(acked) => Requeued(snapshot, 0, acked) + AfterBatch(queue)
  }

  /** A message with this tag is queued although its SendUrgent has returned. */
  ghost predicate Owes(w: World, tag: nat) {
    tag in w.returned && exists i :: 0 <= i < |w.pending| && w.pending[i].tag == tag
  }

  /** Only operation results are sent urgently, as in the client. */
  ghost predicate OnlyResultsOwed(w: World) {
    forall i | 0 <= i < |w.pending| && w.pending[i].tag in w.returned :: IsUrgent(w.pending[i])
  }

  /**
   After a failed exchange the loop waits with the wake token it had, and what it then
   owes is what the exchange neither confirmed nor gave up. In particular, a POST that
   fails leaves exactly the urgent messages that were queued before, for the timer.
   */
  lemma FailureLeavesOwed(w: World, types: seq<Kind>, f: Failure, spool: bool, interval: nat)
    requires (w.phase.Starting? || w.phase.Draining?) && OnlyResultsOwed(w)
    ensures Runs(w, FailureSteps(types, f, spool, interval))
    ensures
      var after := After(w, FailureSteps(types, f, spool, interval));
      && after.phase == Waiting(false) && after.wake == w.wake
      && (forall tag :: Owes(after, tag) <==> Owes(w.(pending := LeftQueued(types, w.pending, f)), tag))
      && (f.Unposted? || (f.Unsaved? && f.acked <= 0) ==> forall tag :: Owes(after, tag) <==> Owes(w, tag))
  {
    FailureRuns(w, types, f, spool, interval);
    var left := LeftQueued(types, w.pending, f);
    forall m | m in left ensures m in w.pending { LeftMembers(types, w.pending, f, m); }
    forall tag
      ensures Owes(w.(pending := Bounded(left)), tag) <==> Owes(w.(pending := left), tag)
      ensures f.Unposted? || (f.Unsaved? && f.acked <= 0) ==> (Owes(w.(pending := left), tag) <==> Owes(w, tag))
    {
      SameOwed(w, left, Bounded(left), tag);
      if f.Unposted? || (f.Unsaved? && f.acked <= 0) { SameOwedUnposted(w, types, left, tag); }
    }
  }

  lemma FailureRuns(w: World, types: seq<Kind>, f: Failure, spool: bool, interval: nat)
    requires w.phase.Starting? || w.phase.Draining?
    ensures Runs(w, FailureSteps(types, f, spool, interval))
    ensures
      var left := LeftQueued(types, w.pending, f);
      After(w, FailureSteps(types, f, spool, interval))
        == w.(pending := if spool then Bounded(left) else left, phase := Waiting(false), deadline := w.time + interval)
  {
    hide Runs, After, Bounded, FailureSteps, LeftQueued;
    FailureEnds(w, types, f, spool, interval);
  }

  lemma FailureEnds(w: World, types: seq<Kind>, f: Failure, spool: bool, interval: nat)
    requires w.phase.Starting? || w.phase.Draining?
    ensures Runs(w, FailureSteps(types, f, spool, interval))
    ensures
      var left := LeftQueued(types, w.pending, f);
      After(w, FailureSteps(types, f, spool, interval))
        == Apply(w.(pending := left, phase := Finishing(false)), PersistQueue(spool, interval))
  {
    hide Runs, After, Bounded, Filtered, Requeued;
    RunsCons(w, Drain(types), FailureTail(f, spool, interval));
    var sent := Apply(w, Drain(types));
    var left := w.(pending := LeftQueued(types, w.pending, f), phase := Finishing(false));
    match f
    case Unsent =>
      assert Apply(sent, NotSent) == left;
      ThenPersist(sent, NotSent, spool, interval);
    case Unposted =>
      assert Apply(sent, NotPosted) == left;
      ThenPersist(sent, NotPosted, spool, interval);
    case Unsaved(acked) =>
      var settled := Apply(sent, Settle(acked));
      assert Apply(settled, Save(false)) == left;
      ThenPersist(settled, Save(false), spool, interval);
      RunsCons(sent, Settle(acked), [Save(false)] + ([PersistQueue(spool, interval)] + []));
  }

  lemma ThenPersist(w: World, step: Step, spool: bool, interval: nat)
    requires Enabled(w, step) && Apply(w, step).phase.Finishing?
    ensures
      var steps, end := [step] + ([PersistQueue(spool, interval)] + []), PersistQueue(spool, interval);
      Runs(w, steps) && After(w, steps) == Apply(Apply(w, step), end)
  {
    hide Apply;
    RunsCons(Apply(w, step), PersistQueue(spool, interval), []);
    RunsCons(w, step, [PersistQueue(spool, interval)] + []);
  }

  lemma LeftMembers(types: seq<Kind>, queue: seq<Message>, f: Failure, m: Message)
    requires m in LeftQueued(types, queue, f)
    ensures m in queue
  {
    FilteredAccepted(types, Batch(queue));
    assert forall x | x in AfterBatch(queue) :: x in queue;
    assert forall x | x in Batch(queue) :: x in queue;
  }

  /** The bound drops nothing that is owed. */
  lemma SameOwed(w: World, left: seq<Message>, bounded: seq<Message>, tag: nat)
    requires OnlyResultsOwed(w) && bounded == Bounded(left) && forall m | m in left :: m in w.pending
    ensures Owes(w.(pending := bounded), tag) <==> Owes(w.(pending := left), tag)
  {
    if Owes(w.(pending := left), tag) {
      var i :| 0 <= i < |left| && left[i].tag == tag;
      assert left[i] in w.pending;
      BoundedMembers(left, left[i]);
      var k :| 0 <= k < |bounded| && bounded[k] == left[i];
    }
    if Owes(w.(pending := bounded), tag) {
      var k :| 0 <= k < |bounded| && bounded[k].tag == tag;
      BoundedMembers(left, bounded[k]);
    }
  }

  /** The filter drops nothing that is owed. */
  lemma SameOwedUnposted(w: World, types: seq<Kind>, left: seq<Message>, tag: nat)
    requires OnlyResultsOwed(w) && left == Filtered(types, Batch(w.pending)) + AfterBatch(w.pending)
    ensures Owes(w.(pending := left), tag) <==> Owes(w, tag)
  {
    assert w.pending == Batch(w.pending) + AfterBatch(w.pending);
    if Owes(w, tag) {
      var i :| 0 <= i < |w.pending| && w.pending[i].tag == tag;
      var m := w.pending[i];
      if m in Batch(w.pending) { FilteredMember(types, Batch(w.pending), m); }
      assert m in left;
      var k :| 0 <= k < |left| && left[k] == m;
    }
    if Owes(w.(pending := left), tag) {
      var k :| 0 <= k < |left| && left[k].tag == tag;
      LeftMembers(types, w.pending, Unposted, left[k]);
    }
  }

  /** A message with this tag that may not be dropped is queued, or drained and not yet put back. */
  ghost predicate Held(w: World, tag: nat) {
    exists m: Message :: m.tag == tag && IsUrgent(m) && (m in w.pending || (w.phase.OnWire? && m in w.phase.snapshot))
  }

  /** The step confirms such a message, or gives it up: it is in a batch that could not be sent or whose answer is unreadable. */
  ghost predicate Releases(w: World, step: Step, tag: nat) {
    w.phase.OnWire? && exists m: Message ::
      && m.tag == tag && IsUrgent(m)
      && (|| (step.NotSent? && m in w.phase.snapshot)
          || (step.Settle? && m in Confirmed(w.phase.snapshot, step.acked)))
  }

  function Confirmed(snapshot: seq<Message>, acked: int): seq<Message> { snapshot[..Max(0, Min(acked, |snapshot|))] }

  ghost predicate Released(w: World, steps: seq<Step>, tag: nat)
    requires Runs(w, steps)
    decreases |steps|
  {
    steps != [] && (Releases(w, steps[0], tag) || Released(Apply(w, steps[0]), steps[1..], tag))
  }

  lemma ConfirmedOrRequeued(snapshot: seq<Message>, acked: int, m: Message)
    requires m in snapshot
    ensures m in Confirmed(snapshot, acked) || m in Requeued(snapshot, 0, acked)
  {
    var i :| 0 <= i < |snapshot| && snapshot[i] == m;
    if i < acked {
      assert Confirmed(snapshot, acked)[i] == m;
    } else {
      assert snapshot[Max(acked, 0)..][i - Max(acked, 0)] == m;
    }
  }

  lemma StepKeepsHeld(w: World, step: Step, tag: nat)
    requires Enabled(w, step) && Held(w, tag)
    ensures Held(Apply(w, step), tag) || Releases(w, step, tag)
  {
    hide Filtered, Bounded, Requeued, Confirmed;
    var m: Message :| m.tag == tag && IsUrgent(m) && (m in w.pending || (w.phase.OnWire? && m in w.phase.snapshot));
    var w' := Apply(w, step);
    if step.Drain? {
      assert w.pending == Batch(w.pending) + AfterBatch(w.pending);
      if m in Batch(w.pending) { FilteredMember(step.types, Batch(w.pending), m); }
    }
    if step.PersistQueue? { BoundedMembers(w.pending, m); }
    if step.Settle? && m in w.phase.snapshot { ConfirmedOrRequeued(w.phase.snapshot, step.acked, m); }
    assert m in w'.pending || (w'.phase.OnWire? && m in w'.phase.snapshot) || Releases(w, step, tag);
  }

  /**
   Failures in every interleaving with senders, pings, answers and the timer, however many
   there are: an operation result that the loop holds is held until an answer confirms it
   or an early return gives it up; and when the loop waits before that, it owes every one
   whose SendUrgent has returned.
   */
  lemma {:induction false} HeldUntilReleased(w: World, steps: seq<Step>, tag: nat)
    requires Runs(w, steps) && Held(w, tag)
    ensures
      var after := After(w, steps);
      || Released(w, steps, tag)
      || (Held(after, tag) && (after.phase.Waiting? && tag in after.returned ==> Owes(after, tag)))
    decreases |steps|
  {
    hide Releases, Apply;
    if steps != [] {
      StepKeepsHeld(w, steps[0], tag);
      if !Releases(w, steps[0], tag) { HeldUntilReleased(Apply(w, steps[0]), steps[1..], tag); }
    } else if w.phase.Waiting? {
      var m: Message :| m.tag == tag && m in w.pending;
      var i :| 0 <= i < |w.pending| && w.pending[i] == m;
    }
  }

  const URGENT: seq<Step> := [UrgentAppend(OperationResult)] + ([UrgentTrigger(1)] + [])
  const FAILED: seq<Step> := FailureSteps([], Unposted, true, 0)

  /** So the success in `NoLostWakeup` matters: a run of two failed exchanges that leaves an urgent message waiting. */
  lemma FailureLeavesUrgentWaiting()
    ensures
      var steps := URGENT + (FAILED + ([TakeWake] + FAILED));
      && Runs(INITIAL, steps)
      && After(INITIAL, steps).phase == Waiting(false)
      && !After(INITIAL, steps).wake
      && !NothingOwed(After(INITIAL, steps))
  {
    var queued := World([Message(OperationResult, 1)], true, Starting, {}, {1}, 2, 0, 0);
    QueueUrgent(queued);
    RunsConcat(INITIAL, URGENT, FAILED + ([TakeWake] + FAILED));
    FailureKeepsShort(queued);
    RunsConcat(queued, FAILED, [TakeWake] + FAILED);
    var waiting := After(queued, FAILED);
    RunsCons(waiting, TakeWake, FAILED);
    FailureKeepsShort(queued.(wake := false));
  }

  /** A failed POST puts a short queue back as it was, if the server takes everything. */
  lemma FailureKeepsShort(w: World)
    requires |w.pending| <= MAX_PER_EXCHANGE && (w.phase.Starting? || w.phase.Draining?)
    ensures Runs(w, FAILED) && After(w, FAILED) == w.(phase := Waiting(false), deadline := w.time)
  {
    FailureRuns(w, [], Unposted, true, 0);
    FilterNothing([], w.pending);
    assert Batch(w.pending) == w.pending && AfterBatch(w.pending) == [];
  }

  lemma QueueUrgent(queued: World)
    requires queued == World([Message(OperationResult, 1)], true, Starting, {}, {1}, 2, 0, 0)
    ensures Runs(INITIAL, URGENT) && After(INITIAL, URGENT) == queued
  {
    var appended := World([Message(OperationResult, 1)], false, Starting, {1}, {}, 2, 0, 0);
    assert Apply(INITIAL, UrgentAppend(OperationResult)) == appended;
    assert Apply(appended, UrgentTrigger(1)) == queued;
    RunsCons(INITIAL, UrgentAppend(OperationResult), [UrgentTrigger(1)] + []);
    RunsCons(appended, UrgentTrigger(1), []);
  }
}
