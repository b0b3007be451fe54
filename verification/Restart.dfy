/**
 Restarts: the state file and the spool are saved one after the other, the process may die
 between any two steps, and a restored queue meets a server that has gone on.
 */
module Restart {
  import opened Common
  import opened Queue
  import opened Exchange
  import D = Delivery

  // What a client may rely on after a restart; weaker than `Delivery.Inv`, which allows no duplicates.

  /** The messages that the client has still to deliver; the first has its sequence number. */
  function Due(s: D.System): seq<Message> { Filtered(s.types, D.Queued(s)) }

  /** How far into them a response can confirm what the server took under other numbers. */
  function Window(s: D.System): int { Min(s.next - s.outboundSequence, MAX_PER_EXCHANGE) }

  /** How many of them the exchange under way carries, or the next one would. */
  function Carry(s: D.System): nat {
    if s.inflight.Some? then |s.inflight.value.msgs| else |Filtered(s.types, Batch(s.pending))|
  }

  function End(r: D.Request): int { r.start + |r.msgs| }

  /** What the server would take for seen, it has seen. */
  ghost predicate Passed(s: D.System) {
    0 <= Window(s) <= |Due(s)| && forall i | 0 <= i < Window(s) :: Due(s)[i] in s.log
  }

  /** What this request would still deliver is due at the same numbers. */
  ghost predicate Aligned(s: D.System, r: D.Request) {
    && s.outboundSequence <= s.next && r.start <= s.next <= End(r)
    && End(r) <= s.outboundSequence + Carry(s) && End(r) <= s.outboundSequence + |Due(s)|
    && r.msgs[s.next - r.start..] == Due(s)[s.next - s.outboundSequence..End(r) - s.outboundSequence]
  }

  ghost predicate GoodRequest(s: D.System, r: D.Request) {
    r.attempt < s.attempt && r.start <= s.next && (End(r) <= s.next || Aligned(s, r))
  }

  ghost predicate GoodAnswer(s: D.System, a: (nat, int)) {
    && a.0 < s.attempt
    && (s.inflight.Some? && a.0 == s.inflight.value.attempt ==>
          s.outboundSequence <= a.1 <= s.next && (a.1 == s.next || s.next <= s.outboundSequence + |s.inflight.value.msgs|))
  }

  ghost predicate GoodInflight(s: D.System) {
    s.inflight.Some? ==>
      && s.inflight.value.start == s.outboundSequence
      && Filtered(s.types, s.inflight.value.msgs) == s.inflight.value.msgs
      && |s.inflight.value.msgs| <= MAX_PER_EXCHANGE
  }

  ghost predicate Wire(s: D.System) {
    && GoodInflight(s)
    && (forall r | r in s.requests :: GoodRequest(s, r))
    && (forall a | a in s.answers :: GoodAnswer(s, a))
  }

  ghost predicate Steady(s: D.System) { Passed(s) && Wire(s) }

  /** What was due is still due, or has been processed. */
  ghost predicate Keeps(s: D.System, s': D.System) {
    forall m | m in Due(s) :: m in Due(s') || m in s'.log
  }

  // Every step keeps that.

  /** Requests stay good while what is due and what an exchange carries only grow. */
  lemma RequestsStay(s: D.System, s': D.System)
    requires forall r | r in s.requests :: GoodRequest(s, r)
    requires s'.requests <= s.requests && s'.next == s.next && s'.outboundSequence == s.outboundSequence
    requires s.attempt <= s'.attempt && Due(s) <= Due(s') && Carry(s) <= Carry(s')
    ensures forall r | r in s'.requests :: GoodRequest(s', r)
  {
    forall r | r in s'.requests ensures GoodRequest(s', r) {
      assert GoodRequest(s, r);
      if s.next < End(r) { AlignedStays(s, s', r); }
    }
  }

  lemma AlignedStays(s: D.System, s': D.System, r: D.Request)
    requires Aligned(s, r) && s'.next == s.next && s'.outboundSequence == s.outboundSequence
    requires Due(s) <= Due(s') && Carry(s) <= Carry(s')
    ensures Aligned(s', r)
  {
    SliceOfLonger(Due(s), Due(s'), s.next - s.outboundSequence, End(r) - s.outboundSequence);
  }

  lemma SliceOfLonger<T>(a: seq<T>, b: seq<T>, i: nat, j: nat)
    requires a <= b && i <= j <= |a|
    ensures a[i..j] == b[i..j]
  {
  }

  lemma PassedStays(s: D.System, s': D.System)
    requires Passed(s) && Due(s) <= Due(s') && s'.log == s.log && Window(s') == Window(s)
    ensures Passed(s')
  {
  }

  lemma SendSteady(s: D.System, m: Message)
    requires Steady(s)
    ensures Steady(D.Apply(s, D.SendOne(m))) && Keeps(s, D.Apply(s, D.SendOne(m)))
    ensures Accepts(s.types, m) ==> m in Due(D.Apply(s, D.SendOne(m)))
  {
    var s' := D.Apply(s, D.SendOne(m));
    assert D.Queued(s') == D.Queued(s) + [m];
    FilteredConcat(s.types, D.Queued(s), [m]);
    assert Due(s') == Due(s) + Filtered(s.types, [m]);
    CarryGrows(s, m);
    RequestsStay(s, s');
    PassedStays(s, s');
    assert forall a | a in s'.answers :: GoodAnswer(s, a);
    if Accepts(s.types, m) { FilteredMember(s.types, D.Queued(s'), m); }
  }

  lemma CarryGrows(s: D.System, m: Message)
    ensures Carry(s) <= Carry(D.Apply(s, D.SendOne(m)))
  {
    if |s.pending| < MAX_PER_EXCHANGE {
      assert Batch(s.pending + [m]) == Batch(s.pending) + [m];
      FilteredConcat(s.types, Batch(s.pending), [m]);
    } else {
      assert Batch(s.pending + [m]) == Batch(s.pending);
    }
  }

  lemma BeginSteady(s: D.System)
    requires Steady(s) && s.inflight.None?
    ensures Steady(D.Apply(s, D.Begin)) && Keeps(s, D.Apply(s, D.Begin))
  {
    hide Filtered;
    var s' := D.Apply(s, D.Begin);
    var r := s'.inflight.value;
    D.QueuedIdle(s);
    D.BatchAndRest(s.types, s.pending);
    assert Due(s') == Due(s) && r.msgs == Due(s)[..|r.msgs|];
    BeginRequests(s, s', r);
    PassedStays(s, s');
    forall a | a in s'.answers ensures GoodAnswer(s', a) { assert GoodAnswer(s, a); }
  }

  lemma BeginRequests(s: D.System, s': D.System, r: D.Request)
    requires s.inflight.None? && Wire(s) && s.outboundSequence <= s.next && s' == D.Apply(s, D.Begin)
    requires s'.inflight == Some(r) && Due(s') == Due(s)
    requires |r.msgs| <= |Due(s)| && r.msgs == Due(s)[..|r.msgs|] && Carry(s) == |r.msgs|
    ensures forall q | q in s'.requests :: GoodRequest(s', q)
  {
    hide Filtered;
    assert Carry(s') == |r.msgs| && r.start == s.outboundSequence && s'.requests == s.requests + {r};
    hide Due, Carry;
    forall q | q in s'.requests ensures GoodRequest(s', q) {
      if q in s.requests {
        assert GoodRequest(s, q);
        if s.next < End(q) { AlignedStays(s, s', q); }
      } else if s.next < End(r) {
        SliceOfFront(Due(s), s.next - r.start, |r.msgs|);
      }
    }
  }

  lemma SliceOfFront<T>(s: seq<T>, i: nat, j: nat)
    requires i <= j <= |s|
    ensures s[..j][i..] == s[i..j]
  {
  }

  lemma LoseSteady(s: D.System)
    requires Steady(s) && s.inflight.Some?
    ensures Steady(D.Apply(s, D.Lose)) && Keeps(s, D.Apply(s, D.Lose))
  {
    hide Filtered;
    var s' := D.Apply(s, D.Lose);
    D.QueuedIdle(s');
    assert D.Queued(s') == D.Queued(s);
    FrontCarried(s.types, s.inflight.value.msgs, s.pending);
    RequestsStay(s, s');
    PassedStays(s, s');
    assert forall a | a in s'.answers :: GoodAnswer(s, a);
  }

  /** An accepted batch that goes back to the front of the queue is carried by the next exchange. */
  lemma FrontCarried(types: seq<Kind>, front: seq<Message>, rest: seq<Message>)
    requires Filtered(types, front) == front && |front| <= MAX_PER_EXCHANGE
    ensures |front| <= |Filtered(types, Batch(front + rest))|
  {
    var batch := Batch(front + rest);
    assert batch == front + batch[|front|..];
    FilteredConcat(types, front, batch[|front|..]);
  }

  lemma ServeSteady(s: D.System, r: D.Request, taken: nat)
    requires Steady(s) && D.Enabled(s, D.Serve(r, taken))
    ensures Steady(D.Apply(s, D.Serve(r, taken))) && Keeps(s, D.Apply(s, D.Serve(r, taken)))
  {
    var s' := D.Apply(s, D.Serve(r, taken));
    assert GoodRequest(s, r);
    assert Due(s') == Due(s);
    if taken > 0 {
      assert Aligned(s, r);
      ServePassed(s, r, taken);
    } else {
      assert s'.log == s.log;
    }
    forall q | q in s'.requests ensures GoodRequest(s', q) {
      assert GoodRequest(s, q);
      if s'.next < End(q) { ServeAligned(s, s', q); }
    }
    forall a | a in s'.answers ensures GoodAnswer(s', a) {
      if a in s.answers { assert GoodAnswer(s, a); }
    }
  }

  lemma ServePassed(s: D.System, r: D.Request, taken: nat)
    requires Passed(s) && Aligned(s, r) && taken <= |D.Fresh(s, r)| && r in s.requests
    ensures Passed(D.Apply(s, D.Serve(r, taken)))
  {
    hide Filtered;
    var s' := D.Apply(s, D.Serve(r, taken));
    var behind := s.next - s.outboundSequence;
    var unseen := D.Fresh(s, r)[..taken];
    forall i | 0 <= i < Window(s') ensures i < |Due(s)| && Due(s)[i] in s'.log {
      if i < behind {
        assert Due(s)[i] in s.log;
      } else {
        assert unseen[i - behind] == Due(s)[behind..End(r) - s.outboundSequence][i - behind];
        assert Due(s)[i] in unseen;
      }
    }
  }

  lemma ServeAligned(s: D.System, s': D.System, q: D.Request)
    requires Aligned(s, q) && s' == s.(log := s'.log, next := s'.next, answers := s'.answers)
    requires s.next <= s'.next < End(q)
    ensures Aligned(s', q)
  {
    hide Filtered;
    assert Due(s') == Due(s) && Carry(s') == Carry(s);
    hide Due, Carry;
    var taken := s'.next - s.next;
    DropTwice(q.msgs, s.next - q.start, taken);
    DropSlice(Due(s), s.next - s.outboundSequence, End(q) - s.outboundSequence, taken);
  }

  lemma DropTwice<T>(s: seq<T>, a: nat, b: nat)
    requires a + b <= |s|
    ensures s[a..][b..] == s[a + b..]
  {
  }

  lemma DropSlice<T>(s: seq<T>, i: nat, j: nat, n: nat)
    requires i + n <= j <= |s|
    ensures s[i..j][n..] == s[i + n..j]
  {
  }

  /** A response moves the client's number up by what it confirms of the batch, or past the batch altogether. */
  lemma SettleSteady(s: D.System, ack: int)
    requires Steady(s) && D.Enabled(s, D.Settle(ack))
    ensures
      var s', r := D.Apply(s, D.Settle(ack)), s.inflight.value;
      var k := Min(ack - s.outboundSequence, |r.msgs|);
      && Steady(s') && Keeps(s, s')
      && 0 <= k <= |Due(s)| && Due(s') == Due(s)[k..] && forall i | 0 <= i < k :: Due(s)[i] in s.log
  {
    hide Filtered;
    var r := s.inflight.value;
    assert GoodAnswer(s, (r.attempt, ack));
    FilteredConcat(s.types, r.msgs, s.pending);
    assert Due(s) == r.msgs + Filtered(s.types, s.pending);
    var s' := D.Apply(s, D.Settle(ack));
    D.QueuedIdle(s');
    if ack - s.outboundSequence <= |r.msgs| {
      SettleWithin(s, s', ack);
    } else {
      SettlePast(s, s', ack);
    }
    KeepsBehind(s, s', Min(ack - s.outboundSequence, |r.msgs|));
  }

  lemma KeepsBehind(s: D.System, s': D.System, k: nat)
    requires k <= |Due(s)| && Due(s') == Due(s)[k..] && s'.log == s.log
    requires forall i | 0 <= i < k :: Due(s)[i] in s.log
    ensures Keeps(s, s')
  {
    forall m | m in Due(s) ensures m in Due(s') || m in s'.log {
      var i :| 0 <= i < |Due(s)| && Due(s)[i] == m;
      if i >= k { assert Due(s)[k..][i - k] == m; }
    }
  }

  lemma SettleWithin(s: D.System, s': D.System, ack: int)
    requires Steady(s) && s.inflight.Some? && s.outboundSequence <= ack <= s.next
    requires ack - s.outboundSequence <= |s.inflight.value.msgs|
    requires ack == s.next || s.next <= s.outboundSequence + |s.inflight.value.msgs|
    requires s' == s.(pending := s.inflight.value.msgs[ack - s.outboundSequence..] + s.pending,
                      inflight := None, outboundSequence := ack)
    requires Due(s) == s.inflight.value.msgs + Filtered(s.types, s.pending)
    ensures Steady(s') && Due(s') == Due(s)[ack - s.outboundSequence..]
  {
    hide Requeued, Filtered;
    var r, k := s.inflight.value, ack - s.outboundSequence;
    var back := r.msgs[k..];
    D.QueuedIdle(s');
    D.FilteredPart(s.types, r.msgs, k);
    FilteredConcat(s.types, back, s.pending);
    assert Due(s') == Due(s)[k..];
    FrontCarried(s.types, back, s.pending);
    forall q | q in s'.requests ensures GoodRequest(s', q) {
      assert GoodRequest(s, q);
      if s.next < End(q) { SettleAligned(s, s', q, k); }
    }
    assert forall a | a in s'.answers :: GoodAnswer(s, a);
  }

  lemma SettleAligned(s: D.System, s': D.System, q: D.Request, k: nat)
    requires Aligned(s, q) && s'.next == s.next && s'.outboundSequence == s.outboundSequence + k <= s.next
    requires k <= |Due(s)| && Due(s') == Due(s)[k..] && Carry(s) <= Carry(s') + k
    ensures Aligned(s', q)
  {
    SliceOfDrop(Due(s), k, s.next - s.outboundSequence, End(q) - s.outboundSequence);
  }

  lemma SliceOfDrop<T>(s: seq<T>, k: nat, i: nat, j: nat)
    requires k <= i <= j <= |s|
    ensures s[k..][i - k..j - k] == s[i..j]
  {
  }

  lemma SettlePast(s: D.System, s': D.System, ack: int)
    requires Steady(s) && s.inflight.Some? && s.outboundSequence + |s.inflight.value.msgs| < ack == s.next
    requires s' == s.(pending := [] + s.pending, inflight := None, outboundSequence := ack)
    requires Due(s) == s.inflight.value.msgs + Filtered(s.types, s.pending)
    ensures Steady(s') && Due(s') == Due(s)[|s.inflight.value.msgs|..]
  {
    D.QueuedIdle(s');
    assert [] + s.pending == s.pending;
    forall q | q in s'.requests ensures GoodRequest(s', q) { assert GoodRequest(s, q); }
    assert forall a | a in s'.answers :: GoodAnswer(s, a);
  }

  lemma StepSteady(s: D.System, step: D.Step)
    requires Steady(s) && D.Enabled(s, step)
    ensures Steady(D.Apply(s, step)) && Keeps(s, D.Apply(s, step))
    ensures step.SendOne? && Accepts(s.types, step.m) ==> step.m in Due(D.Apply(s, step))
  {
    match step
    case SendOne(m) => SendSteady(s, m);
    case Begin => BeginSteady(s);
    case Serve(r, taken) => ServeSteady(s, r, taken);
    case Lose => LoseSteady(s);
    case Settle(ack) => SettleSteady(s, ack);
    case Persist => assert D.Apply(s, step) == s;
  }

  // The disk.

  datatype World = World(
    s: D.System,
    state: int,                   // the sequence number in the state file
    backup: int,                  // and in its backup
    spool: seq<Message>,
    front: int,                   // the number that the first message of the spool has by now
    kept: set<Message>)           // everything that the spool has ever held

  datatype Step =
    | Live(step: D.Step)          // not the save of the spool
    | Expire(r: D.Request)        // a request that will not arrive any more
    | SaveState
    | SaveSpool
    | Reboot(recovered: bool)     // crash and restart, from the state file or from its backup

  function Loaded(w: World, recovered: bool): int { if recovered then w.backup else w.state }

  /** The client that comes up after a crash. */
  function Restored(w: World, sequence: int): D.System {
    w.s.(outboundSequence := sequence, pending := w.spool, inflight := None)
  }

  predicate Enabled(w: World, step: Step) {
    match step
    case Live(live) => D.Enabled(w.s, live) && !live.Persist?
    case Expire(r) => r in w.s.requests
    case SaveState => w.s.inflight.None?
    case SaveSpool => w.s.inflight.None? && |w.s.pending| <= MAX_QUEUED
    case Reboot(_) => true
  }

  function Apply(w: World, step: Step): World
    requires Enabled(w, step)
  {
    match step
    case Live(live) =>
      var past := if live.Settle? then Max(0, live.ack - w.s.outboundSequence - |w.s.inflight.value.msgs|) else 0;
      w.(s := D.Apply(w.s, live), front := w.front + past)
    case Expire(r) => w.(s := w.s.(requests := w.s.requests - {r}))
    case SaveState => w.(state := w.s.outboundSequence, backup := w.state)
    case SaveSpool =>
      w.(spool := w.s.pending, front := w.s.outboundSequence, kept := w.kept + (set m | m in w.s.pending))
    case Reboot(recovered) => w.(s := Restored(w, Loaded(w, recovered)), front := Loaded(w, recovered))
  }

  function SpoolDue(w: World): seq<Message> { Filtered(w.s.types, w.spool) }

  /** The spool is what was due once: some of it confirmed since, the rest still in front of what is due. */
  ghost predicate SpoolAligned(w: World) {
    var f, a := SpoolDue(w), w.s.outboundSequence - w.front;
    && 0 <= a
    && (forall i | 0 <= i < a && i < |f| :: f[i] in w.s.log)
    && (a <= |f| ==> f[a..] <= Due(w.s))
  }

  /** Saved once, a message the server takes is processed, or both due and in the spool. */
  ghost predicate KeptSafe(w: World) {
    forall m | m in w.kept && Accepts(w.s.types, m) :: m in w.s.log || (m in Due(w.s) && m in w.spool)
  }

  ghost predicate Inv(w: World) {
    && Steady(w.s) && SpoolAligned(w) && KeptSafe(w)
    && w.state <= w.s.next && w.backup <= w.s.next
  }

  /**
   A restart under this number is safe: what the server takes for seen of the restored
   queue, it has seen, and no request still to arrive changes that.
   */
  ghost predicate RestartSafe(w: World, sequence: int) {
    Passed(Restored(w, sequence)) && forall r | r in w.s.requests :: GoodRequest(Restored(w, sequence), r)
  }

  lemma RebootKeepsInv(w: World, recovered: bool)
    requires Inv(w) && RestartSafe(w, Loaded(w, recovered))
    ensures Inv(Apply(w, Reboot(recovered)))
  {
    var w' := Apply(w, Reboot(recovered));
    D.QueuedIdle(w'.s);
    assert SpoolDue(w')[0..] == SpoolDue(w');
    assert forall a | a in w'.s.answers :: GoodAnswer(w.s, a);
    forall m | m in w'.kept && Accepts(w'.s.types, m) ensures m in w'.s.log || (m in Due(w'.s) && m in w'.spool) {
      if m !in w.s.log { FilteredMember(w.s.types, w.spool, m); }
    }
  }

  lemma ExpireKeepsInv(w: World, r: D.Request)
    requires Inv(w) && r in w.s.requests
    ensures Inv(Apply(w, Expire(r)))
  {
    var w' := Apply(w, Expire(r));
    assert Due(w'.s) == Due(w.s) && Carry(w'.s) == Carry(w.s);
    RequestsStay(w.s, w'.s);
    PassedStays(w.s, w'.s);
    forall a | a in w'.s.answers ensures GoodAnswer(w'.s, a) { assert GoodAnswer(w.s, a); }
  }

  lemma SaveSpoolKeepsInv(w: World)
    requires Inv(w) && Enabled(w, SaveSpool)
    ensures Inv(Apply(w, SaveSpool))
  {
    var w' := Apply(w, SaveSpool);
    D.QueuedIdle(w.s);
    assert SpoolDue(w') == Due(w.s) && SpoolDue(w')[0..] == Due(w.s);
    FilteredAccepted(w.s.types, w.s.pending);
    forall m | m in w'.kept && Accepts(w'.s.types, m) ensures m in w'.s.log || (m in Due(w'.s) && m in w'.spool) {
      if m in w.s.pending { FilteredMember(w.s.types, w.s.pending, m); }
    }
  }

  lemma LiveKeepsInv(w: World, live: D.Step)
    requires Inv(w) && Enabled(w, Live(live))
    ensures Inv(Apply(w, Live(live)))
  {
    var w' := Apply(w, Live(live));
    StepSteady(w.s, live);
    LiveAligned(w, live);
    LogGrows(w.s, live);
  }

  lemma LogGrows(s: D.System, live: D.Step)
    requires D.Enabled(s, live)
    ensures s.next <= D.Apply(s, live).next && s.log <= D.Apply(s, live).log && D.Apply(s, live).types == s.types
  {
  }

  /** The spool stays aligned: only a response takes away from the front of what is due. */
  lemma LiveAligned(w: World, live: D.Step)
    requires Inv(w) && Enabled(w, Live(live))
    ensures SpoolAligned(Apply(w, Live(live)))
  {
    hide Filtered, Steady, Due;
    if live.Settle? {
      ConfirmedAligned(w, live.ack);
    } else {
      LogGrows(w.s, live);
      DueGrows(w.s, live);
      AlignedLonger(w, Apply(w, Live(live)));
    }
  }

  lemma ConfirmedAligned(w: World, ack: int)
    requires Inv(w) && Enabled(w, Live(D.Settle(ack)))
    ensures SpoolAligned(Apply(w, Live(D.Settle(ack))))
  {
    hide Filtered, Steady, Due, KeptSafe;
    SettleSteady(w.s, ack);
    var k := Min(ack - w.s.outboundSequence, |w.s.inflight.value.msgs|);
    FrontConfirmed(SpoolDue(w), Due(w.s), w.s.log, w.s.outboundSequence - w.front, k);
  }

  lemma AlignedLonger(w: World, w': World)
    requires SpoolAligned(w) && w' == w.(s := w'.s) && w'.s.types == w.s.types
    requires w'.s.outboundSequence == w.s.outboundSequence && w.s.log <= w'.s.log && Due(w.s) <= Due(w'.s)
    ensures SpoolAligned(w')
  {
    hide Filtered, Due;
  }

  lemma FrontConfirmed(f: seq<Message>, due: seq<Message>, log: seq<Message>, a: nat, k: nat)
    requires forall i | 0 <= i < a && i < |f| :: f[i] in log
    requires a <= |f| ==> f[a..] <= due
    requires k <= |due| && forall i | 0 <= i < k :: due[i] in log
    ensures forall i | 0 <= i < a + k && i < |f| :: f[i] in log
    ensures a + k <= |f| ==> f[a + k..] <= due[k..]
  {
    forall i | a <= i < a + k && i < |f| ensures f[i] in log {
      assert f[i] == f[a..][i - a] == due[i - a];
    }
    if a + k <= |f| { DropTwice(f, a, k); }
  }

  lemma DueGrows(s: D.System, live: D.Step)
    requires D.Enabled(s, live) && !live.Settle?
    ensures D.Apply(s, live).outboundSequence == s.outboundSequence
    ensures Due(s) <= Due(D.Apply(s, live))
  {
    var s' := D.Apply(s, live);
    match live
    case SendOne(m) =>
      assert D.Queued(s') == D.Queued(s) + [m];
      FilteredConcat(s.types, D.Queued(s), [m]);
    case Begin =>
      D.QueuedIdle(s);
      D.BatchAndRest(s.types, s.pending);
    case Serve(_, _) =>
    case Lose =>
      D.QueuedIdle(s');
      assert D.Queued(s') == D.Queued(s);
    case Persist =>
      assert s' == s;
  }

  lemma StepKeepsInv(w: World, step: Step)
    requires Inv(w) && Enabled(w, step)
    requires step.Reboot? ==> RestartSafe(w, Loaded(w, step.recovered))
    ensures Inv(Apply(w, step)) && w.kept <= Apply(w, step).kept
  {
    match step
    case Live(live) => LiveKeepsInv(w, live);
    case Expire(r) => ExpireKeepsInv(w, r);
    case SaveState =>
    case SaveSpool => SaveSpoolKeepsInv(w);
    case Reboot(recovered) => RebootKeepsInv(w, recovered);
  }

  /** Every step is possible, and every restart on the way is safe. */
  ghost predicate RunsSafely(w: World, steps: seq<Step>)
    decreases |steps|
  {
    steps == [] ||
    (&& Enabled(w, steps[0])
     && (steps[0].Reboot? ==> RestartSafe(w, Loaded(w, steps[0].recovered)))
     && RunsSafely(Apply(w, steps[0]), steps[1..]))
  }

  ghost function After(w: World, steps: seq<Step>): World
    requires RunsSafely(w, steps)
    decreases |steps|
  {
    if steps == [] then w else After(Apply(w, steps[0]), steps[1..])
  }

  /**
   At least once across restarts: over any run of senders, client, network, server, saves
   and crashes in which every restart is safe, whatever the spool has once held and the
   server takes, the server has processed, or it is both due and in the spool.
   */
  lemma {:induction false} AtLeastOnce(w: World, steps: seq<Step>)
    requires Inv(w) && RunsSafely(w, steps)
    ensures Inv(After(w, steps)) && w.kept <= After(w, steps).kept
    decreases |steps|
  {
    if steps != [] {
      StepKeepsInv(w, steps[0]);
      AtLeastOnce(Apply(w, steps[0]), steps[1..]);
    }
  }

  lemma InitialInv(types: seq<Kind>, base: int)
    ensures Inv(World(D.Initial(types, base), base, base, [], base, {}))
  {
    var w := World(D.Initial(types, base), base, base, [], base, {});
    InitialSteady(w.s);
    hide Steady;
    assert SpoolDue(w) == [] && SpoolDue(w)[0..] == [];
  }

  lemma InitialSteady(s: D.System)
    requires s == D.Initial(s.types, s.base)
    ensures Steady(s)
  {
    hide GoodRequest, GoodAnswer;
    D.QueuedIdle(s);
    assert Due(s) == [];
  }

  // When a restart is safe.

  /**
   If the restored number is not below the one that the front of the spool has by now, and
   no request still to arrive reaches past the server's number, then a restart is safe
   unless the server has gone on past the end of the restored queue.
   */
  lemma SafeByNumbers(w: World, sequence: int)
    requires Inv(w) && w.front <= sequence <= w.s.next
    requires forall r | r in w.s.requests :: End(r) <= w.s.next
    ensures RestartSafe(w, sequence) <==> Min(w.s.next - sequence, MAX_PER_EXCHANGE) <= |SpoolDue(w)|
  {
    var s := Restored(w, sequence);
    forall r | r in w.s.requests ensures GoodRequest(s, r) { assert GoodRequest(w.s, r); }
    PassedByNumbers(w, sequence);
  }

  /** What the server takes for seen of the spool, under the number that it has by now, it has seen. */
  lemma SpoolFrontProcessed(w: World, i: nat)
    requires Inv(w) && i < |SpoolDue(w)| && i < Min(w.s.next - w.front, MAX_PER_EXCHANGE)
    ensures SpoolDue(w)[i] in w.s.log
  {
    var f, a := SpoolDue(w), w.s.outboundSequence - w.front;
    if i >= a {
      assert f[i] == f[a..][i - a] == Due(w.s)[i - a];
      assert i - a < Window(w.s);
    }
  }

  /** Restored under the very number it has, the queue may also meet requests that still carry part of it. */
  lemma SafeUnderOwnNumber(w: World)
    requires Inv(w)
    requires forall r | r in w.s.requests ::
               End(r) <= w.s.next || End(r) <= w.front + |Filtered(w.s.types, Batch(w.spool))|
    ensures RestartSafe(w, w.front) <==> Min(w.s.next - w.front, MAX_PER_EXCHANGE) <= |SpoolDue(w)|
  {
    var s := Restored(w, w.front);
    D.BatchAndRest(w.s.types, w.spool);
    forall r | r in w.s.requests ensures GoodRequest(s, r) {
      assert GoodRequest(w.s, r);
      if w.s.next < End(r) { AlignedRestored(w, r); }
    }
    PassedByNumbers(w, w.front);
  }

  lemma PassedByNumbers(w: World, sequence: int)
    requires Inv(w) && w.front <= sequence <= w.s.next
    ensures Passed(Restored(w, sequence)) <==> Min(w.s.next - sequence, MAX_PER_EXCHANGE) <= |SpoolDue(w)|
  {
    hide Filtered;
    var s := Restored(w, sequence);
    D.QueuedIdle(s);
    if Window(s) <= |SpoolDue(w)| {
      forall i | 0 <= i < Window(s) ensures Due(s)[i] in s.log { SpoolFrontProcessed(w, i); }
    }
  }

  lemma AlignedRestored(w: World, r: D.Request)
    requires SpoolAligned(w) && Aligned(w.s, r) && w.s.next < End(r)
    requires End(r) <= w.front + |Filtered(w.s.types, Batch(w.spool))|
    requires |Filtered(w.s.types, Batch(w.spool))| <= |SpoolDue(w)|
    ensures Aligned(Restored(w, w.front), r)
  {
    hide Filtered;
    var s, f, a := Restored(w, w.front), SpoolDue(w), w.s.outboundSequence - w.front;
    D.QueuedIdle(s);
    assert Due(s) == f && Carry(s) == |Filtered(w.s.types, Batch(w.spool))|;
    hide Due, Carry, SpoolDue;
    var i, j := w.s.next - w.front, End(r) - w.front;
    SliceOfDrop(f, a, i, j);
    SliceOfLonger(f[a..], Due(w.s), i - a, j - a);
  }

  /**
   While the state is saved before the spool, as the loop does, and a response confirms no
   more than its batch, the number in the state file never falls below the front of the spool.
   */
  lemma OrderKept(w: World, step: Step)
    requires Inv(w) && Enabled(w, step) && w.front <= w.state
    requires step.SaveSpool? ==> w.state == w.s.outboundSequence
    requires step.Live? && step.step.Settle? ==> step.step.ack <= w.s.outboundSequence + |w.s.inflight.value.msgs|
    requires step.Reboot? ==> !step.recovered
    ensures Apply(w, step).front <= Apply(w, step).state
  {
  }

  /** Duplicates: what the server has confirmed since the spool was saved is due again after a restart. */
  lemma ConfirmedSentAgain(w: World, sequence: int)
    requires Inv(w) && w.front < w.s.outboundSequence && SpoolDue(w) != []
    ensures SpoolDue(w)[0] in w.s.log && SpoolDue(w)[0] in Due(Restored(w, sequence))
  {
    D.QueuedIdle(Restored(w, sequence));
  }

  // What an unsafe restart loses.

  /** A run after which a message that was due or sent on the way is neither processed nor due. */
  ghost predicate Loses(s: D.System, steps: seq<D.Step>) {
    D.Runs(s, steps) &&
    exists m ::
      && Accepts(s.types, m) && (m in Due(s) || D.SendOne(m) in steps)
      && m !in D.After(s, steps).log && m !in Due(D.After(s, steps))
  }

  lemma {:induction false} SteadyLosesNothing(s: D.System, steps: seq<D.Step>, m: Message)
    requires Steady(s) && D.Runs(s, steps) && Accepts(s.types, m)
    requires m in Due(s) || m in s.log || D.SendOne(m) in steps
    ensures m in D.After(s, steps).log || m in Due(D.After(s, steps))
    decreases |steps|
  {
    if steps != [] {
      StepSteady(s, steps[0]);
      LogGrows(s, steps[0]);
      assert D.SendOne(m) in steps ==> steps[0] == D.SendOne(m) || D.SendOne(m) in steps[1..];
      SteadyLosesNothing(D.Apply(s, steps[0]), steps[1..], m);
    }
  }

  lemma RunsCons(s: D.System, step: D.Step, rest: seq<D.Step>)
    requires D.Enabled(s, step)
    ensures D.Runs(s, [step] + rest) <==> D.Runs(D.Apply(s, step), rest)
    ensures D.Runs(s, [step] + rest) ==> D.After(s, [step] + rest) == D.After(D.Apply(s, step), rest)
  {
    assert ([step] + rest)[1..] == rest;
  }

  lemma {:induction false} RunsConcat(s: D.System, first: seq<D.Step>, second: seq<D.Step>)
    requires D.Runs(s, first)
    ensures D.Runs(s, first + second) <==> D.Runs(D.After(s, first), second)
    ensures D.Runs(s, first + second) ==> D.After(s, first + second) == D.After(D.After(s, first), second)
    decreases |first|
  {
    if first == [] {
      assert first + second == second;
    } else {
      assert first + second == [first[0]] + (first[1..] + second);
      RunsCons(s, first[0], first[1..] + second);
      RunsConcat(D.Apply(s, first[0]), first[1..], second);
    }
  }

  /** The same system, with the queue sorted out and more requests on the wire. */
  ghost predicate Sorted(s: D.System, t: D.System) {
    t == s.(pending := t.pending, requests := t.requests, attempt := t.attempt) && s.inflight.None? && Due(t) == Due(s)
  }

  /** Failed exchanges drop what the server does not take, until the next batch carries the message at place `p`. */
  lemma {:induction false} SortOut(s: D.System, p: nat) returns (steps: seq<D.Step>)
    requires s.inflight.None? && p < |Due(s)| && p < MAX_PER_EXCHANGE
    ensures D.Runs(s, steps) && Sorted(s, D.After(s, steps))
    ensures p < Carry(D.After(s, steps))
    decreases |s.pending|
  {
    steps := [];
    if Carry(s) <= p {
      var begun := D.Apply(s, D.Begin);
      var lost := D.Apply(begun, D.Lose);
      LostBatch(s, begun, lost);
      var rest := SortOut(lost, p);
      RunsCons(begun, D.Lose, rest);
      RunsCons(s, D.Begin, [D.Lose] + rest);
      steps := [D.Begin] + ([D.Lose] + rest);
    }
  }

  lemma SmallBatch(queue: seq<Message>)
    ensures |queue| <= MAX_PER_EXCHANGE ==> Batch(queue) == queue
  {
  }

  lemma LostBatch(s: D.System, begun: D.System, lost: D.System)
    requires s.inflight.None? && begun == D.Apply(s, D.Begin) && lost == D.Apply(begun, D.Lose)
    requires Carry(s) < |Due(s)| && Carry(s) < MAX_PER_EXCHANGE
    ensures Sorted(s, lost) && |lost.pending| < |s.pending|
  {
    hide Filtered;
    D.QueuedIdle(s);
    D.QueuedIdle(lost);
    D.BatchAndRest(s.types, s.pending);
    SmallBatch(s.pending);
  }

  /** An exchange that a server ahead of the client answers without taking anything: it confirms what it has not seen. */
  lemma ConfirmUnseen(s: D.System) returns (steps: seq<D.Step>)
    requires s.inflight.None? && s.outboundSequence <= s.next
    ensures D.Runs(s, steps)
    ensures
      var t := D.After(s, steps);
      && t.log == s.log && t.types == s.types
      && Carry(s) <= |Due(s)|
      && Due(t) == Due(s)[Min(s.next - s.outboundSequence, Carry(s))..]
  {
    var begun := D.Apply(s, D.Begin);
    var r := begun.inflight.value;
    var answered := D.Apply(begun, D.Serve(r, 0));
    var settled := D.Apply(answered, D.Settle(s.next));
    RunsCons(answered, D.Settle(s.next), []);
    RunsCons(begun, D.Serve(r, 0), [D.Settle(s.next)] + []);
    RunsCons(s, D.Begin, [D.Serve(r, 0)] + ([D.Settle(s.next)] + []));
    steps := [D.Begin] + ([D.Serve(r, 0)] + ([D.Settle(s.next)] + []));
    ConfirmedDue(s, r, settled);
  }

  lemma ConfirmedDue(s: D.System, r: D.Request, settled: D.System)
    requires s.inflight.None? && s.outboundSequence <= s.next
    requires r.msgs == Filtered(s.types, Batch(s.pending)) && settled.types == s.types && settled.inflight.None?
    requires settled.pending == Requeued(r.msgs, s.outboundSequence, s.next) + AfterBatch(s.pending)
    ensures Carry(s) <= |Due(s)| && Due(settled) == Due(s)[Min(s.next - s.outboundSequence, Carry(s))..]
  {
    D.QueuedIdle(s);
    D.QueuedIdle(settled);
    ConfirmedQueue(s.types, Batch(s.pending), AfterBatch(s.pending), s.outboundSequence, s.next);
    assert s.pending == Batch(s.pending) + AfterBatch(s.pending);
  }

  lemma ConfirmedQueue(types: seq<Kind>, batch: seq<Message>, rest: seq<Message>, start: int, ack: int)
    requires start <= ack
    ensures
      var front, due := Filtered(types, batch), Filtered(types, batch + rest);
      && |front| <= |due|
      && Filtered(types, Requeued(front, start, ack) + rest) == due[Min(ack - start, |front|)..]
  {
    hide Filtered;
    var front := Filtered(types, batch);
    var k := Min(ack - start, |front|);
    assert Requeued(front, start, ack) == front[k..];
    FilteredAccepted(types, batch);
    FilterNothing(types, front);
    D.FilteredPart(types, front, k);
    FilteredConcat(types, front[k..], rest);
    FilteredConcat(types, batch, rest);
  }

  /** An unsafe window: the message at place `p` leaves the queue unseen, and all before it. */
  lemma DropFront(s: D.System, p: nat) returns (steps: seq<D.Step>, k: nat)
    requires s.inflight.None? && p < |Due(s)| && p < Window(s)
    ensures D.Runs(s, steps) && p < k <= |Due(s)|
    ensures D.After(s, steps).log == s.log && Due(D.After(s, steps)) == Due(s)[k..]
  {
    var first := SortOut(s, p);
    var t := D.After(s, first);
    var second := ConfirmUnseen(t);
    RunsConcat(s, first, second);
    steps := first + second;
    k := Min(t.next - t.outboundSequence, Carry(t));
  }

  /** Messages that the server takes, to fill the queue with. */
  lemma {:induction false} Fill(s: D.System, m: Message, n: nat) returns (steps: seq<D.Step>)
    requires s.inflight.None? && Accepts(s.types, m)
    ensures D.Runs(s, steps) && |steps| == n && forall step | step in steps :: step == D.SendOne(m)
    ensures
      var t := D.After(s, steps);
      && t == s.(pending := t.pending, sent := t.sent)
      && |Due(t)| == |Due(s)| + n
    decreases n
  {
    steps := [];
    if n > 0 {
      var next := D.Apply(s, D.SendOne(m));
      assert D.Queued(next) == D.Queued(s) + [m];
      FilteredConcat(s.types, D.Queued(s), [m]);
      assert Filtered(s.types, [m]) == [m];
      var rest := Fill(next, m, n - 1);
      RunsCons(s, D.SendOne(m), rest);
      steps := [D.SendOne(m)] + rest;
    }
  }

  function MaxTag(msgs: seq<Message>): nat {
    if msgs == [] then 0 else Max(msgs[0].tag, MaxTag(msgs[1..]))
  }

  lemma {:induction false} MaxTagBounds(msgs: seq<Message>)
    ensures forall m | m in msgs :: m.tag <= MaxTag(msgs)
  {
    if msgs != [] {
      MaxTagBounds(msgs[1..]);
      assert forall m | m in msgs :: m == msgs[0] || m in msgs[1..];
    }
  }

  /** The server is ahead of the whole queue: a message sent now is taken for seen. */
  lemma LoseNewMessage(s: D.System) returns (steps: seq<D.Step>)
    requires s.inflight.None? && Window(s) > |Due(s)|
    ensures Loses(s, steps)
  {
    var m := Message(OperationResult, MaxTag(s.log) + 1);
    MaxTagBounds(s.log);
    var n := Window(s) - |Due(s)|;
    var sends := Fill(s, m, n);
    var filled := D.After(s, sends);
    var rest, k := DropFront(filled, |Due(filled)| - 1);
    RunsConcat(s, sends, rest);
    steps := sends + rest;
    assert sends[0] in sends && D.SendOne(m) in steps;
    assert Due(D.After(s, steps)) == [];
  }

  /** The server takes a message for seen that it has not processed. */
  lemma LoseUnprocessed(s: D.System, p: nat) returns (steps: seq<D.Step>)
    requires s.inflight.None? && p < |Due(s)| && p < Window(s) && Due(s)[p] !in s.log && D.NoRepeats(Due(s))
    ensures Loses(s, steps)
  {
    var k;
    steps, k := DropFront(s, p);
    var m := Due(s)[p];
    FilteredAccepted(s.types, D.Queued(s));
    forall i | 0 <= i < |Due(s)[k..]| ensures Due(s)[k..][i] != m { assert Due(s)[k..][i] == Due(s)[k + i]; }
  }

  /**
   A restart is safe exactly if no run after it loses a message: neither one that the spool
   holds nor one sent later. The dead process's requests have arrived by then, or expired,
   or carry no other than the restored messages.
   */
  lemma RestartIsSafeIff(w: World, recovered: bool)
    requires Inv(w) && D.NoRepeats(SpoolDue(w))
    requires forall r | r in w.s.requests :: GoodRequest(Restored(w, Loaded(w, recovered)), r)
    ensures RestartSafe(w, Loaded(w, recovered)) <==> !exists steps :: Loses(Restored(w, Loaded(w, recovered)), steps)
  {
    var s := Restored(w, Loaded(w, recovered));
    D.QueuedIdle(s);
    if RestartSafe(w, Loaded(w, recovered)) {
      RebootKeepsInv(w, recovered);
      forall steps ensures !Loses(s, steps) { SafeLosesNothing(s, steps); }
    } else {
      var steps := LoseSomething(s);
    }
  }

  lemma LoseSomething(s: D.System) returns (steps: seq<D.Step>)
    requires s.inflight.None? && s.outboundSequence <= s.next && !Passed(s) && D.NoRepeats(Due(s))
    ensures Loses(s, steps)
  {
    if |Due(s)| < Window(s) {
      steps := LoseNewMessage(s);
    } else {
      var p :| 0 <= p < Window(s) && Due(s)[p] !in s.log;
      steps := LoseUnprocessed(s, p);
    }
  }

  /** Nor is it safe if a request of the dead process can still bring the server to take unseen messages for seen. */
  lemma LateRequestLoses(w: World, recovered: bool, r: D.Request)
    requires Inv(w) && D.NoRepeats(SpoolDue(w)) && r in w.s.requests
    requires
      var s := Restored(w, Loaded(w, recovered));
      !Passed(D.Apply(s, D.Serve(r, |D.Fresh(s, r)|)))
    ensures exists steps :: Loses(Restored(w, Loaded(w, recovered)), steps)
  {
    var s := Restored(w, Loaded(w, recovered));
    var serve := D.Serve(r, |D.Fresh(s, r)|);
    var t := D.Apply(s, serve);
    assert D.Queued(t) == D.Queued(s) && Due(t) == Due(s);
    D.QueuedIdle(s);
    var rest := LoseSomething(t);
    RunsCons(s, serve, rest);
    LosesAfter(s, serve, t, rest);
  }

  lemma LosesAfter(s: D.System, step: D.Step, t: D.System, rest: seq<D.Step>)
    requires D.Enabled(s, step) && t == D.Apply(s, step) && Loses(t, rest) && Due(t) == Due(s) && t.types == s.types
    ensures Loses(s, [step] + rest)
  {
    RunsCons(s, step, rest);
  }

  lemma SafeLosesNothing(s: D.System, steps: seq<D.Step>)
    requires Steady(s)
    ensures !Loses(s, steps)
  {
    if D.Runs(s, steps) {
      forall m | Accepts(s.types, m) && (m in Due(s) || D.SendOne(m) in steps)
        ensures m in D.After(s, steps).log || m in Due(D.After(s, steps))
      {
        SteadyLosesNothing(s, steps, m);
      }
    }
  }

  // Two restarts that lose operation results.

  const FIRST := Message(OperationResult, 1)
  const SECOND := Message(OperationResult, 2)
  const REQUEST := D.Request(0, 0, [FIRST])

  /** The client and the server after the first message has been sent and taken. */
  const TAKEN := D.System([], [FIRST], [], Some(REQUEST), 0, 1, {REQUEST}, {(0, 1)}, [FIRST], 1, 0)

  lemma TakenReached()
    ensures
      var steps := [D.SendOne(FIRST)] + ([D.Begin] + ([D.Serve(REQUEST, 1)] + []));
      D.Runs(D.Initial([], 0), steps) && D.After(D.Initial([], 0), steps) == TAKEN
  {
    var initial := D.Initial([], 0);
    var sent := initial.(sent := [FIRST], pending := [FIRST]);
    var begun := sent.(pending := [], inflight := Some(REQUEST), attempt := 1, requests := {REQUEST});
    FilterNothing([], [FIRST]);
    assert Batch([FIRST]) == [FIRST] && AfterBatch([FIRST]) == [];
    assert D.Apply(initial, D.SendOne(FIRST)) == sent;
    assert D.Apply(sent, D.Begin) == begun;
    assert D.Fresh(begun, REQUEST) == [FIRST] && [FIRST][..1] == [FIRST];
    assert D.Apply(begun, D.Serve(REQUEST, 1)) == TAKEN;
    RunsCons(begun, D.Serve(REQUEST, 1), []);
    RunsCons(sent, D.Begin, [D.Serve(REQUEST, 1)] + []);
    RunsCons(initial, D.SendOne(FIRST), [D.Begin] + ([D.Serve(REQUEST, 1)] + []));
  }

  /**
   The process dies after the server has taken a message that the spool did not hold yet,
   before the state is saved: the server is ahead of the restored queue, and a message sent
   after the restart is lost.
   */
  lemma ServerAheadLoses()
    ensures
      var w := World(TAKEN, 0, 0, [], 0, {});
      !RestartSafe(w, Loaded(w, false)) && exists steps :: Loses(Restored(w, Loaded(w, false)), steps)
  {
    var s := Restored(World(TAKEN, 0, 0, [], 0, {}), 0);
    assert D.Queued(s) == [] && Due(s) == [];
    var steps := LoseNewMessage(s);
  }

  /**
   The response arrives, the save of the state fails, the spool is saved with the next
   message, and the process restarts on the old number: the saved message is lost.
   */
  lemma StaleStateLoses()
    ensures
      var w := World(TAKEN, 0, 0, [], 0, {});
      var live := [Live(D.SendOne(SECOND)), Live(D.Settle(1)), SaveSpool];
      && RunsSafely(w, live)
      && SECOND in After(w, live).kept && SECOND !in After(w, live).s.log
      && !RestartSafe(After(w, live), Loaded(After(w, live), false))
      && exists steps :: Loses(Restored(After(w, live), Loaded(After(w, live), false)), steps)
  {
    hide D.Runs, D.After;
    SavedReached();
    var s := Restored(SAVED, 0);
    D.QueuedIdle(s);
    FilterNothing([], [SECOND]);
    assert Due(s) == [SECOND] && Window(s) == 1 && Due(s)[0] !in s.log;
    var steps := LoseUnprocessed(s, 0);
  }

  /** The second message is saved under the new number, which the state file does not hold. */
  const SAVED := World(TAKEN.(sent := [FIRST, SECOND], pending := [SECOND], inflight := None, outboundSequence := 1),
                       0, 0, [SECOND], 1, {SECOND})

  lemma SavedReached()
    ensures
      var w := World(TAKEN, 0, 0, [], 0, {});
      var live := [Live(D.SendOne(SECOND)), Live(D.Settle(1)), SaveSpool];
      RunsSafely(w, live) && After(w, live) == SAVED
  {
    var w := World(TAKEN, 0, 0, [], 0, {});
    var live := [Live(D.SendOne(SECOND)), Live(D.Settle(1)), SaveSpool];
    var sent := w.(s := TAKEN.(sent := [FIRST, SECOND], pending := [SECOND]));
    var settled := sent.(s := sent.s.(inflight := None, outboundSequence := 1));
    assert Apply(w, live[0]) == sent;
    assert Apply(sent, live[1]) == settled;
    assert Apply(settled, live[2]) == SAVED;
    assert live[1..][1..][1..] == [] && live[1..][0] == live[1] && live[1..][1..][0] == live[2];
    assert RunsSafely(SAVED, []) && RunsSafely(settled, live[1..][1..]) && RunsSafely(sent, live[1..]);
    assert After(SAVED, []) == SAVED && After(settled, live[1..][1..]) == SAVED && After(sent, live[1..]) == SAVED;
  }
}
