/** The outbound queue: its messages, and the bound that a long outage may not exceed. */
module Queue {
  import opened Common

  /** A message's "type": the three names the client treats specially, and all others. */
  datatype Kind = Register | Resynchronize | OperationResult | Named(name: string)

  /** A protocol message: its type, and a tag that stands for the rest of its body. */
  datatype Message = Message(kind: Kind, tag: nat)

  const MAX_QUEUED: nat := 1000

  /** The server blocks on operation results. */
  predicate IsUrgent(m: Message) { m.kind.OperationResult? }

  function Urgent(msgs: seq<Message>): seq<Message> {
    if msgs == [] then []
    else if IsUrgent(msgs[0]) then [msgs[0]] + Urgent(msgs[1..])
    else Urgent(msgs[1..])
  }

  function Telemetry(msgs: seq<Message>): seq<Message> {
    if msgs == [] then []
    else if IsUrgent(msgs[0]) then Telemetry(msgs[1..])
    else [msgs[0]] + Telemetry(msgs[1..])
  }

  /** `msgs` without its first `excess` non-urgent messages. */
  function Trim(msgs: seq<Message>, excess: nat): seq<Message> {
    if msgs == [] || excess == 0 then msgs
    else if IsUrgent(msgs[0]) then [msgs[0]] + Trim(msgs[1..], excess)
    else Trim(msgs[1..], excess - 1)
  }

  function Bounded(msgs: seq<Message>): seq<Message> {
    if |msgs| <= MAX_QUEUED then msgs else Trim(msgs, |msgs| - MAX_QUEUED)
  }

  /** `part` is the operation results of `whole`, each as often as it occurs there, in order. */
  ghost predicate ResultsOf(part: seq<Message>, whole: seq<Message>) {
    && InOrder(part, whole)
    && forall m :: multiset(part)[m] == if m.kind == OperationResult then multiset(whole)[m] else 0
  }

  /** Up to `cut` only operation results are left, all of them; from there on everything is. */
  ghost predicate CutAt(kept: seq<Message>, msgs: seq<Message>, cut: nat) {
    && cut <= |msgs| <= cut + |kept|
    && var front := |kept| - (|msgs| - cut);
       ResultsOf(kept[..front], msgs[..cut]) && kept[front..] == msgs[cut..]
  }

  /**
   The bound: a short queue stays as it is; of a long one the oldest messages other than
   operation results go, until a thousand are left or only operation results are.
   */
  ghost predicate Bounds(kept: seq<Message>, msgs: seq<Message>) {
    && (|msgs| <= 1000 ==> kept == msgs)
    && (|msgs| > 1000 ==> |kept| >= 1000)
    && (|kept| > 1000 ==> forall m | m in kept :: m.kind == OperationResult)
    && exists cut :: CutAt(kept, msgs, cut)
  }

  /** `enforceQueueBound`. */
  method EnforceQueueBound(msgs: seq<Message>) returns (kept: seq<Message>, dropped: nat)
    ensures Bounds(kept, msgs)
    ensures kept == Bounded(msgs)
    ensures dropped == |msgs| - |kept|
  {
    hide Bounds;
    if |msgs| <= MAX_QUEUED {
      BoundedBounds(msgs);
      return msgs, 0;
    }
    var excess := |msgs| - MAX_QUEUED;
    kept := [];
    dropped := 0;
    ghost var spec := Trim(msgs, excess);
    assert msgs[0..] == msgs && [] + spec == spec;
    for i := 0 to |msgs|
      invariant dropped <= excess && |kept| + dropped == i
      invariant spec == kept + Trim(msgs[i..], excess - dropped)
    {
      TrimLoop(msgs, i, excess - dropped, kept, spec);
      if dropped < excess && !IsUrgent(msgs[i]) {
        dropped := dropped + 1;
      } else {
        kept := kept + [msgs[i]];
      }
    }
    assert msgs[|msgs|..] == [] && kept + [] == kept;
    BoundedBounds(msgs);
  }

  /** The rest of the queue, one message shorter. */
  lemma TrimLoop(msgs: seq<Message>, i: nat, excess: nat, kept: seq<Message>, spec: seq<Message>)
    requires i < |msgs| && spec == kept + Trim(msgs[i..], excess)
    ensures
      if excess > 0 && !IsUrgent(msgs[i]) then spec == kept + Trim(msgs[i + 1..], excess - 1)
      else spec == kept + [msgs[i]] + Trim(msgs[i + 1..], excess)
  {
    TrimStep(msgs, i, excess);
    Reassociate(kept, [msgs[i]], Trim(msgs[i + 1..], excess));
  }

  lemma TrimStep(msgs: seq<Message>, i: nat, excess: nat)
    requires i < |msgs|
    ensures Trim(msgs[i..], excess)
         == if excess > 0 && !IsUrgent(msgs[i]) then Trim(msgs[i + 1..], excess - 1)
            else [msgs[i]] + Trim(msgs[i + 1..], excess)
  {
    assert msgs[i..][1..] == msgs[i + 1..];
    if excess == 0 { assert msgs[i..] == [msgs[i]] + msgs[i + 1..]; }
  }

  lemma {:induction false} KindsLength(msgs: seq<Message>)
    ensures |Urgent(msgs)| + |Telemetry(msgs)| == |msgs|
  {
    if msgs != [] { KindsLength(msgs[1..]); }
  }

  lemma KindsCons(m: Message, rest: seq<Message>)
    ensures Urgent([m] + rest) == (if IsUrgent(m) then [m] else []) + Urgent(rest)
    ensures Telemetry([m] + rest) == (if IsUrgent(m) then [] else [m]) + Telemetry(rest)
  {
    assert ([m] + rest)[1..] == rest;
  }

  /** Trimming keeps every operation result and removes the oldest of the rest. */
  lemma {:induction false} TrimKinds(msgs: seq<Message>, excess: nat)
    ensures Urgent(Trim(msgs, excess)) == Urgent(msgs)
    ensures Telemetry(Trim(msgs, excess)) == Telemetry(msgs)[Min(excess, |Telemetry(msgs)|)..]
  {
    if msgs != [] && excess > 0 {
      if IsUrgent(msgs[0]) {
        TrimKinds(msgs[1..], excess);
        KindsCons(msgs[0], Trim(msgs[1..], excess));
      } else {
        TrimKinds(msgs[1..], excess - 1);
      }
    }
  }

  /** What is left is the operation results of a front part of the queue, and all of the rest, in order. */
  lemma {:induction false} TrimShape(msgs: seq<Message>, excess: nat) returns (cut: nat)
    ensures cut <= |msgs| && Trim(msgs, excess) == Urgent(msgs[..cut]) + msgs[cut..]
    ensures |Telemetry(msgs[..cut])| == Min(excess, |Telemetry(msgs)|)
  {
    cut := 0;
    if msgs != [] && excess > 0 {
      var rest := TrimShape(msgs[1..], if IsUrgent(msgs[0]) then excess else excess - 1);
      cut := rest + 1;
      assert msgs[..cut] == [msgs[0]] + msgs[1..][..rest] && msgs[cut..] == msgs[1..][rest..];
      KindsCons(msgs[0], msgs[1..][..rest]);
    }
  }

  /** How many messages the bound drops: the excess, or all telemetry when there is less of it. */
  function Dropped(msgs: seq<Message>): nat {
    if |msgs| <= MAX_QUEUED then 0 else Min(|msgs| - MAX_QUEUED, |Telemetry(msgs)|)
  }

  /** The bound keeps every operation result, drops the oldest telemetry only, and never drops more than needed. */
  lemma QueueBound(msgs: seq<Message>)
    ensures Dropped(msgs) <= |Telemetry(msgs)|
    ensures Urgent(Bounded(msgs)) == Urgent(msgs)
    ensures Telemetry(Bounded(msgs)) == Telemetry(msgs)[Dropped(msgs)..]
    ensures |Bounded(msgs)| == |msgs| - Dropped(msgs)
    ensures |Bounded(msgs)| <= Max(MAX_QUEUED, |Urgent(msgs)|)
  {
    BoundedKinds(msgs);
    KindsLength(msgs);
    KindsLength(Bounded(msgs));
  }

  lemma BoundedKinds(msgs: seq<Message>)
    ensures Dropped(msgs) <= |Telemetry(msgs)|
    ensures Urgent(Bounded(msgs)) == Urgent(msgs)
    ensures Telemetry(Bounded(msgs)) == Telemetry(msgs)[Dropped(msgs)..]
  {
    if |msgs| > MAX_QUEUED {
      TrimKinds(msgs, |msgs| - MAX_QUEUED);
    } else {
      assert Telemetry(msgs)[0..] == Telemetry(msgs);
    }
  }

  lemma {:induction false} UrgentResults(msgs: seq<Message>)
    ensures ResultsOf(Urgent(msgs), msgs)
  {
    if msgs == [] {
      InOrderNone(msgs);
    } else {
      var m, rest := msgs[0], msgs[1..];
      UrgentResults(rest);
      assert msgs == [m] + rest;
      if IsUrgent(m) { InOrderTake(m, Urgent(rest), rest); } else { InOrderSkip(Urgent(rest), m, rest); }
    }
  }

  lemma {:induction false} NoTelemetry(msgs: seq<Message>)
    requires Telemetry(msgs) == []
    ensures forall m | m in msgs :: m.kind == OperationResult
  {
    if msgs != [] { NoTelemetry(msgs[1..]); }
  }

  /** The bounded queue in plain terms. */
  lemma BoundedBounds(msgs: seq<Message>)
    ensures Bounds(Bounded(msgs), msgs)
  {
    var kept := Bounded(msgs);
    QueueBound(msgs);
    KindsLength(kept);
    if |kept| > MAX_QUEUED { NoTelemetry(kept); }
    var cut := BoundedCut(msgs);
  }

  lemma BoundedCut(msgs: seq<Message>) returns (cut: nat)
    ensures CutAt(Bounded(msgs), msgs, cut)
  {
    cut := 0;
    if |msgs| > MAX_QUEUED { cut := TrimShape(msgs, |msgs| - MAX_QUEUED); }
    var front := Urgent(msgs[..cut]);
    UrgentResults(msgs[..cut]);
    assert Bounded(msgs) == front + msgs[cut..];
    assert (front + msgs[cut..])[..|front|] == front && (front + msgs[cut..])[|front|..] == msgs[cut..];
  }

  /** Bounding twice changes nothing: a queue still over the bound holds operation results only. */
  lemma BoundedIdempotent(msgs: seq<Message>)
    ensures Bounded(Bounded(msgs)) == Bounded(msgs)
  {
    QueueBound(msgs);
    var kept := Bounded(msgs);
    if |kept| > MAX_QUEUED { AllUrgentUntouched(kept, |kept| - MAX_QUEUED); }
  }

  lemma {:induction false} AllUrgentUntouched(msgs: seq<Message>, excess: nat)
    requires Telemetry(msgs) == []
    ensures Trim(msgs, excess) == msgs
  {
    if msgs != [] { AllUrgentUntouched(msgs[1..], excess); }
  }

  /** The bound keeps every operation result, and adds nothing. */
  lemma BoundedMembers(msgs: seq<Message>, m: Message)
    ensures m in Bounded(msgs) ==> m in msgs
    ensures m in msgs && IsUrgent(m) ==> m in Bounded(msgs)
  {
    if |msgs| > MAX_QUEUED { TrimMembers(msgs, |msgs| - MAX_QUEUED, m); }
  }

  lemma {:induction false} TrimMembers(msgs: seq<Message>, excess: nat, m: Message)
    ensures m in Trim(msgs, excess) ==> m in msgs
    ensures m in msgs && IsUrgent(m) ==> m in Trim(msgs, excess)
  {
    if msgs != [] && excess > 0 {
      TrimMembers(msgs[1..], if IsUrgent(msgs[0]) then excess else excess - 1, m);
    }
  }

  /** Once bounded, what is behind the front of a queue needs no bounding. */
  lemma BoundedSuffix(msgs: seq<Message>, n: nat)
    requires n <= |Bounded(msgs)|
    ensures Bounded(Bounded(msgs)[n..]) == Bounded(msgs)[n..]
  {
    var kept := Bounded(msgs);
    if |kept[n..]| > MAX_QUEUED {
      QueueBound(msgs);
      KindsLength(kept);
      TelemetrySuffix(kept, n);
      AllUrgentUntouched(kept[n..], |kept[n..]| - MAX_QUEUED);
    }
  }

  lemma {:induction false} TelemetrySuffix(msgs: seq<Message>, n: nat)
    requires Telemetry(msgs) == [] && n <= |msgs|
    ensures Telemetry(msgs[n..]) == []
  {
    if n > 0 {
      assert msgs[n..] == msgs[1..][n - 1..];
      TelemetrySuffix(msgs[1..], n - 1);
    }
  }
}
