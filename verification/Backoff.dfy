/** How long the exchange loop waits after the server reports overload. Times are in nanoseconds. */
module Backoff {
  import opened Common

  const SECOND: nat := 1_000_000_000
  const BACKOFF_INITIAL: nat := 300 * SECOND
  const BACKOFF_MAX: nat := 7200 * SECOND

  /** How an exchange ended, as far as the backoff is concerned. */
  datatype Outcome = Succeeded | HttpError(status: int) | OtherError

  predicate Overloaded(status: int) { status == 429 || 500 <= status <= 599 }

  /** The overload reports since the last success. */
  function Streak(history: seq<Outcome>): nat {
    if history == [] then 0
    else
      var last := history[|history| - 1];
      if last.Succeeded? then 0
      else Streak(history[..|history| - 1]) + (if last.HttpError? && Overloaded(last.status) then 1 else 0)
  }

  function PowerOfTwo(n: nat): (p: nat)
    ensures p >= 1
  {
    if n == 0 then 1 else 2 * PowerOfTwo(n - 1)
  }

  /** The delay that a streak calls for: five minutes, doubled with each further report, and never over two hours. */
  function Delay(streak: nat): nat {
    if streak == 0 then 0 else Min(BACKOFF_INITIAL * PowerOfTwo(streak - 1), BACKOFF_MAX)
  }

  /** Doubling the capped delay and capping again is the cap of the doubled delay. */
  lemma DelayStep(streak: nat)
    ensures Delay(streak + 1) == if streak == 0 then BACKOFF_INITIAL else Min(2 * Delay(streak), BACKOFF_MAX)
    ensures streak > 0 ==> Delay(streak) >= BACKOFF_INITIAL
  {
    if streak > 0 {
      assert PowerOfTwo(streak) == 2 * PowerOfTwo(streak - 1);
      assert PowerOfTwo(streak - 1) >= 1;
    }
  }

  /** The delays one by one, in seconds. */
  lemma DelayTable(streak: nat)
    ensures Delay(0) == 0 && Delay(1) == 300 * SECOND && Delay(2) == 600 * SECOND && Delay(3) == 1200 * SECOND
    ensures Delay(4) == 2400 * SECOND && Delay(5) == 4800 * SECOND
    ensures streak >= 6 ==> Delay(streak) == 7200 * SECOND
    ensures SECOND == 1_000_000_000
  {
    DelayStep(0);
    DelayStep(1);
    DelayStep(2);
    DelayStep(3);
    DelayStep(4);
    DelayStep(5);
    if streak >= 6 { DelayStays(streak); }
  }

  lemma {:induction false} DelayStays(streak: nat)
    requires streak >= 5
    ensures streak == 5 ==> Delay(streak) == 4800 * SECOND
    ensures streak > 5 ==> Delay(streak) == 7200 * SECOND
  {
    hide Delay;
    if streak == 5 {
      DelayStep(0);
      DelayStep(1);
      DelayStep(2);
      DelayStep(3);
      DelayStep(4);
    } else {
      DelayStays(streak - 1);
      DelayStep(streak - 1);
    }
  }

  function AfterFailure(delay: nat, status: int): nat {
    if !Overloaded(status) then delay else if delay == 0 then BACKOFF_INITIAL else Min(2 * delay, BACKOFF_MAX)
  }

  class Backoff {
    var delay: nat
    ghost var history: seq<Outcome>

    ghost predicate Valid()
      reads this
    {
      delay == Delay(Streak(history))
    }

    constructor ()
      ensures Valid() && history == []
    {
      delay := 0;
      history := [];
    }

    /** What `Run` reports after an exchange. */
    method Record(outcome: Outcome)
      requires Valid()
      modifies this
      ensures Valid() && history == old(history) + [outcome]
      ensures outcome.Succeeded? ==> delay == 0
      ensures outcome.OtherError? ==> delay == old(delay)
      ensures outcome.HttpError? ==> delay == AfterFailure(old(delay), outcome.status)
    {
      DelayStep(Streak(history));
      history := history + [outcome];
      assert history[..|history| - 1] == old(history);
      match outcome {
        case Succeeded => delay := 0;
        case HttpError(status) => Failure(status);
        case OtherError =>
      }
    }

    method Failure(status: int)
      modifies this`delay
      ensures delay == AfterFailure(old(delay), status)
      ensures status != 429 && !(500 <= status <= 599) ==> delay == old(delay)
      ensures status == 429 || 500 <= status <= 599 ==>
        delay == if old(delay) == 0 then 300 * SECOND else Min(2 * old(delay), 7200 * SECOND)
    {
      if status != 429 && (status < 500 || status > 599) { return; }
      if delay == 0 {
        delay := BACKOFF_INITIAL;
      } else {
        delay := 2 * delay;
      }
      if delay > BACKOFF_MAX { delay := BACKOFF_MAX; }
    }

    /** The delay with up to a fifth of it added at random. */
    method Current() returns (wait: nat)
      requires Valid()
      ensures Delay(Streak(history)) <= wait
      ensures wait == 0 || 5 * wait < 6 * Delay(Streak(history))
    {
      if delay == 0 { return 0; }
      DelayStep(Streak(history));
      var jitter: nat :| jitter < delay / 5;
      wait := delay + jitter;
    }

    /**
     What the timer of the next wait is set to: no less than the backoff's delay, however
     urgent the queue. A wake token still ends the wait early.
     */
    method NextInterval(urgent: bool, exchangeInterval: nat, urgentInterval: nat) returns (interval: nat)
      requires Valid()
      ensures
        var base := if urgent then urgentInterval else exchangeInterval;
        && Max(base, Delay(Streak(history))) <= interval
        && (interval == base || 5 * interval < 6 * Delay(Streak(history)))
    {
      interval := exchangeInterval;
      if urgent { interval := urgentInterval; }
      var wait := Current();
      if wait > interval { interval := wait; }
    }
  }
}
