/** Traffic per network interface, from byte counters that may wrap at 2^32. */
module NetworkActivity {
  import opened Common
  import opened Accumulator

  const COUNTER_WRAP: int := 0x1_0000_0000
  const COUNTER_WRAP_THRESHOLD: int := COUNTER_WRAP - 0x100_0000

  function CounterDelta(now: int, prev: int): int {
    if now - prev >= 0 then now - prev
    else if prev >= COUNTER_WRAP_THRESHOLD then now - prev + COUNTER_WRAP
    else 0
  }

  /**
   With 32-bit samples and less than 2^32 bytes between them, the computed difference is
   the traffic exactly when the counter did not wrap, or was within 2^24 of wrapping.
   */
  lemma CounterDeltaExact(before: nat, after: nat)
    requires before <= after < before + 0x1_0000_0000
    ensures
      var prev, now := before % 0x1_0000_0000, after % 0x1_0000_0000;
      && 0 <= CounterDelta(now, prev) < 0x1_0000_0000
      && (CounterDelta(now, prev) == after - before <==> prev <= now || prev >= 0x1_0000_0000 - 0x100_0000)
  {
    var a, b := before / COUNTER_WRAP, after / COUNTER_WRAP;
    assert before == a * COUNTER_WRAP + before % COUNTER_WRAP;
    assert after == b * COUNTER_WRAP + after % COUNTER_WRAP;
    assert b == a || b == a + 1;
  }

  type Iface = string

  /** What reading /proc/net/dev gives at some time. */
  datatype Reading = Unreadable | Counters(timestamp: int, rx: map<Iface, int>, tx: map<Iface, int>)
  {
    predicate Has(iface: Iface) { Counters? && iface in rx && iface in tx }
  }

  /** The points that a sample yields for an interface: one, or none if it is new or idle. */
  function Points(prev: Reading, now: Reading, iface: Iface): seq<Point> {
    if prev.Has(iface) && now.Counters? && iface in now.rx then
      var rx := CounterDelta(now.rx[iface], prev.rx[iface]);
      var tx := CounterDelta(if iface in now.tx then now.tx[iface] else 0, prev.tx[iface]);
      if rx == 0 && tx == 0 then [] else [Point(now.timestamp, rx, tx)]
    else []
  }

  /**
   The point in plain terms: only for an interface that the last reading had, unless it was
   idle, and at the new reading's time.
   */
  lemma PointsTell(prev: Reading, now: Reading, iface: Iface)
    ensures prev.Unreadable? || now.Unreadable? ==> Points(prev, now, iface) == []
    ensures prev.Counters? && (iface !in prev.rx || iface !in prev.tx) ==> Points(prev, now, iface) == []
    ensures now.Counters? && iface !in now.rx ==> Points(prev, now, iface) == []
    ensures prev.Counters? && iface in prev.rx && iface in prev.tx && now.Counters? && iface in now.rx ==>
      var received := CounterDelta(now.rx[iface], prev.rx[iface]);
      var transmitted := CounterDelta(if iface in now.tx then now.tx[iface] else 0, prev.tx[iface]);
      Points(prev, now, iface) == if received == 0 == transmitted then [] else [Point(now.timestamp, received, transmitted)]
    ensures prev.Has(iface) && now.Has(iface) && now.rx[iface] >= prev.rx[iface] && now.tx[iface] >= prev.tx[iface] ==>
      forall p | p in Points(prev, now, iface) ::
        p == Point(now.timestamp, now.rx[iface] - prev.rx[iface], now.tx[iface] - prev.tx[iface])
  {
  }

  /** The last reading that could be taken. */
  function Latest(readings: seq<Reading>): Reading {
    if readings == [] then Unreadable
    else if readings[|readings| - 1].Counters? then readings[|readings| - 1]
    else Latest(readings[..|readings| - 1])
  }

  /** Every point of a run for one interface, in order. */
  function AllPoints(readings: seq<Reading>, iface: Iface): seq<Point> {
    if readings == [] then []
    else
      var earlier := readings[..|readings| - 1];
      AllPoints(earlier, iface) + Points(Latest(earlier), readings[|readings| - 1], iface)
  }

  function Times(points: seq<Point>): seq<int> {
    seq(|points|, i requires 0 <= i < |points| => points[i].timestamp)
  }

  /** When the readings that could be taken were. */
  function Taken(readings: seq<Reading>): seq<int> {
    if readings == [] then []
    else
      var earlier, last := Taken(readings[..|readings| - 1]), readings[|readings| - 1];
      if last.Counters? then earlier + [last.timestamp] else earlier
  }

  /** Over any run, an interface's points carry the times of readings, of each at most once and in order. */
  lemma {:induction false} PointTimes(readings: seq<Reading>, iface: Iface)
    ensures InOrder(Times(AllPoints(readings, iface)), Taken(readings))
  {
    if readings == [] {
      assert Times(AllPoints(readings, iface)) == [];
      InOrderNone<int>([]);
    } else {
      var earlier, last := readings[..|readings| - 1], readings[|readings| - 1];
      PointTimes(earlier, iface);
      var more := Points(Latest(earlier), last, iface);
      PointsTell(Latest(earlier), last, iface);
      hide Points;
      if last.Counters? { InOrderAppend(Times(AllPoints(earlier, iface)), Taken(earlier), last.timestamp); }
      assert Times(AllPoints(earlier, iface) + more) == Times(AllPoints(earlier, iface)) + Times(more);
      if more == [] {
        assert Times(AllPoints(earlier, iface)) + [] == Times(AllPoints(earlier, iface));
      } else {
        assert Times(more) == [last.timestamp];
      }
    }
  }

  // Traffic.

  /** The bytes received and transmitted according to some points. */
  function Traffic(points: seq<Point>): (int, int) {
    if points == [] then (0, 0)
    else
      var earlier, last := Traffic(points[..|points| - 1]), points[|points| - 1];
      (earlier.0 + last.rx, earlier.1 + last.tx)
  }

  /** The first and the last reading that could be taken, or -1. */
  function FirstIndex(readings: seq<Reading>): (i: int)
    ensures -1 <= i < |readings|
  {
    if readings == [] then -1
    else if FirstIndex(readings[..|readings| - 1]) >= 0 then FirstIndex(readings[..|readings| - 1])
    else if readings[|readings| - 1].Counters? then |readings| - 1
    else -1
  }

  function LastIndex(readings: seq<Reading>): (i: int)
    ensures -1 <= i < |readings|
    ensures Latest(readings) == if i < 0 then Unreadable else readings[i]
    ensures i >= 0 ==> readings[i].Counters?
    ensures i < 0 <==> FirstIndex(readings) < 0
  {
    if readings == [] then -1
    else if readings[|readings| - 1].Counters? then |readings| - 1
    else LastIndex(readings[..|readings| - 1])
  }

  /** A counter whose difference comes out right; `before` and `after` are the bytes that really passed. */
  predicate Tracked(before: nat, after: nat) {
    && before <= after < before + COUNTER_WRAP
    && (before % COUNTER_WRAP <= after % COUNTER_WRAP || before % COUNTER_WRAP >= COUNTER_WRAP_THRESHOLD)
  }

  /** The interface is in every reading that could be taken, and its counters show these totals modulo 2^32. */
  ghost predicate Shows(readings: seq<Reading>, iface: Iface, rx: seq<nat>, tx: seq<nat>) {
    && |readings| == |rx| == |tx|
    && forall i | 0 <= i < |readings| && readings[i].Counters? ::
         && readings[i].Has(iface)
         && readings[i].rx[iface] == rx[i] % COUNTER_WRAP
         && readings[i].tx[iface] == tx[i] % COUNTER_WRAP
  }

  /** From each reading that could be taken to the next one, both counters are tracked. */
  predicate AllTracked(readings: seq<Reading>, rx: seq<nat>, tx: seq<nat>)
    requires |readings| == |rx| == |tx|
  {
    readings == [] ||
    var n := |readings| - 1;
    var j := LastIndex(readings[..n]);
    && AllTracked(readings[..n], rx[..n], tx[..n])
    && (readings[n].Counters? && j >= 0 ==> Tracked(rx[j], rx[n]) && Tracked(tx[j], tx[n]))
  }

  /** Traffic conservation: the points of a run add up to the bytes that really passed since the baseline. */
  lemma {:induction false} TrafficConserved(readings: seq<Reading>, iface: Iface, rx: seq<nat>, tx: seq<nat>)
    requires Shows(readings, iface, rx, tx) && AllTracked(readings, rx, tx)
    ensures
      var first, last, traffic := FirstIndex(readings), LastIndex(readings), Traffic(AllPoints(readings, iface));
      if last < 0 then traffic == (0, 0)
      else rx[first] + traffic.0 == rx[last] && tx[first] + traffic.1 == tx[last]
    ensures forall p | p in AllPoints(readings, iface) :: 0 <= p.rx < COUNTER_WRAP && 0 <= p.tx < COUNTER_WRAP
  {
    if readings != [] {
      var n := |readings| - 1;
      var earlier := readings[..n];
      TrafficConserved(earlier, iface, rx[..n], tx[..n]);
      var j := LastIndex(earlier);
      var more := Points(Latest(earlier), readings[n], iface);
      if readings[n].Counters? && j >= 0 {
        assert Shows(earlier, iface, rx[..n], tx[..n]);
        assert earlier[j].Has(iface) && readings[n].Has(iface);
        PointExact(earlier[j], readings[n], iface, rx[j], rx[n], tx[j], tx[n]);
      } else {
        assert more == [];
      }
      TrafficAppend(AllPoints(earlier, iface), more);
    }
  }

  /** Two readings of tracked counters yield the traffic between them. */
  lemma PointExact(prev: Reading, now: Reading, iface: Iface, rx0: nat, rx1: nat, tx0: nat, tx1: nat)
    requires prev.Has(iface) && now.Has(iface) && Tracked(rx0, rx1) && Tracked(tx0, tx1)
    requires prev.rx[iface] == rx0 % COUNTER_WRAP && prev.tx[iface] == tx0 % COUNTER_WRAP
    requires now.rx[iface] == rx1 % COUNTER_WRAP && now.tx[iface] == tx1 % COUNTER_WRAP
    ensures
      var points := Points(prev, now, iface);
      && |points| <= 1
      && (if points == [] then rx0 == rx1 && tx0 == tx1 else points[0].rx == rx1 - rx0 && points[0].tx == tx1 - tx0)
      && (points != [] ==> 0 <= points[0].rx < COUNTER_WRAP && 0 <= points[0].tx < COUNTER_WRAP)
  {
    CounterDeltaExact(rx0, rx1);
    CounterDeltaExact(tx0, tx1);
  }

  lemma TrafficOneMore(points: seq<Point>, p: Point)
    ensures Traffic(points + [p]) == (Traffic(points).0 + p.rx, Traffic(points).1 + p.tx)
  {
    assert (points + [p])[..|points|] == points;
  }

  lemma TrafficAppend(points: seq<Point>, more: seq<Point>)
    requires |more| <= 1
    ensures Traffic(points + more)
         == if more == [] then Traffic(points)
            else (Traffic(points).0 + more[0].rx, Traffic(points).1 + more[0].tx)
  {
    hide Traffic;
    if more == [] {
      assert points + more == points;
    } else {
      assert more == [more[0]];
      TrafficOneMore(points, more[0]);
    }
  }

  lemma {:induction false} TrafficConcat(points: seq<Point>, more: seq<Point>)
    ensures Traffic(points + more).0 == Traffic(points).0 + Traffic(more).0
    ensures Traffic(points + more).1 == Traffic(points).1 + Traffic(more).1
  {
    if more == [] {
      assert points + more == points;
    } else {
      var n := |more| - 1;
      TrafficConcat(points, more[..n]);
      assert (points + more)[..|points| + n] == points + more[..n];
    }
  }

  // The plugin.

  /** What a message carries for an interface. */
  function In(due: map<Iface, seq<Point>>, iface: Iface): seq<Point> {
    if iface in due then due[iface] else []
  }

  ghost function AllSent(messages: seq<map<Iface, seq<Point>>>, iface: Iface): seq<Point> {
    if messages == [] then []
    else AllSent(messages[..|messages| - 1], iface) + In(messages[|messages| - 1], iface)
  }

  /** An interface's points that wait, and when its window began, if it has had points before. */
  datatype Held = Held(since: Option<int>, points: seq<Point>)

  /**
   Points go out in time: all of them if the window was over when the tick began, and none
   if it is not over when the tick ends. A first window begins during the tick.
   */
  ghost predicate Timely(window: int, since: Option<int>, start: int, end: int, due: seq<Point>, left: seq<Point>) {
    && (since.Some? && Elapsed(window, since.value, start) ==> left == [])
    && (!Elapsed(window, if since.Some? then since.value else start, end) ==> due == [])
  }

  /** What a tick that began at `start` and is now at `end` has made of one interface's points. */
  ghost predicate AccountedFor(due: map<Iface, seq<Point>>, entries: seq<Point>, window: int, start: int, end: int,
                        before: Held, now: Held, iface: Iface) {
    && In(due, iface) + now.points == before.points + entries
    && (iface in due ==> due[iface] != [])
    && (if entries == [] then In(due, iface) == [] else Timely(window, before.since, start, end, In(due, iface), now.points))
  }

  /** Still to be looked at, or done. */
  ghost predicate Moving(todo: set<Iface>, due: map<Iface, seq<Point>>, activities: map<Iface, seq<Point>>,
                         window: int, start: int, end: int, before: Held, now: Held, iface: Iface) {
    if iface in todo then iface in activities && iface !in due && now == before
    else AccountedFor(due, In(activities, iface), window, start, end, before, now, iface)
  }

  lemma MovingStarts(todo: set<Iface>, due: map<Iface, seq<Point>>, activities: map<Iface, seq<Point>>,
                     window: int, start: int, end: int, before: Held, now: Held, iface: Iface)
    requires Moving(todo, due, activities, window, start, end, before, now, iface) && iface in todo
    ensures iface !in due && now == before
  {
  }

  lemma MovingOn(todo: set<Iface>, due: map<Iface, seq<Point>>, due': map<Iface, seq<Point>>,
                 activities: map<Iface, seq<Point>>, window: int, start: int, mid: int, end: int,
                 before: Held, now: Held, now': Held, iface: Iface, other: Iface)
    requires Moving(todo, due, activities, window, start, mid, before, now, other) && iface in todo && iface in activities
    requires start <= mid <= end
    requires other == iface ==> AccountedFor(due', activities[other], window, mid, end, now, now', other)
    requires other != iface ==> now' == now && SameEntry(due, due', other)
    ensures Moving(todo - {iface}, due', activities, window, start, end, before, now', other)
  {
  }

  predicate SameEntry(due: map<Iface, seq<Point>>, due': map<Iface, seq<Point>>, iface: Iface) {
    (iface in due' <==> iface in due) && (iface in due ==> due'[iface] == due[iface])
  }

  lemma MovingEnds(todo: set<Iface>, due: map<Iface, seq<Point>>, activities: map<Iface, seq<Point>>,
                   window: int, start: int, end: int, before: Held, now: Held, iface: Iface)
    requires Moving(todo, due, activities, window, start, end, before, now, iface) && iface !in todo
    ensures AccountedFor(due, In(activities, iface), window, start, end, before, now, iface)
    ensures iface in due ==> due[iface] != []
  {
  }

  /** The message says something, and about no interface nothing. */
  ghost predicate NotEmpty(msg: map<Iface, seq<Point>>) {
    msg != map[] && forall iface | iface in msg :: msg[iface] != []
  }

  lemma SaysSomething(msg: map<Iface, seq<Point>>)
    requires forall iface | iface in msg :: msg[iface] != []
    ensures |msg| > 0 ==> NotEmpty(msg)
  {
  }

  class Plugin {
    const sendInterval: int
    const clock: Clock
    var last: Reading
    var accs: map<Iface, Accumulator>

    /** Every interface has an accumulator of its own. */
    ghost predicate Valid()
      reads this, accs.Values
    {
      && (forall iface | iface in accs ::
            accs[iface].Valid() && accs[iface].window == sendInterval && accs[iface].clock == clock)
      && (forall i, j | i in accs && j in accs && i != j :: accs[i] != accs[j])
    }

    ghost function Account(iface: Iface): Held
      reads this, accs.Values
    {
      if iface in accs then Held(Some(accs[iface].lastSend), accs[iface].points) else Held(None, [])
    }

    ghost function Buffered(iface: Iface): seq<Point>
      reads this, accs.Values
    {
      Account(iface).points
    }

    constructor (sendInterval: int, clock: Clock, baseline: Reading)
      ensures Valid() && accs == map[] && last == baseline && this.clock == clock && this.sendInterval == sendInterval
    {
      this.sendInterval := sendInterval;
      this.clock := clock;
      last := baseline;
      accs := map[];
    }

    /** `delta`: the points of one sample. */
    method Delta(timestamp: int, rx: map<Iface, int>, tx: map<Iface, int>) returns (activities: map<Iface, seq<Point>>)
      ensures forall iface :: In(activities, iface) == Points(last, Counters(timestamp, rx, tx), iface)
      ensures forall iface | iface in activities :: |activities[iface]| == 1
    {
      activities := map[];
      if last.Unreadable? { return; }
      var todo := rx.Keys;
      while exists iface :: iface in todo
        invariant forall iface | iface in todo :: iface in rx
        invariant forall iface | iface in rx && iface !in todo ::
                    In(activities, iface) == Points(last, Counters(timestamp, rx, tx), iface)
        invariant forall iface | iface in activities :: iface in rx && iface !in todo && |activities[iface]| == 1
        decreases |todo|
      {
        var iface :| iface in todo;
        todo := todo - {iface};
        if iface in last.rx && iface in last.tx {
          var rxDelta := CounterDelta(rx[iface], last.rx[iface]);
          var txDelta := CounterDelta(if iface in tx then tx[iface] else 0, last.tx[iface]);
          if rxDelta != 0 || txDelta != 0 {
            activities := activities[iface := [Point(timestamp, rxDelta, txDelta)]];
          }
        }
      }
    }

    /** The interface's accumulator, made when it is first needed; its first window begins then. */
    method Acquire(iface: Iface) returns (acc: Accumulator)
      requires Valid()
      modifies this`accs, clock
      ensures Valid() && iface in accs && accs[iface] == acc && fresh(accs.Values - old(accs.Values))
      ensures old(clock.time) <= clock.time
      ensures forall other | other != iface :: Account(other) == old(Account(other))
      ensures Buffered(iface) == old(Buffered(iface))
      ensures
        var since := old(Account(iface)).since;
        if since.Some? then acc.lastSend == since.value else old(clock.time) <= acc.lastSend <= clock.time
    {
      if iface in accs { return accs[iface]; }
      acc := new Accumulator(sendInterval, clock);
      accs := accs[iface := acc];
    }

    /** The points are added one by one; what is due comes back. */
    method Feed(iface: Iface, acc: Accumulator, entries: seq<Point>) returns (points: seq<Point>)
      requires Valid() && iface in accs && accs[iface] == acc
      modifies acc, clock
      ensures Valid() && points + Buffered(iface) == old(Buffered(iface)) + entries
      ensures old(clock.time) <= clock.time
      ensures entries != [] ==>
        Timely(sendInterval, Some(old(acc.lastSend)), old(clock.time), clock.time, points, Buffered(iface))
      ensures forall other | other != iface :: Account(other) == old(Account(other))
    {
      assert forall other | other in accs && other != iface :: accs[other] != acc;
      points := AddAndDrain(acc, entries);
    }

    /** One interface's points go to its accumulator; if that is due, its points join the message. */
    method Accumulate(iface: Iface, entries: seq<Point>, due: map<Iface, seq<Point>>) returns (due': map<Iface, seq<Point>>)
      requires Valid() && iface !in due && entries != []
      modifies this`accs, accs.Values, clock
      ensures Valid() && fresh(accs.Values - old(accs.Values))
      ensures old(clock.time) <= clock.time
      ensures AccountedFor(due', entries, sendInterval, old(clock.time), clock.time, old(Account(iface)), Account(iface), iface)
      ensures forall other | other != iface :: SameEntry(due, due', other)
      ensures forall other | other != iface :: Account(other) == old(Account(other))
    {
      hide Valid, Account;
      ghost var before, start := Account(iface), clock.time;
      var acc := Acquire(iface);
      ghost var since, mid := acc.lastSend, clock.time;
      var points := Feed(iface, acc, entries);
      TimelyFrom(sendInterval, before.since, start, since, mid, clock.time, points, Buffered(iface));
      due' := if |points| > 0 then due[iface := points] else due;
    }

    /** Each interface's new points go to its accumulator; what is due goes out. */
    method Distribute(activities: map<Iface, seq<Point>>) returns (due: map<Iface, seq<Point>>)
      requires Valid() && forall iface | iface in activities :: activities[iface] != []
      modifies this`accs, accs.Values, clock
      ensures Valid() && fresh(accs.Values - old(accs.Values))
      ensures old(clock.time) <= clock.time
      ensures forall iface ::
        AccountedFor(due, In(activities, iface), sendInterval, old(clock.time), clock.time,
                     old(Account(iface)), Account(iface), iface)
      ensures |due| > 0 ==> NotEmpty(due)
    {
      due := map[];
      var todo := activities.Keys;
      ghost var start := clock.time;
      forall iface
        ensures Moving(todo, due, activities, sendInterval, start, start, Account(iface), Account(iface), iface)
      {
        assert [] + Account(iface).points == Account(iface).points + [];
      }
      hide Moving, AccountedFor, In, Valid, Account, SameEntry, NotEmpty;
      while exists iface :: iface in todo
        invariant todo <= activities.Keys && Valid() && fresh(accs.Values - old(accs.Values)) && start <= clock.time
        invariant forall iface ::
          Moving(todo, due, activities, sendInterval, start, clock.time, old(Account(iface)), Account(iface), iface)
        decreases |todo|
      {
        var iface :| iface in todo;
        ghost var due0, mid := due, clock.time;
        label before:
        MovingStarts(todo, due, activities, sendInterval, start, mid, old(Account(iface)), Account(iface), iface);
        due := Accumulate(iface, activities[iface], due);
        forall other
          ensures Moving(todo - {iface}, due, activities, sendInterval, start, clock.time,
                         old(Account(other)), Account(other), other)
        {
          MovingOn(todo, due0, due, activities, sendInterval, start, mid, clock.time,
                   old(Account(other)), old@before(Account(other)), Account(other), iface, other);
        }
        todo := todo - {iface};
      }
      forall iface
        ensures AccountedFor(due, In(activities, iface), sendInterval, start, clock.time,
                             old(Account(iface)), Account(iface), iface)
        ensures iface in due ==> due[iface] != []
      {
        MovingEnds(todo, due, activities, sendInterval, start, clock.time, old(Account(iface)), Account(iface), iface);
      }
      SaysSomething(due);
    }

    /**
     One tick, interface by interface: what it sends and what stays buffered is what was
     buffered and the new point; without a new point nothing goes out, and with one
     everything does if the window was over, and nothing if it is not.
     */
    method Tick(reading: Reading) returns (due: map<Iface, seq<Point>>)
      requires Valid()
      modifies this, accs.Values, clock
      ensures Valid() && fresh(accs.Values - old(accs.Values))
      ensures last == if reading.Counters? then reading else old(last)
      ensures forall iface ::
        AccountedFor(due, Points(old(last), reading, iface), sendInterval, old(clock.time), clock.time,
                     old(Account(iface)), Account(iface), iface)
      ensures |due| > 0 ==> NotEmpty(due)
    {
      if reading.Unreadable? {
        forall iface
          ensures AccountedFor(map[], Points(last, reading, iface), sendInterval, clock.time, clock.time,
                               Account(iface), Account(iface), iface)
        {
          assert [] + Account(iface).points == Account(iface).points + [];
        }
        return map[];
      }
      var activities := Delta(reading.timestamp, reading.rx, reading.tx);
      hide Points, AccountedFor, In, Account, Valid, NotEmpty;
      last := reading;
      due := Distribute(activities);
    }
  }

  /** The window of a new accumulator begins when it is made. */
  lemma TimelyFrom(window: int, first: Option<int>, start: int, since: int, mid: int, end: int, due: seq<Point>, left: seq<Point>)
    requires start <= mid <= end && Timely(window, Some(since), mid, end, due, left)
    requires if first.Some? then since == first.value else start <= since
    ensures Timely(window, first, start, end, due, left)
  {
  }

  /**
   The plugin over any run of readings, the first of them the baseline: for every
   interface, each point has been sent once or is still buffered, in order.
   */
  method Run(sendInterval: int, clock: Clock, baseline: Reading, ticks: seq<Reading>)
    returns (messages: seq<map<Iface, seq<Point>>>, plugin: Plugin)
    modifies clock
    ensures plugin.Valid() && plugin.sendInterval == sendInterval
    ensures forall iface :: AllSent(messages, iface) + plugin.Buffered(iface) == AllPoints([baseline] + ticks, iface)
    ensures forall k | 0 <= k < |messages| :: NotEmpty(messages[k])
  {
    plugin := new Plugin(sendInterval, clock, baseline);
    messages := [];
    ghost var readings := [baseline];
    forall iface ensures Told(messages, plugin.Account(iface).points, readings, iface) {
      assert AllPoints([], iface) == [] && Points(Unreadable, baseline, iface) == [];
    }
    assert Latest(readings) == baseline;
    hide Told, Latest, AllSent, AllPoints, Points, In, Plugin.Valid, Plugin.Account, AccountedFor, NotEmpty;
    for i := 0 to |ticks|
      invariant plugin.Valid() && fresh(plugin) && fresh(plugin.accs.Values)
      invariant plugin.sendInterval == sendInterval && plugin.clock == clock
      invariant readings == [baseline] + ticks[..i] && plugin.last == Latest(readings)
      invariant forall iface :: Told(messages, plugin.Account(iface).points, readings, iface)
      invariant forall k | 0 <= k < |messages| :: NotEmpty(messages[k])
    {
      ghost var sent, start := messages, clock.time;
      label before:
      var due := plugin.Tick(ticks[i]);
      if |due| > 0 { messages := messages + [due]; }
      forall iface ensures Told(messages, plugin.Account(iface).points, readings + [ticks[i]], iface) {
        AccountedTold(sent, due, messages, readings, ticks[i], sendInterval, start, clock.time,
                      old@before(plugin.Account(iface)), plugin.Account(iface), iface);
      }
      LatestOneMore(readings, ticks[i]);
      assert ticks[..i + 1] == ticks[..i] + [ticks[i]];
      Reassociate([baseline], ticks[..i], [ticks[i]]);
      readings := readings + [ticks[i]];
    }
    assert ticks[..|ticks|] == ticks;
    forall iface ensures AllSent(messages, iface) + plugin.Buffered(iface) == AllPoints([baseline] + ticks, iface) {
      ToldAll(messages, plugin.Account(iface).points, readings, iface);
    }
  }

  /** Each point so far has been sent once or is still buffered, in order. */
  ghost predicate Told(messages: seq<map<Iface, seq<Point>>>, buffered: seq<Point>, readings: seq<Reading>, iface: Iface) {
    AllSent(messages, iface) + buffered == AllPoints(readings, iface)
  }

  lemma ToldAll(messages: seq<map<Iface, seq<Point>>>, buffered: seq<Point>, readings: seq<Reading>, iface: Iface)
    requires Told(messages, buffered, readings, iface)
    ensures AllSent(messages, iface) + buffered == AllPoints(readings, iface)
  {
  }

  lemma AccountedTold(sent: seq<map<Iface, seq<Point>>>, due: map<Iface, seq<Point>>, messages: seq<map<Iface, seq<Point>>>,
                      readings: seq<Reading>, now: Reading, window: int, start: int, end: int,
                      before: Held, after: Held, iface: Iface)
    requires Told(sent, before.points, readings, iface) && messages == if |due| > 0 then sent + [due] else sent
    requires AccountedFor(due, Points(Latest(readings), now, iface), window, start, end, before, after, iface)
    ensures Told(messages, after.points, readings + [now], iface)
  {
    hide Told, Points, Latest;
    ToldOneMore(sent, due, messages, before.points, after.points, readings, now, iface);
  }

  lemma ToldOneMore(sent: seq<map<Iface, seq<Point>>>, due: map<Iface, seq<Point>>, messages: seq<map<Iface, seq<Point>>>,
                    before: seq<Point>, buffered: seq<Point>, readings: seq<Reading>, now: Reading, iface: Iface)
    requires Told(sent, before, readings, iface) && messages == if |due| > 0 then sent + [due] else sent
    requires In(due, iface) + buffered == before + Points(Latest(readings), now, iface)
    ensures Told(messages, buffered, readings + [now], iface)
  {
    SentOneMore(sent, due, messages, iface);
    PointsOneMore(readings, now, iface);
    Regroup(AllSent(sent, iface), In(due, iface), buffered, before, Points(Latest(readings), now, iface));
  }

  method AddAndDrain(acc: Accumulator, entries: seq<Point>) returns (points: seq<Point>)
    requires acc.Valid()
    modifies acc, acc.clock
    ensures acc.Valid() && points + acc.points == old(acc.points) + entries
    ensures old(acc.clock.time) <= acc.clock.time
    ensures entries != [] ==>
      Timely(acc.window, Some(old(acc.lastSend)), old(acc.clock.time), acc.clock.time, points, acc.points)
  {
    for k := 0 to |entries|
      invariant acc.Valid() && acc.points == old(acc.points) + entries[..k]
      invariant acc.lastSend == old(acc.lastSend) && acc.clock.time == old(acc.clock.time)
    {
      acc.Add(entries[k]);
      assert entries[..k + 1] == entries[..k] + [entries[k]];
    }
    assert entries[..|entries|] == entries;
    ghost var checked;
    points, checked := acc.DrainIfDue();
  }

  lemma SentOneMore(messages: seq<map<Iface, seq<Point>>>, due: map<Iface, seq<Point>>,
                    after: seq<map<Iface, seq<Point>>>, iface: Iface)
    requires after == if |due| > 0 then messages + [due] else messages
    ensures AllSent(after, iface) == AllSent(messages, iface) + In(due, iface)
  {
    if |due| > 0 { assert after[..|messages|] == messages; }
  }

  lemma PointsOneMore(readings: seq<Reading>, now: Reading, iface: Iface)
    ensures AllPoints(readings + [now], iface) == AllPoints(readings, iface) + Points(Latest(readings), now, iface)
  {
    assert (readings + [now])[..|readings|] == readings;
  }

  lemma LatestOneMore(readings: seq<Reading>, now: Reading)
    ensures Latest(readings + [now]) == if now.Counters? then now else Latest(readings)
  {
    assert (readings + [now])[..|readings|] == readings;
  }

  lemma Regroup<T>(sent: seq<T>, out: seq<T>, kept: seq<T>, buffered: seq<T>, more: seq<T>)
    requires out + kept == buffered + more
    ensures (sent + out) + kept == (sent + buffered) + more
  {
    Reassociate(sent, out, kept);
    Reassociate(sent, buffered, more);
  }

  /** What has been sent and what is still buffered, as `Run` leaves them, add up to the bytes that really passed. */
  lemma TrafficAccounted(messages: seq<map<Iface, seq<Point>>>, buffered: seq<Point>, readings: seq<Reading>, iface: Iface,
                         rx: seq<nat>, tx: seq<nat>)
    requires AllSent(messages, iface) + buffered == AllPoints(readings, iface)
    requires Shows(readings, iface, rx, tx) && AllTracked(readings, rx, tx) && LastIndex(readings) >= 0
    ensures
      var first, last, sent, kept := FirstIndex(readings), LastIndex(readings), Traffic(AllSent(messages, iface)), Traffic(buffered);
      && rx[first] + sent.0 + kept.0 == rx[last]
      && tx[first] + sent.1 + kept.1 == tx[last]
  {
    TrafficConserved(readings, iface, rx, tx);
    TrafficConcat(AllSent(messages, iface), buffered);
  }
}
