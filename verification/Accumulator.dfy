/** Points buffered between sends, so that a window's worth of samples goes out together. */
module Accumulator {

  /** One sample's traffic. */
  datatype Point = Point(timestamp: int, rx: int, tx: int)

  /** A clock that never runs backwards. */
  class Clock {
    var time: int

    constructor ()
    {
    }

    method Now() returns (t: int)
      modifies this
      ensures t == time && old(time) <= time
    {
      var later :| time <= later;
      time := later;
      t := later;
    }
  }

  /** A drain: when the window was found to have elapsed, when the next one began, and the points sent. */
  datatype Drain = Drain(checked: int, restarted: int, points: seq<Point>)

  ghost function Drained(drains: seq<Drain>): seq<Point> {
    if drains == [] then [] else Drained(drains[..|drains| - 1]) + drains[|drains| - 1].points
  }

  /** No two drains fall within one window. */
  ghost predicate Spaced(drains: seq<Drain>, window: int) {
    && (forall i | 0 <= i < |drains| :: drains[i].checked <= drains[i].restarted)
    && (window > 0 ==> forall i | 0 < i < |drains| :: drains[i - 1].restarted + window <= drains[i].checked)
  }

  lemma DrainedOneMore(drains: seq<Drain>, drain: Drain)
    ensures Drained(drains + [drain]) == Drained(drains) + drain.points
  {
    assert (drains + [drain])[..|drains|] == drains;
  }

  lemma SpacedOneMore(drains: seq<Drain>, drain: Drain, window: int)
    requires Spaced(drains, window) && drain.checked <= drain.restarted
    requires window > 0 && drains != [] ==> drains[|drains| - 1].restarted + window <= drain.checked
    ensures Spaced(drains + [drain], window)
  {
  }

  /** A window that began at `since` is over; none is ever open if its length is not positive. */
  predicate Elapsed(window: int, since: int, now: int) { window <= 0 || window <= now - since }

  class Accumulator {
    const window: int
    const clock: Clock
    var lastSend: int
    var points: seq<Point>
    ghost var added: seq<Point>
    ghost var drains: seq<Drain>

    /** Everything added has been sent once or is still buffered, in order; and the drains are spaced out. */
    ghost predicate Valid()
      reads this
    {
      && Drained(drains) + points == added
      && Spaced(drains, window)
      && (drains != [] ==> lastSend == drains[|drains| - 1].restarted)
    }

    constructor (window: int, clock: Clock)
      modifies clock
      ensures Valid() && added == [] && points == [] && this.clock == clock && this.window == window
      ensures old(clock.time) <= lastSend <= clock.time
    {
      this.window := window;
      this.clock := clock;
      points, added, drains := [], [], [];
      new;
      var now := clock.Now();
      lastSend := now;
    }

    method Add(point: Point)
      requires Valid()
      modifies this
      ensures Valid() && points == old(points) + [point] && added == old(added) + [point]
      ensures drains == old(drains) && lastSend == old(lastSend)
    {
      points := points + [point];
      added := added + [point];
    }

    /** The buffered points if the window has elapsed, and nothing otherwise. */
    method DrainIfDue() returns (batch: seq<Point>, ghost checked: int)
      requires Valid()
      modifies this, clock
      ensures Valid() && added == old(added)
      ensures batch + points == old(points) && (batch == [] || points == [])
      ensures old(points) != [] ==> (batch != [] <==> Elapsed(window, old(lastSend), checked))
      ensures drains == if batch == [] then old(drains) else old(drains) + [Drain(checked, lastSend, batch)]
      ensures old(clock.time) <= checked <= clock.time
      ensures if batch == [] then lastSend == old(lastSend) else checked <= lastSend <= clock.time
    {
      hide Drained, Spaced;
      checked := clock.time;
      if |points| == 0 { return [], checked; }
      if window > 0 {
        var now := clock.Now();
        checked := now;
        if now - lastSend < window { return [], checked; }
      }
      batch := points;
      points := [];
      var now := clock.Now();
      lastSend := now;
      DrainedOneMore(drains, Drain(checked, now, batch));
      SpacedOneMore(drains, Drain(checked, now, batch), window);
      drains := drains + [Drain(checked, now, batch)];
    }
  }
}
