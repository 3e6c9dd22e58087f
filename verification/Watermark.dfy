/**
 The single-process watermark.  Times are integers (microseconds); the wall clock
 is a parameter of every operation that reads it.
 */
module EventTime {
  import opened Prelude

  type Time = int

  datatype Lateness = OnTime | AcceptedLate | TooLate

  /** `allowed_lateness`, `idle_advance`, `_max_event_time` and `_last_update_wall`. */
  datatype Mark = Mark(lateness: int, idleAdvance: int, maxSeen: Option<Time>, lastWall: Time)

  // ------------------------------------------------------------ specification

  /** `Watermark.value` read at wall time `now`. */
  function Value(m: Mark, now: Time): Option<Time> {
    match m.maxSeen
    case None => None
    case Some(t) =>
      var idle := now - m.lastWall;
      Some(t - m.lateness + if idle > m.idleAdvance then idle - m.idleAdvance else 0)
  }

  function Observed(m: Mark, eventTime: Time, now: Time): Mark {
    m.(maxSeen := if m.maxSeen.None? || eventTime > m.maxSeen.value then Some(eventTime) else m.maxSeen,
       lastWall := now)
  }

  function Classified(m: Mark, windowEnd: Time, now: Time): Lateness {
    match Value(m, now)
    case None => OnTime
    case Some(wm) =>
      if wm < windowEnd then OnTime
      else if wm < windowEnd + m.lateness then AcceptedLate
      else TooLate
  }

  // -------------------------------------------------------------------- class

  class Watermark {
    const allowedLateness: int
    const idleAdvance: int
    var maxEventTime: Option<Time>
    var lastUpdateWall: Time

    constructor (allowedLateness: int, idleAdvance: int, now: Time)
      ensures State() == Mark(allowedLateness, idleAdvance, None, now)
    {
      this.allowedLateness, this.idleAdvance := allowedLateness, idleAdvance;
      maxEventTime, lastUpdateWall := None, now;
    }

    function State(): Mark
      reads this
    {
      Mark(allowedLateness, idleAdvance, maxEventTime, lastUpdateWall)
    }

    method CurrentValue(now: Time) returns (r: Option<Time>)
      ensures r == Value(State(), now)
    {
      if maxEventTime.None? {
        return None;
      }
      var base := maxEventTime.value - allowedLateness;
      var idle := now - lastUpdateWall;
      if idle > idleAdvance {
        base := base + (idle - idleAdvance);
      }
      return Some(base);
    }

    method Observe(eventTime: Time, now: Time)
      modifies this
      ensures State() == Observed(old(State()), eventTime, now)
    {
      if maxEventTime.None? || eventTime > maxEventTime.value {
        maxEventTime := Some(eventTime);
      }
      lastUpdateWall := now;
    }

    method Classify(windowEnd: Time, now: Time) returns (r: Lateness)
      ensures r == Classified(State(), windowEnd, now)
    {
      var wm := CurrentValue(now);
      if wm.None? || wm.value < windowEnd {
        return OnTime;
      }
      if wm.value < windowEnd + allowedLateness {
        return AcceptedLate;
      }
      return TooLate;
    }

    /** A window is closed exactly when an event for it would no longer be on time. */
    method IsClosed(windowEnd: Time, now: Time) returns (r: bool)
      ensures r <==> !Classified(State(), windowEnd, now).OnTime?
    {
      var wm := CurrentValue(now);
      return wm.Some? && wm.value >= windowEnd;
    }
  }

  // --------------------------------------------------------------- properties

  /** The largest event time among the events seen, which no clock can change. */
  function MaxTime(times: seq<Time>): Option<Time> {
    if times == [] then None
    else
      var rest := MaxTime(times[..|times| - 1]);
      var t := times[|times| - 1];
      if rest.None? || t > rest.value then Some(t) else rest
  }

  lemma {:induction false} MaxTimeIsMax(times: seq<Time>)
    ensures times == [] <==> MaxTime(times).None?
    ensures MaxTime(times).Some? ==> MaxTime(times).value in times
    ensures forall i :: 0 <= i < |times| ==> MaxTime(times).Some? && times[i] <= MaxTime(times).value
  {
    if times != [] {
      MaxTimeIsMax(times[..|times| - 1]);
    }
  }

  /** The extra advance that the time between the two clock readings causes. */
  function Excess(m: Mark, observedAt: Time, classifiedAt: Time): nat {
    Max(classifiedAt - observedAt - m.idleAdvance, 0)
  }

  /**
   An event observed and then classified is too late exactly when the largest
   event time so far, itself included, has reached the window end plus the
   lateness twice (once in the watermark, once as grace).  The wall clock enters
   only through the time between the two readings.
   */
  lemma TooLateExactly(m: Mark, eventTime: Time, windowEnd: Time, observedAt: Time, classifiedAt: Time)
    ensures
      var m' := Observed(m, eventTime, observedAt);
      Classified(m', windowEnd, classifiedAt).TooLate? <==>
        m'.maxSeen.value + Excess(m, observedAt, classifiedAt) >= windowEnd + m.lateness + Max(m.lateness, 0)
  {
  }

  /**
   The watermark is not monotone.  After idling, the next event makes it fall
   exactly when the idle excess was larger than the step in event time (plus the
   excess that a negative idle setting gives at once).
   */
  lemma MovesBackIff(m: Mark, eventTime: Time, now: Time)
    requires m.maxSeen.Some?
    ensures Value(Observed(m, eventTime, now), now).value < Value(m, now).value <==>
            Max(eventTime - m.maxSeen.value, 0) + Excess(m, now, now) < Excess(m, m.lastWall, now)
  {
  }
}
