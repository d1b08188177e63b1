/**
 * calculateETAs of the route engine (src/lib/routeOptimization.ts): walks
 * the ordered stops with a running clock in minutes, waits at a stop reached
 * before its time window opens and records a violation at a stop reached
 * after its window closes.
 *
 * The clock is a JavaScript number that may be NaN: parseTime of a malformed
 * departure time gives NaN, and NaN then spreads through every addition.
 * Here `None` stands for NaN and every comparison with it is false.
 */
module Eta {
  import opened Wrappers
  import opened Text
  import opened Clock
  import opened RouteTypes

  /** A clock reading in minutes; None is NaN. */
  type Minutes = Option<real>

  /** currentTime + d, where NaN + d is NaN. */
  function Add(t: Minutes, d: real): (r: Minutes)
    ensures r.Some? <==> t.Some?
    ensures r.Some? ==> r.value == t.value + d
  {
    match t
    case None => None
    case Some(v) => Some(v + d)
  }

  /** a < b on numbers: false whenever either side is NaN. */
  predicate Before(a: Minutes, b: Minutes)
  {
    a.Some? && b.Some? && a.value < b.value
  }

  /** parseTime, as a number of minutes. */
  function ParseClock(s: string): (r: Minutes)
    ensures r.Some? <==> ParseTime(s).Some?
    ensures r.Some? ==> r.value == ParseTime(s).value as real && r.value >= 0.0
  {
    match ParseTime(s)
    case None => None
    case Some(v) => Some(v as real)
  }

  /** formatTime, where formatTime(NaN) is "NaN:NaN". */
  function FormatClock(t: Minutes): string
  {
    match t
    case None => "NaN:NaN"
    case Some(v) => FormatTime(v)
  }

  /**
   * What formatTime writes for a clock reading: "NaN:NaN" for NaN, and for a
   * non-negative reading a time that parseTime reads back as its whole
   * minutes within the day.
   */
  lemma FormatClockReadsBack(t: Minutes)
    ensures t.None? ==> FormatClock(t) == "NaN:NaN"
    ensures t.Some? && t.value >= 0.0 ==>
      |FormatClock(t)| == 5 && ParseTime(FormatClock(t)) == Some(t.value.Floor % MinutesPerDay)
  {
    if t.Some? && t.value >= 0.0 {
      FormatThenParse(t.value);
    }
  }

  /**
   * How clock text is read and written: parseTime and formatTime below
   * (JsClock). The walk is stated for any such pair, so the facts proved
   * about it do not depend on the details of the two conversions.
   */
  datatype ClockText = ClockText(parse: string -> Minutes, format: Minutes -> string)

  const JsClock: ClockText := ClockText(ParseClock, FormatClock)

  /** A time window is checked only when both of its ends are non-empty strings. */
  predicate HasWindow(s: Stop)
  {
    s.timeWindowStart.Some? && s.timeWindowStart.value != ""
    && s.timeWindowEnd.Some? && s.timeWindowEnd.value != ""
  }

  /** The clock after the window check: moved to the window start when early. */
  function Settle(ct: ClockText, s: Stop, arrival: Minutes): Minutes
  {
    if HasWindow(s) && Before(arrival, ct.parse(s.timeWindowStart.value))
    then ct.parse(s.timeWindowStart.value)
    else arrival
  }

  /** Arriving strictly after the window end (and not before its start) is a violation. */
  predicate Late(ct: ClockText, s: Stop, arrival: Minutes)
  {
    HasWindow(s)
    && !Before(arrival, ct.parse(s.timeWindowStart.value))
    && Before(ct.parse(s.timeWindowEnd.value), arrival)
  }

  /** The text of the violation recorded for a late stop. */
  function LateReason(s: Stop, eta: string): string
    requires s.timeWindowEnd.Some?
  {
    "Arrival at " + eta + " is after time window ends at " + s.timeWindowEnd.value
  }

  /**
   * The clock when stop k is left: the departure time for the first stop,
   * otherwise its settled arrival plus its service time.
   */
  function LeaveTime(ct: ClockText, ordered: seq<Stop>, legs: seq<RouteLeg>, start: Minutes, k: nat): Minutes
    requires k < |ordered| && |legs| >= |ordered| - 1
  {
    if k == 0 then start
    else
      var arrival := Add(LeaveTime(ct, ordered, legs, start, k - 1), legs[k - 1].duration / 60.0);
      Add(Settle(ct, ordered[k], arrival), ordered[k].serviceTime)
  }

  /** The clock when stop k >= 1 is reached: the previous leave time plus the leg's minutes. */
  function ArrivalTime(ct: ClockText, ordered: seq<Stop>, legs: seq<RouteLeg>, start: Minutes, k: nat): Minutes
    requires 1 <= k < |ordered| && |legs| >= |ordered| - 1
  {
    Add(LeaveTime(ct, ordered, legs, start, k - 1), legs[k - 1].duration / 60.0)
  }

  /**
   * The entry for stop k: for the first stop its id and the departure time
   * twice; for a later stop its arrival and its settled arrival plus its
   * service time.
   */
  function EtaOf(ct: ClockText, ordered: seq<Stop>, legs: seq<RouteLeg>, start: Minutes, k: nat): StopEta
    requires k < |ordered| && |legs| >= |ordered| - 1
  {
    if k == 0 then StopEta(ordered[0].id, ct.format(start), ct.format(start))
    else
      var arrival := ArrivalTime(ct, ordered, legs, start, k);
      StopEta(ordered[k].id, ct.format(arrival), ct.format(Add(Settle(ct, ordered[k], arrival), ordered[k].serviceTime)))
  }

  /** The entries of the first n stops. */
  function Etas(ct: ClockText, ordered: seq<Stop>, legs: seq<RouteLeg>, start: Minutes, n: nat): seq<StopEta>
    requires n <= |ordered| && |legs| >= |ordered| - 1
  {
    if n == 0 then [] else Etas(ct, ordered, legs, start, n - 1) + [EtaOf(ct, ordered, legs, start, n - 1)]
  }

  /** Whether stop k (after the first) is late under the walk from `start`. */
  predicate LateAt(ct: ClockText, ordered: seq<Stop>, legs: seq<RouteLeg>, start: Minutes, k: nat)
    requires k < |ordered| && |legs| >= |ordered| - 1
  {
    k >= 1 && Late(ct, ordered[k], ArrivalTime(ct, ordered, legs, start, k))
  }

  /** The violation recorded for late stop k, quoting its eta and window end. */
  function ViolationOf(ct: ClockText, ordered: seq<Stop>, legs: seq<RouteLeg>, start: Minutes, k: nat): Violation
    requires 1 <= k < |ordered| && |legs| >= |ordered| - 1 && ordered[k].timeWindowEnd.Some?
  {
    Violation(ordered[k].id, LateReason(ordered[k], ct.format(ArrivalTime(ct, ordered, legs, start, k))))
  }

  /** The late stops among the first n, in order. */
  function LateStops(ct: ClockText, ordered: seq<Stop>, legs: seq<RouteLeg>, start: Minutes, n: nat): seq<nat>
    requires n <= |ordered| && |legs| >= |ordered| - 1
  {
    if n == 0 then []
    else if LateAt(ct, ordered, legs, start, n - 1) then LateStops(ct, ordered, legs, start, n - 1) + [n - 1]
    else LateStops(ct, ordered, legs, start, n - 1)
  }

  /** The violations among the first n stops, in order. */
  function Violations(ct: ClockText, ordered: seq<Stop>, legs: seq<RouteLeg>, start: Minutes, n: nat): seq<Violation>
    requires n <= |ordered| && |legs| >= |ordered| - 1
  {
    if n == 0 then []
    else if LateAt(ct, ordered, legs, start, n - 1) then
      Violations(ct, ordered, legs, start, n - 1) + [ViolationOf(ct, ordered, legs, start, n - 1)]
    else Violations(ct, ordered, legs, start, n - 1)
  }

  /**
   * calculateETAs: the entries and the violations of the walk from the
   * parsed departure time over all the ordered stops. The text conversions
   * are an argument; the route engine passes parseTime and formatTime
   * (JsClock).
   */
  method CalculateETAs(ct: ClockText, ordered: seq<Stop>, legs: seq<RouteLeg>, departureTime: string)
    returns (perStopETA: seq<StopEta>, violations: seq<Violation>)
    requires |legs| >= |ordered| - 1
    ensures perStopETA == Etas(ct, ordered, legs, ct.parse(departureTime), |ordered|)
    ensures violations == Violations(ct, ordered, legs, ct.parse(departureTime), |ordered|)
  {
    ghost var start := ct.parse(departureTime);
    perStopETA, violations := [], [];
    var currentTime := ct.parse(departureTime);
    for i := 0 to |ordered|
      invariant perStopETA == Etas(ct, ordered, legs, start, i)
      invariant violations == Violations(ct, ordered, legs, start, i)
      invariant i == 0 ==> currentTime == start
      invariant i > 0 ==> currentTime == LeaveTime(ct, ordered, legs, start, i - 1)
    {
      var stop := ordered[i];
      if i == 0 {
        var e := StopEta(stop.id, ct.format(currentTime), ct.format(currentTime));
        FirstStep(ct, ordered, legs, start, perStopETA, violations, e);
        perStopETA := perStopETA + [e];
      } else {
        ghost var previous := currentTime;
        var eta, departure, violation;
        eta, departure, violation, currentTime := VisitStop(ct, stop, legs[i - 1], currentTime);
        LaterStep(ct, ordered, legs, start, i, previous, eta, departure, violation);
        if violation.Some? {
          violations := violations + [violation.value];
        }
        perStopETA := perStopETA + [StopEta(stop.id, eta, departure)];
      }
    }
  }

  /**
   * One pass of calculateETAs' loop for a stop after the first: drive the
   * leg, format the arrival, wait for the window or record lateness, then
   * add the service time.
   */
  method VisitStop(ct: ClockText, stop: Stop, leg: RouteLeg, currentTime: Minutes)
    returns (eta: string, departure: string, violation: Option<Violation>, leave: Minutes)
    ensures var arrival := Add(currentTime, leg.duration / 60.0);
      && eta == ct.format(arrival)
      && departure == ct.format(Add(Settle(ct, stop, arrival), stop.serviceTime))
      && leave == Add(Settle(ct, stop, arrival), stop.serviceTime)
      && (violation.Some? <==> Late(ct, stop, arrival))
      && (violation.Some? ==> stop.timeWindowEnd.Some? && violation.value == Violation(stop.id, LateReason(stop, eta)))
  {
    var time := Add(currentTime, leg.duration / 60.0);
    eta := ct.format(time);
    violation := None;
    if HasWindow(stop) {
      var windowStart := ct.parse(stop.timeWindowStart.value);
      var windowEnd := ct.parse(stop.timeWindowEnd.value);
      if Before(time, windowStart) {
        time := windowStart;
      } else if Before(windowEnd, time) {
        violation := Some(Violation(stop.id, LateReason(stop, eta)));
      }
    }
    departure := ct.format(Add(time, stop.serviceTime));
    leave := Add(time, stop.serviceTime);
  }

  /** The loop step of calculateETAs for the first stop. */
  lemma FirstStep(ct: ClockText, ordered: seq<Stop>, legs: seq<RouteLeg>, start: Minutes,
                  etas: seq<StopEta>, violations: seq<Violation>, e: StopEta)
    requires 0 < |ordered| && |legs| >= |ordered| - 1
    requires etas == Etas(ct, ordered, legs, start, 0) && violations == Violations(ct, ordered, legs, start, 0)
    requires e == StopEta(ordered[0].id, ct.format(start), ct.format(start))
    ensures etas + [e] == Etas(ct, ordered, legs, start, 1)
    ensures violations == Violations(ct, ordered, legs, start, 1)
    ensures start == LeaveTime(ct, ordered, legs, start, 0)
  {
  }

  /** The loop step of calculateETAs for stop i >= 1, left from the previous stop at `previous`. */
  lemma LaterStep(ct: ClockText, ordered: seq<Stop>, legs: seq<RouteLeg>, start: Minutes, i: nat,
                  previous: Minutes, eta: string, departure: string, violation: Option<Violation>)
    requires 1 <= i < |ordered| && |legs| >= |ordered| - 1
    requires previous == LeaveTime(ct, ordered, legs, start, i - 1)
    requires var arrival := Add(previous, legs[i - 1].duration / 60.0);
      && eta == ct.format(arrival)
      && departure == ct.format(Add(Settle(ct, ordered[i], arrival), ordered[i].serviceTime))
      && (violation.Some? <==> Late(ct, ordered[i], arrival))
      && (violation.Some? ==> ordered[i].timeWindowEnd.Some? && violation.value == Violation(ordered[i].id, LateReason(ordered[i], eta)))
    ensures Add(Settle(ct, ordered[i], Add(previous, legs[i - 1].duration / 60.0)), ordered[i].serviceTime)
      == LeaveTime(ct, ordered, legs, start, i)
    ensures Etas(ct, ordered, legs, start, i + 1) == Etas(ct, ordered, legs, start, i) + [StopEta(ordered[i].id, eta, departure)]
    ensures Violations(ct, ordered, legs, start, i + 1)
      == Violations(ct, ordered, legs, start, i) + (if violation.Some? then [violation.value] else [])
  {
  }

  /** Etas has one entry per stop, entry k being EtaOf k. */
  lemma {:induction false} EtasEntries(ct: ClockText, ordered: seq<Stop>, legs: seq<RouteLeg>, start: Minutes, n: nat)
    requires n <= |ordered| && |legs| >= |ordered| - 1
    ensures |Etas(ct, ordered, legs, start, n)| == n
    ensures forall k :: 0 <= k < n ==> Etas(ct, ordered, legs, start, n)[k] == EtaOf(ct, ordered, legs, start, k)
  {
    if n > 0 {
      EtasEntries(ct, ordered, legs, start, n - 1);
    }
  }

  /** LateStops lists, in increasing order, exactly the late stops among the first n. */
  lemma {:induction false} LateStopsExact(ct: ClockText, ordered: seq<Stop>, legs: seq<RouteLeg>, start: Minutes, n: nat)
    requires n <= |ordered| && |legs| >= |ordered| - 1
    ensures forall a, b :: 0 <= a < b < |LateStops(ct, ordered, legs, start, n)| ==>
      LateStops(ct, ordered, legs, start, n)[a] < LateStops(ct, ordered, legs, start, n)[b]
    ensures forall v :: 0 <= v < |LateStops(ct, ordered, legs, start, n)| ==> LateStops(ct, ordered, legs, start, n)[v] < n
    ensures forall k: nat :: k in LateStops(ct, ordered, legs, start, n) <==> k < n && LateAt(ct, ordered, legs, start, k)
  {
    if n > 0 {
      LateStopsExact(ct, ordered, legs, start, n - 1);
    }
  }

  /** Violation v is the record of the v-th late stop, one record per late stop. */
  lemma {:induction false} ViolationsMatch(ct: ClockText, ordered: seq<Stop>, legs: seq<RouteLeg>, start: Minutes, n: nat)
    requires n <= |ordered| && |legs| >= |ordered| - 1
    ensures |Violations(ct, ordered, legs, start, n)| == |LateStops(ct, ordered, legs, start, n)|
    ensures forall v :: 0 <= v < |LateStops(ct, ordered, legs, start, n)| ==>
      var k := LateStops(ct, ordered, legs, start, n)[v];
      && 1 <= k < n && ordered[k].timeWindowEnd.Some?
      && Violations(ct, ordered, legs, start, n)[v] == ViolationOf(ct, ordered, legs, start, k)
  {
    if n > 0 {
      ViolationsMatch(ct, ordered, legs, start, n - 1);
    }
  }

  /** A violation names the late stop and quotes its eta entry and its window end verbatim. */
  lemma ViolationQuotesEta(ct: ClockText, ordered: seq<Stop>, legs: seq<RouteLeg>, start: Minutes, k: nat)
    requires 1 <= k < |ordered| && |legs| >= |ordered| - 1 && LateAt(ct, ordered, legs, start, k)
    ensures ordered[k].timeWindowEnd.Some?
    ensures ViolationOf(ct, ordered, legs, start, k).stopId == EtaOf(ct, ordered, legs, start, k).stopId == ordered[k].id
    ensures ViolationOf(ct, ordered, legs, start, k).reason
      == "Arrival at " + EtaOf(ct, ordered, legs, start, k).eta + " is after time window ends at " + ordered[k].timeWindowEnd.value
  {
  }

  /** Waiting never moves the clock back, and a stop without a window never waits. */
  lemma SettleNotEarlier(ct: ClockText, s: Stop, arrival: Minutes)
    requires arrival.Some?
    ensures Settle(ct, s, arrival).Some? && Settle(ct, s, arrival).value >= arrival.value
    ensures !HasWindow(s) ==> Settle(ct, s, arrival) == arrival
    ensures HasWindow(s) && Before(arrival, ct.parse(s.timeWindowStart.value)) ==>
      Settle(ct, s, arrival) == ct.parse(s.timeWindowStart.value)
  {
  }

  /** An arrival inside its window, ends included, neither waits nor is late. */
  lemma WithinWindow(ct: ClockText, s: Stop, arrival: Minutes)
    requires HasWindow(s) && arrival.Some?
    requires ct.parse(s.timeWindowStart.value).Some? && ct.parse(s.timeWindowEnd.value).Some?
    requires ct.parse(s.timeWindowStart.value).value <= arrival.value <= ct.parse(s.timeWindowEnd.value).value
    ensures Settle(ct, s, arrival) == arrival && !Late(ct, s, arrival)
  {
  }

  /** An early arrival waits until the window opens and is never late. */
  lemma EarlyNotLate(ct: ClockText, s: Stop, arrival: Minutes)
    requires HasWindow(s) && Before(arrival, ct.parse(s.timeWindowStart.value))
    ensures !Late(ct, s, arrival)
    ensures Settle(ct, s, arrival) == ct.parse(s.timeWindowStart.value)
  {
  }

  /** A late stop leaves the clock where it arrived: lateness is recorded, not corrected. */
  lemma LateKeepsClock(ct: ClockText, s: Stop, arrival: Minutes)
    requires Late(ct, s, arrival)
    ensures Settle(ct, s, arrival) == arrival
    ensures arrival.value > ct.parse(s.timeWindowEnd.value).value
  {
  }

  /**
   * With a numeric departure time, non-negative leg durations and service
   * times, every stop is reached no earlier than the previous one was left,
   * and left no earlier than it was reached: the clock never decreases.
   */
  lemma {:induction false} ClockNeverDecreases(ct: ClockText, ordered: seq<Stop>, legs: seq<RouteLeg>, start: Minutes, k: nat)
    requires k < |ordered| && |legs| >= |ordered| - 1 && start.Some?
    requires forall i :: 0 <= i < |legs| ==> legs[i].duration >= 0.0
    requires forall i :: 0 <= i < |ordered| ==> ordered[i].serviceTime >= 0.0
    ensures LeaveTime(ct, ordered, legs, start, k).Some?
    ensures LeaveTime(ct, ordered, legs, start, k).value >= start.value
    ensures k >= 1 ==>
      && ArrivalTime(ct, ordered, legs, start, k).Some?
      && ArrivalTime(ct, ordered, legs, start, k).value >= LeaveTime(ct, ordered, legs, start, k - 1).value
      && LeaveTime(ct, ordered, legs, start, k).value >= ArrivalTime(ct, ordered, legs, start, k).value
  {
    if k >= 1 {
      ClockNeverDecreases(ct, ordered, legs, start, k - 1);
      var arrival := ArrivalTime(ct, ordered, legs, start, k);
      SettleNotEarlier(ct, ordered[k], arrival);
    }
  }

  /** A NaN departure time makes every arrival NaN, so no stop is ever late. */
  lemma {:induction false} NaNDeparture(ct: ClockText, ordered: seq<Stop>, legs: seq<RouteLeg>, k: nat)
    requires k < |ordered| && |legs| >= |ordered| - 1
    ensures LeaveTime(ct, ordered, legs, None, k).None?
    ensures k >= 1 ==> ArrivalTime(ct, ordered, legs, None, k).None?
    ensures k >= 1 ==> !LateAt(ct, ordered, legs, None, k)
  {
    if k >= 1 {
      NaNDeparture(ct, ordered, legs, k - 1);
    }
  }
}
