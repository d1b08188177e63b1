/**
 * The route engine's driver (src/lib/routeOptimization.ts): the
 * straight-line fallback legs and optimizeRoute, which validates its input,
 * builds the tour, asks the routing service for legs, and walks the ETAs.
 *
 * The routing service (OSRM over the network) is a function argument: it
 * returns the legs and geometry for the ordered stops, or None when the
 * request fails, in which case the fallback legs are used, as in the source.
 */
module RouteEngine {
  import opened Wrappers
  import opened Text
  import opened Collections
  import opened RouteTypes
  import opened Tour
  import opened Clock
  import opened Eta

  /** The departure time optimizeRoute falls back to when none is given. */
  const DefaultDepartureTime: string := "08:00"

  /** The two validation errors of optimizeRoute, and the crash on a missing leg. */
  datatype RouteError = TooFewStops | DepotNotFound | MissingLeg

  /** The message each error carries. */
  function ErrorMessage(e: RouteError): string
  {
    match e
    case TooFewStops => "At least 2 stops " + "(including depot) are required"
    case DepotNotFound => "Depot not found in stops"
    case MissingLeg => "Cannot read properties " + "of undefined (reading 'duration')"
  }

  /** The message of an error tells which error it is. */
  lemma ErrorMessagesDistinct(a: RouteError, b: RouteError)
    ensures ErrorMessage(a) == ErrorMessage(b) <==> a == b
  {
    if a != b {
      assert ErrorMessage(a)[0] != ErrorMessage(b)[0];
    }
  }

  /** Array.prototype.findIndex on the stop ids: the first index holding `id`, or -1. */
  function FindIndex(stops: seq<Stop>, id: string): (r: int)
    ensures -1 <= r < |stops|
    ensures r == -1 <==> forall k :: 0 <= k < |stops| ==> stops[k].id != id
    ensures r >= 0 ==> stops[r].id == id && forall k :: 0 <= k < r ==> stops[k].id != id
  {
    if stops == [] then -1
    else if stops[0].id == id then 0
    else
      var t := FindIndex(stops[1..], id);
      if t == -1 then -1 else t + 1
  }

  /** The total distance of some legs, summed left to right as reduce does. */
  function SumDistance(legs: seq<RouteLeg>): real
  {
    if legs == [] then 0.0 else SumDistance(legs[..|legs| - 1]) + legs[|legs| - 1].distance
  }

  /** The total duration of some legs, summed left to right as reduce does. */
  function SumDuration(legs: seq<RouteLeg>): real
  {
    if legs == [] then 0.0 else SumDuration(legs[..|legs| - 1]) + legs[|legs| - 1].duration
  }

  /**
   * The straight-line leg from `from` to `to`: the stops' distance, driven
   * at 40 km/h (distance / 1000 * 60 * 1.5 seconds), one step to the
   * destination and the two end points as geometry.
   */
  function FallbackLeg(dist: DistanceFn, from: Stop, to: Stop): RouteLeg
  {
    var distance := StopDistance(dist, from, to);
    var duration := (distance / 1000.0) * 60.0 * 1.5;
    RouteLeg(from, to, distance, duration,
      [RouteStep("Drive to " + to.name, distance, duration, "Direct route")],
      [(from.lat, from.lng), (to.lat, to.lng)])
  }

  /** The position of every stop, in order. */
  function Points(stops: seq<Stop>): (r: seq<LatLng>)
    ensures |r| == |stops|
    ensures forall k :: 0 <= k < |stops| ==> r[k] == (stops[k].lat, stops[k].lng)
  {
    seq(|stops|, k requires 0 <= k < |stops| => (stops[k].lat, stops[k].lng))
  }

  /** createFallbackRoute: one straight-line leg between each pair of consecutive stops. */
  method CreateFallbackRoute(stops: seq<Stop>, dist: DistanceFn) returns (routing: Routing)
    ensures |routing.legs| == if |stops| == 0 then 0 else |stops| - 1
    ensures forall i :: 0 <= i < |routing.legs| ==> routing.legs[i] == FallbackLeg(dist, stops[i], stops[i + 1])
    ensures routing.geometry == Points(stops)
  {
    var legs: seq<RouteLeg> := [];
    var geometry: seq<LatLng> := [];
    var i := 0;
    while i < |stops| - 1
      invariant 0 <= i && (|stops| > 0 ==> i <= |stops| - 1) && (|stops| == 0 ==> i == 0)
      invariant |legs| == i && |geometry| == i
      invariant forall k :: 0 <= k < i ==> legs[k] == FallbackLeg(dist, stops[k], stops[k + 1])
      invariant forall k :: 0 <= k < i ==> geometry[k] == (stops[k].lat, stops[k].lng)
    {
      var from := stops[i];
      var to := stops[i + 1];
      var distance := StopDistance(dist, from, to);
      var duration := (distance / 1000.0) * 60.0 * 1.5;
      legs := legs + [RouteLeg(from, to, distance, duration,
        [RouteStep("Drive to " + to.name, distance, duration, "Direct route")],
        [(from.lat, from.lng), (to.lat, to.lng)])];
      geometry := geometry + [(from.lat, from.lng)];
      i := i + 1;
    }
    if |stops| > 0 {
      geometry := geometry + [(stops[|stops| - 1].lat, stops[|stops| - 1].lng)];
    }
    routing := Routing(legs, geometry);
  }

  /**
   * Fallback legs chain the stops: leg i starts where leg i - 1 ends, and
   * its single step covers the whole leg.
   */
  lemma FallbackChain(stops: seq<Stop>, dist: DistanceFn, legs: seq<RouteLeg>)
    requires |legs| == |stops| - 1
    requires forall i :: 0 <= i < |legs| ==> legs[i] == FallbackLeg(dist, stops[i], stops[i + 1])
    ensures |legs| > 0 ==> legs[0].fromStop == stops[0] && legs[|legs| - 1].toStop == stops[|stops| - 1]
    ensures forall i :: 0 < i < |legs| ==> legs[i].fromStop == legs[i - 1].toStop
    ensures forall i :: 0 <= i < |legs| ==>
      |legs[i].steps| == 1 && legs[i].steps[0].distance == legs[i].distance
      && legs[i].steps[0].duration == legs[i].duration
      && legs[i].steps[0].instruction == "Drive to " + stops[i + 1].name
  {
    forall i | 0 <= i < |legs|
      ensures legs[i].fromStop == stops[i] && legs[i].toStop == stops[i + 1]
      ensures |legs[i].steps| == 1 && legs[i].steps[0].distance == legs[i].distance
      ensures legs[i].steps[0].duration == legs[i].duration
      ensures legs[i].steps[0].instruction == "Drive to " + stops[i + 1].name
    {
      assert legs[i] == FallbackLeg(dist, stops[i], stops[i + 1]);
    }
  }

  /**
   * The fallback drives at 40 km/h: its total duration in seconds is 0.09
   * times its total distance in metres.
   */
  lemma {:induction false} FallbackDuration(stops: seq<Stop>, dist: DistanceFn, legs: seq<RouteLeg>)
    requires legs == [] || |legs| < |stops|
    requires forall i :: 0 <= i < |legs| ==> legs[i] == FallbackLeg(dist, stops[i], stops[i + 1])
    ensures SumDuration(legs) == 0.09 * SumDistance(legs)
  {
    if legs != [] {
      var last := |legs| - 1;
      FallbackDuration(stops, dist, legs[..last]);
      assert legs[last] == FallbackLeg(dist, stops[last], stops[last + 1]);
      assert legs[last].duration == 0.09 * legs[last].distance;
    }
  }

  /**
   * Over the stops of a route of matrix indices whose consecutive entries
   * differ, the fallback legs sum to the route's matrix distance.
   */
  lemma {:induction false} FallbackDistance(stops: seq<Stop>, dist: DistanceFn, m: Matrix, route: seq<nat>, legs: seq<RouteLeg>)
    requires |m| == |stops| && IsSquare(m)
    requires forall i, j :: 0 <= i < |stops| && 0 <= j < |stops| ==>
      m[i][j] == if i == j then 0.0 else StopDistance(dist, stops[i], stops[j])
    requires InRange(route, |m|) && |legs| == |route| - 1
    requires forall i :: 0 <= i < |legs| ==> route[i] != route[i + 1]
    requires forall i :: 0 <= i < |legs| ==> legs[i] == FallbackLeg(dist, stops[route[i]], stops[route[i + 1]])
    ensures SumDistance(legs) == RouteDistance(route, m)
  {
    if legs != [] {
      var r := route[..|route| - 1];
      assert forall i :: 0 <= i < |r| ==> r[i] == route[i];
      FallbackDistance(stops, dist, m, r, legs[..|legs| - 1]);
    }
  }

  /** A tour over at least two stops never stays in place between consecutive entries. */
  lemma TourMoves(route: seq<nat>, n: nat, depot: nat)
    requires n >= 2 && IsTour(route, n, depot)
    ensures forall i :: 0 <= i < n ==> route[i] != route[i + 1]
  {
    forall i | 0 <= i < n ensures route[i] != route[i + 1] {
      if i + 1 < n {
        assert route[i] == route[..n][i] && route[i + 1] == route[..n][i + 1];
      } else {
        assert route[i] == route[..n][i] && route[0] == route[..n][0];
      }
    }
  }

  /** The straight-line fallback routing of the stops, as CreateFallbackRoute builds it. */
  ghost predicate IsFallback(stops: seq<Stop>, dist: DistanceFn, routing: Routing)
  {
    && |routing.legs| == (if |stops| == 0 then 0 else |stops| - 1)
    && routing.geometry == Points(stops)
    && forall i :: 0 <= i < |routing.legs| ==> routing.legs[i] == FallbackLeg(dist, stops[i], stops[i + 1])
  }

  /** tour.map(i => stops[i]). */
  function StopsOf(stops: seq<Stop>, tour: seq<nat>): (r: seq<Stop>)
    requires InRange(tour, |stops|)
    ensures |r| == |tour| && forall k :: 0 <= k < |tour| ==> r[k] == stops[tour[k]]
  {
    seq(|tour|, k requires 0 <= k < |tour| => stops[tour[k]])
  }

  /**
   * The route optimizeRoute returns for the ordered stops and their legs:
   * the totals are the legs' sums, and the ETAs and time-window violations
   * are those of the walk over the legs from the departure time.
   */
  function Assembled(ordered: seq<Stop>, routing: Routing, departureTime: string): OptimizedRoute
    requires |routing.legs| >= |ordered| - 1
  {
    OptimizedRoute(ordered, routing.legs,
      SumDistance(routing.legs), SumDuration(routing.legs),
      Etas(JsClock, ordered, routing.legs, ParseClock(departureTime), |ordered|),
      Violations(JsClock, ordered, routing.legs, ParseClock(departureTime), |ordered|),
      routing.geometry)
  }

  /**
   * The second half of optimizeRoute, once the stops are ordered: the legs
   * come from the routing service, or from the fallback when it fails; the
   * ETAs are walked over them and the totals are their sums. Legs too few
   * for the stops make the ETA walk fail (MissingLeg).
   */
  method RouteOrdered(ordered: seq<Stop>, departureTime: string, dist: DistanceFn,
                      service: seq<Stop> -> Option<Routing>)
    returns (r: Result<OptimizedRoute, RouteError>, ghost routing: Routing)
    ensures service(ordered).Some? ==> routing == service(ordered).value
    ensures service(ordered).None? ==> IsFallback(ordered, dist, routing)
    ensures r.Success? <==> |routing.legs| >= |ordered| - 1
    ensures r.Failure? ==> r.error == MissingLeg
    ensures r.Success? ==> r.value == Assembled(ordered, routing, departureTime)
    ensures service(ordered).None? ==> r.Success? && r.value.totalDuration == 0.09 * r.value.totalDistance
  {
    var fetched := service(ordered);
    var legsAndGeometry: Routing;
    if fetched.Some? {
      legsAndGeometry := fetched.value;
    } else {
      legsAndGeometry := CreateFallbackRoute(ordered, dist);
      FallbackDuration(ordered, dist, legsAndGeometry.legs);
    }
    routing := legsAndGeometry;
    var legs, geometry := legsAndGeometry.legs, legsAndGeometry.geometry;
    if |legs| < |ordered| - 1 {
      return Failure(MissingLeg), routing;
    }
    var perStopETA, violations := CalculateETAs(JsClock, ordered, legs, departureTime);
    r := Success(OptimizedRoute(ordered, legs, SumDistance(legs), SumDuration(legs), perStopETA, violations, geometry));
    assert r.value == Assembled(ordered, routing, departureTime);
  }

  /**
   * The matrix holds the distances between the stops (zero on the
   * diagonal); `initial` and `tour` are tours of the stops from the depot;
   * `initial` takes at every step the nearest stop not yet visited (the
   * first one on a tie), and `tour` is no longer than `initial` and admits
   * no shorter 2-opt move.
   */
  ghost predicate Planned(stops: seq<Stop>, depot: nat, dist: DistanceFn, matrix: Matrix,
                          initial: seq<nat>, tour: seq<nat>)
  {
    && |matrix| == |stops| && IsSquare(matrix)
    && (forall i, j :: 0 <= i < |stops| && 0 <= j < |stops| ==>
          matrix[i][j] == if i == j then 0.0 else StopDistance(dist, stops[i], stops[j]))
    && IsTour(initial, |stops|, depot) && IsTour(tour, |stops|, depot)
    && (forall t :: 1 <= t < |stops| ==> NearestChoice(matrix, initial[..t], initial[t]))
    && RouteDistance(tour, matrix) <= RouteDistance(initial, matrix)
    && LocallyOptimal(tour, matrix)
  }

  /**
   * The tour optimizeRoute visits the stops in: the nearest-neighbour tour
   * from the depot, improved by 2-opt over the stops' distance matrix.
   */
  method PlanTour(stops: seq<Stop>, depot: nat, dist: DistanceFn)
    returns (tour: seq<nat>, ghost matrix: Matrix, ghost initial: seq<nat>)
    requires depot < |stops|
    ensures Planned(stops, depot, dist, matrix, initial, tour)
  {
    var distanceMatrix := BuildDistanceMatrix(stops, dist);
    matrix := distanceMatrix;
    var nearest := NearestNeighbor(distanceMatrix, depot);
    initial := nearest;
    tour := TwoOpt(nearest, distanceMatrix);
    TourRearranged(initial, tour, matrix, depot);
  }

  /** With the fallback legs, a planned tour's total distance is its length in the matrix. */
  lemma PlannedFallbackDistance(stops: seq<Stop>, depot: nat, dist: DistanceFn, matrix: Matrix,
                                initial: seq<nat>, tour: seq<nat>, routing: Routing)
    requires |stops| >= 2 && Planned(stops, depot, dist, matrix, initial, tour)
    requires IsFallback(StopsOf(stops, tour), dist, routing)
    ensures SumDistance(routing.legs) == RouteDistance(tour, matrix)
  {
    TourMoves(tour, |stops|, depot);
    FallbackDistance(stops, dist, matrix, tour, routing.legs);
  }

  /**
   * optimizeRoute. Fails with TooFewStops for fewer than two stops, then
   * with DepotNotFound when no stop has the depot id, before any other work.
   * Otherwise the nearest-neighbour tour from the depot, improved by 2-opt,
   * orders the stops, which start and end at the depot and visit every
   * other stop once, and RouteOrdered completes the route. With the
   * fallback legs the total distance is the tour's length in the matrix.
   */
  method OptimizeRoute(stops: seq<Stop>, depotId: string, departureTime: string, dist: DistanceFn,
                       service: seq<Stop> -> Option<Routing>)
    returns (r: Result<OptimizedRoute, RouteError>, ghost matrix: Matrix, ghost initial: seq<nat>,
             ghost tour: seq<nat>, ghost routing: Routing)
    ensures |stops| < 2 ==> r == Failure(TooFewStops)
    ensures |stops| >= 2 && FindIndex(stops, depotId) == -1 ==> r == Failure(DepotNotFound)
    ensures r.Failure? ==> r.error == TooFewStops || r.error == DepotNotFound || r.error == MissingLeg
    ensures |stops| >= 2 && FindIndex(stops, depotId) >= 0 ==>
      Planned(stops, FindIndex(stops, depotId), dist, matrix, initial, tour)
    ensures |stops| >= 2 && FindIndex(stops, depotId) >= 0 ==>
      && (service(StopsOf(stops, tour)).Some? ==> routing == service(StopsOf(stops, tour)).value)
      && (service(StopsOf(stops, tour)).None? ==> IsFallback(StopsOf(stops, tour), dist, routing))
      && (r.Success? <==> |routing.legs| >= |stops|)
    ensures |stops| >= 2 && FindIndex(stops, depotId) >= 0 && service(StopsOf(stops, tour)).None? ==> r.Success?
    ensures r.Success? ==>
      && |stops| >= 2 && FindIndex(stops, depotId) >= 0
      && r.value == Assembled(StopsOf(stops, tour), routing, departureTime)
      && r.value.orderedStops[0].id == depotId
      && r.value.orderedStops[|stops|].id == depotId
    ensures r.Success? && service(r.value.orderedStops).None? ==>
      r.value.totalDistance == RouteDistance(tour, matrix)
  {
    matrix, initial, tour, routing := [], [], [], Routing([], []);
    if |stops| < 2 {
      return Failure(TooFewStops), matrix, initial, tour, routing;
    }
    var depotIndex := FindIndex(stops, depotId);
    if depotIndex == -1 {
      return Failure(DepotNotFound), matrix, initial, tour, routing;
    }
    var optimizedIndices;
    optimizedIndices, matrix, initial := PlanTour(stops, depotIndex, dist);
    tour := optimizedIndices;
    var orderedStops := StopsOf(stops, optimizedIndices);
    assert |orderedStops| == |stops| + 1;
    assert orderedStops[0].id == depotId && orderedStops[|stops|].id == depotId by {
      assert orderedStops[0] == stops[tour[0]] && orderedStops[|stops|] == stops[tour[|stops|]];
    }
    r, routing := RouteOrdered(orderedStops, departureTime, dist, service);
    if service(orderedStops).None? {
      PlannedFallbackDistance(stops, depotIndex, dist, matrix, initial, tour, routing);
    }
  }

  /** The default departure time reads as 480 minutes after midnight. */
  lemma DefaultDepartureMinutes()
    ensures ParseTime(DefaultDepartureTime) == Some(480)
  {
    var s := DefaultDepartureTime;
    assert s == "08" + ":" + "00";
    ParseColon("08", "00");
    assert DigitsValue("08") == 8 by {
      TwoDigitsValue("08");
    }
    assert DigitsValue("00") == 0 by {
      TwoDigitsValue("00");
    }
  }
}
