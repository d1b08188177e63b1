/** Records of the route engine (src/types/route.ts). */
module RouteTypes {
  import opened Wrappers

  /** A latitude/longitude pair, in degrees. */
  type LatLng = (real, real)

  /**
   * A stop to visit. serviceTime is in minutes; the time window bounds are
   * "HH:mm" strings and count as set only when present and non-empty.
   * isDepot is advisory: the depot is named by the depotId argument.
   */
  datatype Stop = Stop(
    id: string,
    name: string,
    address: string,
    lat: real,
    lng: real,
    serviceTime: real,
    timeWindowStart: Option<string>,
    timeWindowEnd: Option<string>,
    isDepot: Option<bool>)

  /** One turn instruction of a leg; distance in metres, duration in seconds. */
  datatype RouteStep = RouteStep(instruction: string, distance: real, duration: real, name: string)

  /** The drive between two consecutive stops; distance in metres, duration in seconds. */
  datatype RouteLeg = RouteLeg(
    fromStop: Stop,
    toStop: Stop,
    distance: real,
    duration: real,
    steps: seq<RouteStep>,
    geometry: seq<LatLng>)

  /** Legs and full geometry, as the routing service or the straight-line fallback gives them. */
  datatype Routing = Routing(legs: seq<RouteLeg>, geometry: seq<LatLng>)

  datatype StopEta = StopEta(stopId: string, eta: string, departure: string)

  datatype Violation = Violation(stopId: string, reason: string)

  datatype OptimizedRoute = OptimizedRoute(
    orderedStops: seq<Stop>,
    legs: seq<RouteLeg>,
    totalDistance: real,
    totalDuration: real,
    perStopETA: seq<StopEta>,
    timeWindowViolations: seq<Violation>,
    geometry: seq<LatLng>)

  /**
   * The straight-line distance in metres between (lat1, lng1) and (lat2, lng2).
   * The source computes it with the Haversine formula; here it is a parameter.
   */
  type DistanceFn = (real, real, real, real) -> real

  function StopDistance(dist: DistanceFn, a: Stop, b: Stop): real
  {
    dist(a.lat, a.lng, b.lat, b.lng)
  }
}
