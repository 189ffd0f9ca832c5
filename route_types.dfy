/**
 * Shared vocabulary of the fuel-stop planner: route vertices, station records,
 * stop records, the plan result, the distance primitive and unit conversion.
 */
module RouteTypes {

  /** A polyline vertex, longitude first as in the route geometry. */
  datatype Point = Point(lon: real, lat: real)

  /** A station record as the catalog delivers it (price per gallon). */
  datatype Station = Station(name: string, lat: real, lon: real, price: real)

  /** One forced refuelling event. */
  datatype Stop = Stop(station: Station, stopCoord: Point, distanceFromStartM: real, gallons: real, cost: real)

  /** The record a planning call returns. */
  datatype PlanResult = PlanResult(
    totalDistanceM: real,
    totalDistanceMiles: real,
    totalGallons: real,
    stops: seq<Stop>,
    estimatedCost: real)

  /** The keyword parameters of the planner, with the source's defaults below. */
  datatype PlanOptions = PlanOptions(maxRangeM: real, mpg: real, radiusM: real)

  datatype Result<+T, +E> = Ok(value: T) | Err(error: E)

  const MetersPerMile: real := 1609.344

  /** 500 miles on a full tank, 10 miles per gallon, 50 km search radius. */
  const DefaultOptions: PlanOptions := PlanOptions(500.0 * MetersPerMile, 10.0, 50000.0)

  /**
   * The great-circle distance in metres from the first point to the second.
   * The haversine formula itself is floating-point trigonometry; the model
   * takes the distance as a parameter of this type instead.
   */
  type Distance = (Point, Point) -> real

  /** What the model assumes of the distance where a property needs it. */
  ghost predicate NonNegative(dist: Distance)
  {
    forall p, q :: dist(p, q) >= 0.0
  }

  /** The position of a station as a point. */
  function StationPoint(s: Station): Point
  {
    Point(s.lon, s.lat)
  }

  /** Metres to statute miles; converting back gives the input again. */
  function MetersToMiles(m: real): (miles: real)
    ensures miles * MetersPerMile == m
    ensures miles >= 0.0 <==> m >= 0.0
  {
    m / MetersPerMile
  }
}
