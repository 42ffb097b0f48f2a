/**
 * The records exchanged between the backend and the web client (the API's
 * pydantic schema and the generated TypeScript client types), reduced to the
 * fields that the modelled logic reads or writes. Times of day are seconds
 * since the start of the service day; a field the source treats as nullable is
 * an `Option`.
 */
module Schema {
  import opened Wrappers

  /** A GeoJSON position: longitude first. */
  datatype Coord = Coord(lon: real, lat: real)

  datatype Stop = Stop(name: string, lat: real, lon: real, county: Option<string>)

  datatype StopTime = StopTime(
    scheduledArrival: Option<int>,
    realtimeArrival: Option<int>,
    scheduledDeparture: Option<int>,
    realtimeDeparture: Option<int>,
    stop: Stop)

  datatype Route = Route(shortName: string, longName: string)

  datatype InfoService = InfoService(name: string, fromStopIndex: int, tillStopIndex: int)

  /** `geometry` is the encoded polyline of `tripGeometry.points`, `None` when absent. */
  datatype Trip = Trip(
    serviceDate: string,
    tripShortName: string,
    route: Route,
    geometry: Option<string>,
    stoptimes: seq<StopTime>,
    infoServices: seq<InfoService>)

  datatype ProcessedStop = ProcessedStop(id: string, originalCoords: Coord, distanceAlongRoute: real)

  datatype VehicleProgress = VehicleProgress(lastStop: string, nextStop: string, progress: real)

  /**
   * A vehicle position as the API serves it to the web client: `lastUpdated`
   * in epoch seconds, `delay` in whole minutes, `trainPosition` the distance
   * along the route.
   */
  datatype VehiclePosition = VehiclePosition(
    vehicleId: string,
    lat: real,
    lon: real,
    speed: real,
    lastUpdated: int,
    delay: int,
    trip: Trip,
    trainPosition: real,
    processedStops: seq<ProcessedStop>)

  /**
   * The JSON object cached under the train-positions key: the write time in
   * epoch milliseconds, the `noDataReceived` flag (absent in an object written
   * without it) and the position list.
   */
  datatype CachedPositions<L> = CachedPositions(timestamp: int, noDataReceived: Option<bool>, locations: seq<L>)
}
