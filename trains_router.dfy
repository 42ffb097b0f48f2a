/**
 * The cache-age gate of the trains endpoint (apps/api/api/routers/trains.py,
 * `get_trains`): what the endpoint answers for a given cache read and clock.
 * The Redis read and the JSON decoding are one input, `CacheRead`; the
 * clock `int(time.time() * 1000)` is `nowMs`.
 */
module TrainsRouter {
  import opened Wrappers
  import opened Schema
  import opened RedisKeys

  /** `settings.MAX_STALE_DATA_AGE`, in milliseconds (15 minutes). */
  const MaxStaleDataAgeMs := 900000

  /**
   * The outcome of reading and decoding the cache entry: the read or the
   * decoding raised, nothing (or an empty value) was stored, or an entry was
   * decoded.
   */
  datatype CacheRead<L> = ReadFailed | Empty | Entry(data: CachedPositions<L>)

  /**
   * The endpoint's answer. `timestampMs` is the time the response reports:
   * the cache entry's timestamp, or the current time when there is none.
   */
  datatype Response<L> =
    | Served(timestampMs: int, noDataReceived: bool, dataAgeMinutes: int, locations: seq<L>)
    | ServerError(status: int, errorLocations: seq<L>)

  /** `data_age_ms // 60000`: Python floor division. */
  function AgeMinutes(ageMs: int): (m: int)
    ensures 60000 * m <= ageMs < 60000 * (m + 1)
  {
    ageMs / 60000
  }

  /** The store lookup under the shared key: an absent key is an empty read. */
  function Lookup<L>(store: map<string, CachedPositions<L>>): CacheRead<L> {
    if TrainPositionsKey in store then Entry(store[TrainPositionsKey]) else Empty
  }

  /** `get_trains`. */
  function GetTrains<L>(read: CacheRead<L>, nowMs: int): (r: Response<L>)
    ensures read.ReadFailed? <==> r.ServerError?
    ensures r.ServerError? ==> r.status == 500 && r.errorLocations == []
    ensures read.Empty? ==> r == Served(nowMs, true, 0, [])
    ensures read.Entry? ==>
              var ageMs := nowMs - read.data.timestamp;
              r.Served? && r.timestampMs == read.data.timestamp
              && r.dataAgeMinutes * 60000 <= ageMs < (r.dataAgeMinutes + 1) * 60000
              && (ageMs > MaxStaleDataAgeMs ==> r.noDataReceived && r.locations == [])
              && (ageMs <= MaxStaleDataAgeMs ==>
                    r.noDataReceived == read.data.noDataReceived.GetOr(false)
                    && r.locations == read.data.locations)
  {
    match read
    case ReadFailed => ServerError(500, [])
    case Empty => Served(nowMs, true, 0, [])
    case Entry(data) =>
      var ageMs := nowMs - data.timestamp;
      var minutes := AgeMinutes(ageMs);
      if ageMs > MaxStaleDataAgeMs then Served(data.timestamp, true, minutes, [])
      else Served(data.timestamp, data.noDataReceived.GetOr(false), minutes, data.locations)
  }

  /** An entry exactly 15 minutes old is still served. */
  lemma AgeAtLimitServed<L>(data: CachedPositions<L>)
    ensures GetTrains(Entry(data), data.timestamp + MaxStaleDataAgeMs).locations == data.locations
    ensures GetTrains(Entry(data), data.timestamp + MaxStaleDataAgeMs).dataAgeMinutes == 15
  {
  }

  /** One millisecond later it is withheld. */
  lemma AgeBeyondLimitWithheld<L>(data: CachedPositions<L>)
    ensures GetTrains(Entry(data), data.timestamp + MaxStaleDataAgeMs + 1).locations == []
    ensures GetTrains(Entry(data), data.timestamp + MaxStaleDataAgeMs + 1).noDataReceived
  {
  }

  /** An entry without the `noDataReceived` field is served as data received. */
  lemma MissingNoDataFlagDefaultsFalse<L>(timestamp: int, locations: seq<L>, nowMs: int)
    requires timestamp <= nowMs <= timestamp + MaxStaleDataAgeMs
    ensures !GetTrains(Entry(CachedPositions(timestamp, None, locations)), nowMs).noDataReceived
  {
  }
}
