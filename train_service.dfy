/**
 * The backend's refresh pipeline (apps/api/api/services/train_service.py):
 * the raw vehicle positions fetched from the GraphQL endpoint are
 * deduplicated by vehicle id, enriched with the county of every stop, given
 * their delay and route progress, filtered for age and written to the cache.
 *
 * The county lookup (`get_county_for_point`) and `get_delay_and_position`
 * (polyline decoding and the shapely projections around it) are function
 * parameters; the clock readings are `nowMs` (the cache timestamp) and `now`
 * (the epoch seconds `should_remove` compares against).
 */
module TrainService {
  import opened Wrappers
  import opened Schema
  import opened Seqs
  import opened RedisKeys
  import ApiVehicle
  import TrainsRouter

  /**
   * A position dict as the service handles it. `vehicleId` is "" where the
   * key is missing, `None` or empty (all falsy); `lastUpdated` is in epoch
   * seconds. `enrichment` holds the keys `process_locations` adds.
   */
  datatype Location = Location(
    vehicleId: string,
    lastUpdated: Option<int>,
    lat: real,
    lon: real,
    heading: Option<real>,
    trip: Trip,
    enrichment: Option<Enrichment>)

  /** `delay` in whole minutes, the rest as `get_delay_and_position` computed it. */
  datatype Enrichment = Enrichment(
    delay: int,
    trainPosition: real,
    totalRouteDistance: real,
    processedStops: seq<ProcessedStop>,
    vehicleProgress: VehicleProgress)

  /** The result of `get_delay_and_position`: `delaySeconds` is still in seconds. */
  datatype DelayData = DelayData(
    delaySeconds: real,
    trainPosition: real,
    totalRouteDistance: real,
    processedStops: seq<ProcessedStop>,
    vehicleProgress: VehicleProgress)

  /** `loc.get("lastUpdated", 0)`. */
  function LastUpdated(loc: Location): int {
    loc.lastUpdated.GetOr(0)
  }

  // ---------------------------------------------------------------------
  // dedupe_by_vehicle_id
  // ---------------------------------------------------------------------

  /**
   * Index of the entry the dedupe holds for `id` after scanning `s`, or -1.
   * A later entry of the id replaces the held one only when strictly newer.
   */
  function LatestIndex(s: seq<Location>, id: string): (r: int)
    ensures -1 <= r < |s|
    ensures 0 <= r ==> id != "" && s[r].vehicleId == id
    decreases |s|
  {
    if |s| == 0 || id == "" then -1
    else
      var n := |s| - 1;
      var p := LatestIndex(s[..n], id);
      if s[n].vehicleId != id then p
      else if p < 0 || LastUpdated(s[n]) > LastUpdated(s[p]) then n
      else p
  }

  /** Every non-empty id that occurs has a held entry. */
  lemma {:induction false} LatestIndexFound(s: seq<Location>, k: int)
    requires 0 <= k < |s| && s[k].vehicleId != ""
    ensures 0 <= LatestIndex(s, s[k].vehicleId)
    decreases |s|
  {
    var n := |s| - 1;
    if k < n {
      assert s[..n][k] == s[k];
      LatestIndexFound(s[..n], k);
    }
  }

  /**
   * The held entry has the largest `lastUpdated` (missing counts as 0) among
   * the entries of its id, and every earlier entry of the id is strictly
   * older: ties keep the earliest.
   */
  lemma {:induction false} LatestIndexIsLatest(s: seq<Location>, id: string)
    requires 0 <= LatestIndex(s, id)
    ensures forall k :: 0 <= k < |s| && s[k].vehicleId == id ==> LastUpdated(s[k]) <= LastUpdated(s[LatestIndex(s, id)])
    ensures forall k :: 0 <= k < LatestIndex(s, id) && s[k].vehicleId == id ==> LastUpdated(s[k]) < LastUpdated(s[LatestIndex(s, id)])
    decreases |s|
  {
    var n := |s| - 1;
    var p := LatestIndex(s[..n], id);
    var r := LatestIndex(s, id);
    assert forall k :: 0 <= k < n ==> s[..n][k] == s[k];
    if 0 <= p {
      LatestIndexIsLatest(s[..n], id);
    } else {
      forall k | 0 <= k < n ensures s[k].vehicleId != id {
        if s[k].vehicleId == id {
          LatestIndexFound(s[..n], k);
        }
      }
    }
  }

  /** The distinct non-empty ids of `s`, in the order of their first occurrence. */
  function FirstOccurrences(s: seq<Location>): (ids: seq<string>)
    ensures forall i, j :: 0 <= i < j < |ids| ==> ids[i] != ids[j]
    decreases |s|
  {
    if |s| == 0 then []
    else
      var n := |s| - 1;
      var ids := FirstOccurrences(s[..n]);
      var id := s[n].vehicleId;
      if id == "" || id in ids then ids else ids + [id]
  }

  /** An id is listed exactly when the dedupe holds an entry for it. */
  lemma {:induction false} FirstOccurrencesIff(s: seq<Location>, id: string)
    ensures id in FirstOccurrences(s) <==> 0 <= LatestIndex(s, id)
    decreases |s|
  {
    if |s| > 0 {
      var n := |s| - 1;
      FirstOccurrencesIff(s[..n], id);
    }
  }

  /** The listed ids are exactly the non-empty ids that occur. */
  lemma FirstOccurrencesMembers(s: seq<Location>, id: string)
    ensures id in FirstOccurrences(s) <==> id != "" && exists k :: 0 <= k < |s| && s[k].vehicleId == id
  {
    FirstOccurrencesIff(s, id);
    if id != "" && exists k :: 0 <= k < |s| && s[k].vehicleId == id {
      var k :| 0 <= k < |s| && s[k].vehicleId == id;
      LatestIndexFound(s, k);
    }
  }

  /** What `dedupe_by_vehicle_id` returns: the held entry of each id, in first-occurrence order. */
  function Deduped(s: seq<Location>): (r: seq<Location>)
    ensures |r| == |FirstOccurrences(s)|
  {
    var ids := FirstOccurrences(s);
    seq(|ids|, i requires 0 <= i < |ids| =>
      FirstOccurrencesIff(s, ids[i]);
      s[LatestIndex(s, ids[i])])
  }

  /** One more entry scanned: the held index for `id`. */
  lemma LatestIndexStep(s: seq<Location>, i: int, id: string)
    requires 0 <= i < |s|
    ensures var p := LatestIndex(s[..i], id);
            LatestIndex(s[..i + 1], id)
              == if id == "" || s[i].vehicleId != id then p
                 else if p < 0 || LastUpdated(s[i]) > LastUpdated(s[p]) then i
                 else p
  {
    assert s[..i + 1][..i] == s[..i];
  }

  /** One more entry scanned: the ids in first-occurrence order. */
  lemma FirstOccurrencesStep(s: seq<Location>, i: int)
    requires 0 <= i < |s|
    ensures var ids := FirstOccurrences(s[..i]);
            var id := s[i].vehicleId;
            FirstOccurrences(s[..i + 1]) == if id == "" || id in ids then ids else ids + [id]
  {
    assert s[..i + 1][..i] == s[..i];
  }

  /**
   * The dict of `dedupe_by_vehicle_id` after scanning `s`. The Python dict
   * keeps its keys in insertion order and a replaced value keeps its place;
   * here it is the key sequence `order` beside the map `latest`.
   */
  ghost predicate Tracks(s: seq<Location>, order: seq<string>, latest: map<string, Location>) {
    && order == FirstOccurrences(s)
    && (forall id :: id in latest <==> id in order)
    && (forall id :: id in latest ==> 0 <= LatestIndex(s, id) && latest[id] == s[LatestIndex(s, id)])
  }

  /** The entries held for ids other than the scanned entry's stay as they were. */
  lemma StoredOthersUnchanged(s: seq<Location>, i: int, order: seq<string>, latest: map<string, Location>)
    requires 0 <= i < |s| && Tracks(s[..i], order, latest)
    ensures forall other :: other in latest && other != s[i].vehicleId ==>
              0 <= LatestIndex(s[..i + 1], other) && latest[other] == s[LatestIndex(s[..i + 1], other)]
  {
    forall other | other in latest && other != s[i].vehicleId
      ensures 0 <= LatestIndex(s[..i + 1], other) && latest[other] == s[LatestIndex(s[..i + 1], other)]
    {
      LatestIndexStep(s, i, other);
    }
  }

  /** Scanning an entry without an id, or one not newer than the held entry, changes nothing. */
  lemma TracksKeep(s: seq<Location>, i: int, order: seq<string>, latest: map<string, Location>)
    requires 0 <= i < |s| && Tracks(s[..i], order, latest)
    requires s[i].vehicleId == "" || (s[i].vehicleId in latest && LastUpdated(s[i]) <= LastUpdated(latest[s[i].vehicleId]))
    ensures Tracks(s[..i + 1], order, latest)
  {
    FirstOccurrencesStep(s, i);
    StoredOthersUnchanged(s, i, order, latest);
    var id := s[i].vehicleId;
    if id != "" {
      LatestIndexStep(s, i, id);
    }
  }

  /** Scanning a strictly newer entry of a held id replaces the held entry in place. */
  lemma TracksReplace(s: seq<Location>, i: int, order: seq<string>, latest: map<string, Location>)
    requires 0 <= i < |s| && Tracks(s[..i], order, latest)
    requires s[i].vehicleId in latest && LastUpdated(s[i]) > LastUpdated(latest[s[i].vehicleId])
    ensures Tracks(s[..i + 1], order, latest[s[i].vehicleId := s[i]])
  {
    FirstOccurrencesStep(s, i);
    StoredOthersUnchanged(s, i, order, latest);
    LatestIndexStep(s, i, s[i].vehicleId);
  }

  /** Scanning the first entry of an id appends the id and holds the entry. */
  lemma TracksAdd(s: seq<Location>, i: int, order: seq<string>, latest: map<string, Location>)
    requires 0 <= i < |s| && Tracks(s[..i], order, latest)
    requires s[i].vehicleId != "" && s[i].vehicleId !in latest
    ensures Tracks(s[..i + 1], order + [s[i].vehicleId], latest[s[i].vehicleId := s[i]])
  {
    var id := s[i].vehicleId;
    var s', order', latest' := s[..i + 1], order + [id], latest[id := s[i]];
    assert order' == FirstOccurrences(s') by {
      FirstOccurrencesStep(s, i);
    }
    assert forall x :: x in latest' <==> x in order' by {
      forall x ensures x in latest' <==> x in order' {
        assert x in order' <==> x in order || x == id;
      }
    }
    assert 0 <= LatestIndex(s', id) && latest'[id] == s'[LatestIndex(s', id)] by {
      FirstOccurrencesIff(s[..i], id);
      LatestIndexStep(s, i, id);
    }
    assert forall x :: x in latest' ==> 0 <= LatestIndex(s', x) && latest'[x] == s'[LatestIndex(s', x)] by {
      StoredOthersUnchanged(s, i, order, latest);
    }
  }

  /** `dedupe_by_vehicle_id`. */
  method DedupeByVehicleId(locations: seq<Location>) returns (r: seq<Location>)
    ensures r == Deduped(locations)
  {
    var order: seq<string> := [];
    var latest: map<string, Location> := map[];
    for i := 0 to |locations|
      invariant Tracks(locations[..i], order, latest)
    {
      var loc := locations[i];
      var id := loc.vehicleId;
      if id == "" {
        TracksKeep(locations, i, order, latest);
        continue;
      }
      if id !in latest {
        TracksAdd(locations, i, order, latest);
        order := order + [id];
        latest := latest[id := loc];
      } else if LastUpdated(loc) > LastUpdated(latest[id]) {
        TracksReplace(locations, i, order, latest);
        latest := latest[id := loc];
      } else {
        TracksKeep(locations, i, order, latest);
      }
    }
    assert locations[..|locations|] == locations;
    r := [];
    for j := 0 to |order|
      invariant |r| == j
      invariant forall k :: 0 <= k < j ==> r[k] == latest[order[k]]
    {
      r := r + [latest[order[j]]];
    }
  }

  /** Index of the first entry with `id`, or -1. */
  function FirstIndexOf(s: seq<Location>, id: string): (r: int)
    ensures -1 <= r < |s|
    ensures 0 <= r ==> s[r].vehicleId == id
    ensures forall k :: 0 <= k < |s| && (r < 0 || k < r) ==> s[k].vehicleId != id
  {
    if |s| == 0 then -1
    else if s[0].vehicleId == id then 0
    else
      var j := FirstIndexOf(s[1..], id);
      assert forall k :: 1 <= k < |s| ==> s[1..][k - 1] == s[k];
      if j < 0 then -1 else j + 1
  }

  /** An id occurring in a prefix has its first occurrence there. */
  lemma FirstIndexOfPrefix(s: seq<Location>, n: nat, id: string)
    requires n <= |s| && 0 <= FirstIndexOf(s[..n], id)
    ensures FirstIndexOf(s, id) == FirstIndexOf(s[..n], id)
  {
    var p := FirstIndexOf(s[..n], id);
    assert s[..n][p] == s[p];
    assert forall k :: 0 <= k < p ==> s[..n][k] == s[k];
  }

  /** The `i`-th result is the held entry of the `i`-th listed id. */
  lemma DedupedAt(s: seq<Location>, i: int)
    requires 0 <= i < |Deduped(s)|
    ensures 0 <= LatestIndex(s, FirstOccurrences(s)[i])
    ensures Deduped(s)[i] == s[LatestIndex(s, FirstOccurrences(s)[i])]
    ensures Deduped(s)[i].vehicleId == FirstOccurrences(s)[i] != ""
  {
    FirstOccurrencesIff(s, FirstOccurrences(s)[i]);
  }

  /** Entries without an id are dropped, and no id is kept twice. */
  lemma DedupedUniqueIds(s: seq<Location>)
    ensures forall i :: 0 <= i < |Deduped(s)| ==> Deduped(s)[i].vehicleId != ""
    ensures forall i, j :: 0 <= i < j < |Deduped(s)| ==> Deduped(s)[i].vehicleId != Deduped(s)[j].vehicleId
  {
    forall i | 0 <= i < |Deduped(s)| ensures Deduped(s)[i].vehicleId == FirstOccurrences(s)[i] != "" {
      DedupedAt(s, i);
    }
  }

  /** Every non-empty input id is kept, so (with `DedupedUniqueIds`) exactly once. */
  lemma DedupedCoversIds(s: seq<Location>, k: int)
    requires 0 <= k < |s| && s[k].vehicleId != ""
    ensures exists i :: 0 <= i < |Deduped(s)| && Deduped(s)[i].vehicleId == s[k].vehicleId
  {
    var ids := FirstOccurrences(s);
    var id := s[k].vehicleId;
    FirstOccurrencesMembers(s, id);
    var i :| 0 <= i < |ids| && ids[i] == id;
    DedupedAt(s, i);
  }

  /**
   * Each kept entry is an input entry with the largest `lastUpdated` (missing
   * counts as 0) among the entries of its id, and no earlier entry of its id
   * is as new.
   */
  lemma DedupedKeepsLatest(s: seq<Location>, i: int)
    requires 0 <= i < |Deduped(s)|
    ensures exists j :: 0 <= j < |s| && s[j] == Deduped(s)[i]
              && (forall k :: 0 <= k < j && s[k].vehicleId == s[j].vehicleId ==> LastUpdated(s[k]) < LastUpdated(s[j]))
    ensures forall k :: 0 <= k < |s| && s[k].vehicleId == Deduped(s)[i].vehicleId ==>
              LastUpdated(s[k]) <= LastUpdated(Deduped(s)[i])
  {
    DedupedAt(s, i);
    var id := FirstOccurrences(s)[i];
    LatestIndexIsLatest(s, id);
    var j := LatestIndex(s, id);
    assert s[j] == Deduped(s)[i];
  }

  /** The ids come out in the order of their first occurrence in the input. */
  lemma {:induction false} FirstOccurrencesInOrder(s: seq<Location>)
    ensures forall i, j :: 0 <= i < j < |FirstOccurrences(s)| ==>
              FirstIndexOf(s, FirstOccurrences(s)[i]) < FirstIndexOf(s, FirstOccurrences(s)[j])
    decreases |s|
  {
    if |s| > 0 {
      var n := |s| - 1;
      var prev := FirstOccurrences(s[..n]);
      FirstOccurrencesInOrder(s[..n]);
      forall i | 0 <= i < |prev|
        ensures 0 <= FirstIndexOf(s[..n], prev[i]) < n
        ensures FirstIndexOf(s, prev[i]) == FirstIndexOf(s[..n], prev[i])
      {
        FirstOccurrencesIff(s[..n], prev[i]);
        var k := LatestIndex(s[..n], prev[i]);
        assert s[..n][k].vehicleId == prev[i];
        FirstIndexOfPrefix(s, n, prev[i]);
      }
      var id := s[n].vehicleId;
      var cur := FirstOccurrences(s);
      if id != "" && id !in prev {
        assert FirstIndexOf(s, id) == n by {
          forall k | 0 <= k < n ensures s[k].vehicleId != id {
            if s[k].vehicleId == id {
              assert s[..n][k] == s[k];
              FirstOccurrencesMembers(s[..n], id);
            }
          }
        }
        assert cur == prev + [id];
      } else {
        assert cur == prev;
      }
      forall i, j | 0 <= i < j < |cur| ensures FirstIndexOf(s, cur[i]) < FirstIndexOf(s, cur[j]) {
        assert cur[i] == prev[i];
        if j < |prev| {
          assert cur[j] == prev[j];
        }
      }
    }
  }

  lemma DedupedInOrder(s: seq<Location>)
    ensures forall i, j :: 0 <= i < j < |Deduped(s)| ==>
              FirstIndexOf(s, Deduped(s)[i].vehicleId) < FirstIndexOf(s, Deduped(s)[j].vehicleId)
  {
    FirstOccurrencesInOrder(s);
    forall i | 0 <= i < |Deduped(s)| ensures Deduped(s)[i].vehicleId == FirstOccurrences(s)[i] {
      DedupedAt(s, i);
    }
  }

  // ---------------------------------------------------------------------
  // add_counties_to_locations
  // ---------------------------------------------------------------------

  /** `process_stoptime`: the stop gets the county of its coordinates. */
  function WithCounty(st: StopTime, county: (real, real) -> Option<string>): StopTime {
    st.(stop := st.stop.(county := county(st.stop.lat, st.stop.lon)))
  }

  /** `process_location`: every stop time of the trip gets its county. */
  function WithCounties(loc: Location, county: (real, real) -> Option<string>): Location {
    var sts := loc.trip.stoptimes;
    loc.(trip := loc.trip.(stoptimes := seq(|sts|, j requires 0 <= j < |sts| => WithCounty(sts[j], county))))
  }

  /**
   * `add_counties_to_locations`: same length and order; each stop's county
   * is the lookup of its coordinates and nothing else differs. The result is
   * built from copies, which values are anyway.
   */
  function AddCounties(locations: seq<Location>, county: (real, real) -> Option<string>): (r: seq<Location>)
    ensures |r| == |locations|
    ensures forall i :: 0 <= i < |r| ==> r[i].(trip := locations[i].trip) == locations[i]
    ensures forall i :: 0 <= i < |r| ==> r[i].trip.(stoptimes := locations[i].trip.stoptimes) == locations[i].trip
    ensures forall i :: 0 <= i < |r| ==> |r[i].trip.stoptimes| == |locations[i].trip.stoptimes|
    ensures forall i, j :: 0 <= i < |r| && 0 <= j < |r[i].trip.stoptimes| ==>
              var before := locations[i].trip.stoptimes[j];
              var after := r[i].trip.stoptimes[j];
              after.stop.county == county(before.stop.lat, before.stop.lon)
              && after.(stop := before.stop) == before
              && after.stop.(county := before.stop.county) == before.stop
  {
    seq(|locations|, i requires 0 <= i < |locations| => WithCounties(locations[i], county))
  }

  /** Enriching twice gives the same as enriching once: the lookup reads only coordinates. */
  lemma AddCountiesIdempotent(locations: seq<Location>, county: (real, real) -> Option<string>)
    ensures AddCounties(AddCounties(locations, county), county) == AddCounties(locations, county)
  {
    var once := AddCounties(locations, county);
    var twice := AddCounties(once, county);
    forall i | 0 <= i < |locations| ensures twice[i] == once[i] {
      assert twice[i].trip.stoptimes == once[i].trip.stoptimes;
    }
  }

  // ---------------------------------------------------------------------
  // process_locations
  // ---------------------------------------------------------------------

  /** Python's `round` on a float: to the nearest integer, halves to the even one. */
  function PyRound(x: real): (r: int)
    ensures x - 0.5 <= r as real <= x + 0.5
    ensures (r as real == x - 0.5 || r as real == x + 0.5) ==> r % 2 == 0
  {
    var f := x.Floor;
    var frac := x - f as real;
    if frac < 0.5 then f
    else if frac > 0.5 then f + 1
    else if f % 2 == 0 then f
    else f + 1
  }

  /** Halves go to the even neighbour: 2.5 and 1.5 both round to 2, -0.5 to 0. */
  lemma PyRoundHalvesToEven()
    ensures PyRound(2.5) == 2 && PyRound(1.5) == 2 && PyRound(-0.5) == 0
  {
    assert (2.5).Floor == 2;
    assert (1.5).Floor == 1;
    assert (-0.5).Floor == -1;
  }

  /** `processed_location`: the copy with the five keys of the delay data added. */
  function Enrich(loc: Location, d: DelayData): (r: Location)
    ensures r == loc.(enrichment := r.enrichment) && r.enrichment.Some?
    ensures d.delaySeconds - 30.0 <= (r.enrichment.value.delay * 60) as real <= d.delaySeconds + 30.0
    ensures r.enrichment.value.(delay := 0) == Enrichment(0, d.trainPosition, d.totalRouteDistance, d.processedStops, d.vehicleProgress)
  {
    var m := PyRound(d.delaySeconds / 60.0);
    assert (m * 60) as real == m as real * 60.0;
    loc.(enrichment := Some(Enrichment(m, d.trainPosition, d.totalRouteDistance, d.processedStops, d.vehicleProgress)))
  }

  /**
   * Every position enriched in place of its own: all keys the source had are
   * kept, the delay is the computed delay in whole minutes and the other four
   * keys are copied from `get_delay_and_position`.
   */
  function Enriched(locations: seq<Location>, delayOf: Location -> DelayData): (r: seq<Location>)
    ensures |r| == |locations|
    ensures forall i :: 0 <= i < |r| ==> r[i] == locations[i].(enrichment := r[i].enrichment)
    ensures forall i :: 0 <= i < |r| ==>
              r[i].enrichment.Some? && r[i].enrichment.value.delay == PyRound(delayOf(locations[i]).delaySeconds / 60.0)
    ensures forall i :: 0 <= i < |r| ==>
              var e, d := r[i].enrichment.value, delayOf(locations[i]);
              e.trainPosition == d.trainPosition && e.totalRouteDistance == d.totalRouteDistance
              && e.processedStops == d.processedStops && e.vehicleProgress == d.vehicleProgress
  {
    seq(|locations|, i requires 0 <= i < |locations| => Enrich(locations[i], delayOf(locations[i])))
  }

  /** `should_remove` applied to a position dict. */
  function Expired(now: real): Location -> bool {
    (loc: Location) => ApiVehicle.ShouldRemove(loc.lastUpdated, now)
  }

  /**
   * `process_locations`: every position is enriched and kept unless it is
   * too old. `delayOf` is `get_delay_and_position` applied to the position's
   * own fields (computed at its `lastUpdated` time).
   */
  method ProcessLocations(locations: seq<Location>, delayOf: Location -> DelayData, now: real)
    returns (r: seq<Location>)
    ensures r == Filter(Enriched(locations, delayOf), Expired(now), false)
  {
    r := [];
    ghost var all := Enriched(locations, delayOf);
    for i := 0 to |locations|
      invariant r == Fresh(all[..i], now)
    {
      var processed := Enrich(locations[i], delayOf(locations[i]));
      assert all[..i + 1][..i] == all[..i];
      if !ApiVehicle.ShouldRemove(processed.lastUpdated, now) {
        r := r + [processed];
      }
    }
    assert all[..|locations|] == all;
    FreshIsFilter(all, now);
  }

  /** The positions of `s` that are not too old, built from the back as the loop does. */
  function Fresh(s: seq<Location>, now: real): seq<Location> {
    if |s| == 0 then []
    else
      var n := |s| - 1;
      Fresh(s[..n], now) + if ApiVehicle.ShouldRemove(s[n].lastUpdated, now) then [] else [s[n]]
  }

  lemma {:induction false} FreshIsFilter(s: seq<Location>, now: real)
    ensures Fresh(s, now) == Filter(s, Expired(now), false)
    decreases |s|
  {
    if |s| > 0 {
      var n := |s| - 1;
      FreshIsFilter(s[..n], now);
      FilterSnoc(s, Expired(now), false);
    }
  }

  /**
   * The processed list is an order-preserving subsequence of the enriched
   * positions holding exactly those that are not too old, each with its delay
   * rounded to whole minutes.
   */
  lemma ProcessedKeepsFresh(locations: seq<Location>, delayOf: Location -> DelayData, now: real)
    ensures var r := Filter(Enriched(locations, delayOf), Expired(now), false);
            IsSubsequence(r, Enriched(locations, delayOf))
            && (forall i :: 0 <= i < |locations| && !ApiVehicle.ShouldRemove(locations[i].lastUpdated, now) ==>
                  Enrich(locations[i], delayOf(locations[i])) in r)
            && (forall x :: x in r ==>
                  (!ApiVehicle.ShouldRemove(x.lastUpdated, now)
                   && x.enrichment.Some?
                   && exists i :: 0 <= i < |locations| && x == Enrich(locations[i], delayOf(locations[i]))))
  {
    var all := Enriched(locations, delayOf);
    FilterIsSubsequence(all, Expired(now), false);
    forall x | x in Filter(all, Expired(now), false)
      ensures exists i :: 0 <= i < |locations| && x == Enrich(locations[i], delayOf(locations[i]))
    {
      var i :| 0 <= i < |all| && all[i] == x;
    }
  }

  /** The rounded delay is within half a minute of the computed delay in seconds. */
  lemma EnrichedDelayRounds(loc: Location, d: DelayData)
    ensures var m := Enrich(loc, d).enrichment.value.delay;
            d.delaySeconds - 30.0 <= (m * 60) as real <= d.delaySeconds + 30.0
  {
    var m := PyRound(d.delaySeconds / 60.0);
    assert (m * 60) as real == m as real * 60.0;
  }

  // ---------------------------------------------------------------------
  // refresh_data
  // ---------------------------------------------------------------------

  /** A `redis.set` of a cache entry. */
  datatype CacheWrite = CacheWrite(key: string, entry: CachedPositions<Location>)

  /** The redis store after an optional write. */
  function Apply(store: map<string, CachedPositions<Location>>, w: Option<CacheWrite>): map<string, CachedPositions<Location>> {
    match w
    case None => store
    case Some(CacheWrite(key, entry)) => store[key := entry]
  }

  /** The positions a refresh caches for the raw list it fetched. */
  function Pipeline(raw: seq<Location>, county: (real, real) -> Option<string>,
                    delayOf: Location -> DelayData, now: real): (r: seq<Location>)
    ensures forall x :: x in r ==> x.vehicleId != "" && x.enrichment.Some? && !ApiVehicle.ShouldRemove(x.lastUpdated, now)
  {
    var deduped := Deduped(raw);
    var counted := AddCounties(deduped, county);
    DedupedUniqueIds(raw);
    ProcessedKeepsFresh(counted, delayOf, now);
    assert forall i :: 0 <= i < |counted| ==> counted[i].vehicleId == deduped[i].vehicleId != "";
    Filter(Enriched(counted, delayOf), Expired(now), false)
  }

  /**
   * `refresh_data` after the fetch: an empty raw list leaves the cache as it
   * is; otherwise the pipeline's result is written under the train-positions
   * key with timestamp `nowMs` and `noDataReceived` false. The emptiness
   * test looks at the raw list, not at the deduplicated one.
   */
  method RefreshData(raw: seq<Location>, nowMs: int, county: (real, real) -> Option<string>,
                     delayOf: Location -> DelayData, now: real)
    returns (w: Option<CacheWrite>)
    ensures w.None? <==> |raw| == 0
    ensures w.Some? ==> w.value == CacheWrite(TrainPositionsKey,
                                              CachedPositions(nowMs, Some(false), Pipeline(raw, county, delayOf, now)))
  {
    var locations := DedupeByVehicleId(raw);
    if |raw| == 0 {
      return None;
    }
    var withCounties := AddCounties(locations, county);
    var processed := ProcessLocations(withCounties, delayOf, now);
    return Some(CacheWrite(TrainPositionsKey, CachedPositions(nowMs, Some(false), processed)));
  }

  /** Raw positions that all lack an id still produce a write, of an empty list. */
  lemma AllIdsMissingWritesEmptyList(raw: seq<Location>, county: (real, real) -> Option<string>,
                                     delayOf: Location -> DelayData, now: real)
    requires forall k :: 0 <= k < |raw| ==> raw[k].vehicleId == ""
    ensures Pipeline(raw, county, delayOf, now) == []
  {
    assert |FirstOccurrences(raw)| == 0 by {
      if |FirstOccurrences(raw)| > 0 {
        FirstOccurrencesMembers(raw, FirstOccurrences(raw)[0]);
      }
    }
  }

  /**
   * What the trains endpoint answers after a refresh that wrote: within 15
   * minutes of the write it serves exactly the cached positions with
   * `noDataReceived` false, later it serves nothing.
   */
  lemma RefreshThenServe(store: map<string, CachedPositions<Location>>, w: CacheWrite, nowMs: int, readMs: int)
    requires w.key == TrainPositionsKey && w.entry.timestamp == nowMs && w.entry.noDataReceived == Some(false)
    requires nowMs <= readMs
    ensures var r := TrainsRouter.GetTrains(TrainsRouter.Lookup(Apply(store, Some(w))), readMs);
            r.Served? && r.timestampMs == nowMs
            && (readMs - nowMs <= TrainsRouter.MaxStaleDataAgeMs ==> !r.noDataReceived && r.locations == w.entry.locations)
            && (readMs - nowMs > TrainsRouter.MaxStaleDataAgeMs ==> r.noDataReceived && r.locations == [])
  {
    assert TrainsRouter.Lookup(Apply(store, Some(w))) == TrainsRouter.Entry(w.entry);
  }
}
