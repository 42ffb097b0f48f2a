/**
 * Route preprocessing for one vehicle (apps/api/api/util/preprocess.py):
 * the route's coordinates are swapped to GeoJSON order and deduplicated, the
 * stops are snapped to the route and ordered along it, the vehicle is
 * placed between its last and next stop, and its delay is interpolated from
 * the timetable.
 *
 * The shapely operations and the bearing trigonometry are the functions of
 * a `Geometry` value. The current service-day time is computed by
 * `ApiTime.SecondsSinceDayByCalendar`, the corrected form of
 * `get_seconds_since_day`.
 */
module Preprocess {
  import opened Wrappers
  import opened Schema
  import opened Sorting
  import ApiTime

  /**
   * The geometry the module leaves to shapely and `math`: `project`,
   * `interpolate`, `length` and `distance` of the line through a coordinate
   * list, and `calculate_bearing` between two points.
   */
  datatype Geometry = Geometry(
    project: (seq<Coord>, Coord) -> real,
    interpolate: (seq<Coord>, real) -> Coord,
    length: seq<Coord> -> real,
    distance: (seq<Coord>, Coord) -> real,
    bearing: (Coord, Coord) -> real)

  /** A decoded polyline point, latitude first. */
  datatype LatLon = LatLon(lat: real, lon: real)

  // ---------------------------------------------------------------------
  // Route coordinates
  // ---------------------------------------------------------------------

  /** `[[coord[1], coord[0]] for coord in route_coords]`. */
  function ToGeoJson(routeCoords: seq<LatLon>): (r: seq<Coord>)
    ensures |r| == |routeCoords|
  {
    seq(|routeCoords|, i requires 0 <= i < |routeCoords| => Coord(routeCoords[i].lon, routeCoords[i].lat))
  }

  function ToLatLon(coords: seq<Coord>): (r: seq<LatLon>)
    ensures |r| == |coords|
  {
    seq(|coords|, i requires 0 <= i < |coords| => LatLon(coords[i].lat, coords[i].lon))
  }

  /** The swap loses nothing: swapping back gives the decoded points. */
  lemma SwapRoundTrip(routeCoords: seq<LatLon>)
    ensures ToLatLon(ToGeoJson(routeCoords)) == routeCoords
  {
  }

  /** The elements of `s` without repeats, each kept where it first occurs. */
  function Dedup<T(==,!new)>(s: seq<T>): (r: seq<T>)
    ensures forall i, j :: 0 <= i < j < |r| ==> r[i] != r[j]
    ensures forall x :: x in r <==> x in s
    decreases |s|
  {
    if |s| == 0 then []
    else
      var n := |s| - 1;
      assert s == s[..n] + [s[n]];
      var p := Dedup(s[..n]);
      if s[n] in p then p else p + [s[n]]
  }

  /** The coordinate dedupe loop with its `seen` set. */
  method UniqueCoords(coords: seq<Coord>) returns (r: seq<Coord>)
    ensures r == Dedup(coords)
  {
    r := [];
    var seen: set<Coord> := {};
    for i := 0 to |coords|
      invariant r == Dedup(coords[..i])
      invariant seen == set x | x in r
    {
      assert coords[..i + 1][..i] == coords[..i];
      var c := coords[i];
      if c !in seen {
        r := r + [c];
        seen := seen + {c};
      }
    }
    assert coords[..|coords|] == coords;
  }

  /** Index of the first occurrence of `x` in `s`, or -1. */
  function FirstIndex<T(==,!new)>(s: seq<T>, x: T): (r: int)
    ensures -1 <= r < |s|
    ensures 0 <= r ==> s[r] == x
    ensures forall k :: 0 <= k < |s| && (r < 0 || k < r) ==> s[k] != x
  {
    if |s| == 0 then -1
    else if s[0] == x then 0
    else
      var j := FirstIndex(s[1..], x);
      assert forall k :: 1 <= k < |s| ==> s[1..][k - 1] == s[k];
      if j < 0 then -1 else j + 1
  }

  /** The kept points come in the order of their first occurrence. */
  lemma {:induction false} DedupInFirstOccurrenceOrder<T(!new)>(s: seq<T>)
    ensures forall i, j :: 0 <= i < j < |Dedup(s)| ==> FirstIndex(s, Dedup(s)[i]) < FirstIndex(s, Dedup(s)[j])
    decreases |s|
  {
    if |s| > 0 {
      var n := |s| - 1;
      var p := Dedup(s[..n]);
      DedupInFirstOccurrenceOrder(s[..n]);
      forall i | 0 <= i < |p|
        ensures FirstIndex(s, p[i]) == FirstIndex(s[..n], p[i]) < n
      {
        var f := FirstIndex(s[..n], p[i]);
        assert p[i] in s[..n];
        assert 0 <= f;
        assert s[..n][f] == s[f];
        assert forall k :: 0 <= k < f ==> s[..n][k] == s[k];
      }
      if s[n] !in p {
        assert FirstIndex(s, s[n]) == n by {
          forall k | 0 <= k < n ensures s[k] != s[n] {
            assert s[..n][k] == s[k];
          }
        }
      }
    }
  }

  // ---------------------------------------------------------------------
  // snap_stops
  // ---------------------------------------------------------------------

  /** A stop as `get_delay_and_position` prepares it: its name and [lon, lat]. */
  datatype StopRef = StopRef(id: string, coords: Coord)

  function StopRefs(stoptimes: seq<StopTime>): (r: seq<StopRef>)
    ensures |r| == |stoptimes|
  {
    seq(|stoptimes|, i requires 0 <= i < |stoptimes| =>
      StopRef(stoptimes[i].stop.name, Coord(stoptimes[i].stop.lon, stoptimes[i].stop.lat)))
  }

  /** Each stop with its projection onto the route, in the input order. */
  function Snapped(routeCoords: seq<Coord>, stops: seq<StopRef>, geo: Geometry): (r: seq<ProcessedStop>)
    ensures |r| == |stops|
  {
    seq(|stops|, i requires 0 <= i < |stops| =>
      ProcessedStop(stops[i].id, stops[i].coords, geo.project(routeCoords, stops[i].coords)))
  }

  /** The sort key `x["distanceAlongRoute"]` as a three-way comparison. */
  function ByDistance(a: ProcessedStop, b: ProcessedStop): int {
    if a.distanceAlongRoute < b.distanceAlongRoute then -1
    else if a.distanceAlongRoute > b.distanceAlongRoute then 1
    else 0
  }

  lemma ByDistanceIsTotalPreorder()
    ensures IsTotalPreorder(ByDistance)
  {
  }

  /** `snap_stops`: nothing for a route of fewer than two points, else the snapped stops sorted. */
  function SnapStops(routeCoords: seq<Coord>, stops: seq<StopRef>, geo: Geometry): (r: seq<ProcessedStop>)
    ensures |routeCoords| < 2 ==> r == []
    ensures |routeCoords| >= 2 ==> multiset(r) == multiset(Snapped(routeCoords, stops, geo))
  {
    if |routeCoords| < 2 then [] else Sort(Snapped(routeCoords, stops, geo), ByDistance)
  }

  /** The snapped stops are in ascending order of distance along the route, one per stop. */
  lemma SnapStopsAscending(routeCoords: seq<Coord>, stops: seq<StopRef>, geo: Geometry)
    ensures |SnapStops(routeCoords, stops, geo)| == if |routeCoords| < 2 then 0 else |stops|
    ensures AscendingByDistance(SnapStops(routeCoords, stops, geo))
  {
    if |routeCoords| >= 2 {
      ByDistanceIsTotalPreorder();
      var r := SnapStops(routeCoords, stops, geo);
      SortSorted(Snapped(routeCoords, stops, geo), ByDistance);
      forall i, j | 0 <= i < j < |r| ensures r[i].distanceAlongRoute <= r[j].distanceAlongRoute {
        assert ByDistance(r[i], r[j]) <= 0;
      }
    }
  }

  predicate AscendingByDistance(stops: seq<ProcessedStop>) {
    forall i, j :: 0 <= i < j < |stops| ==> stops[i].distanceAlongRoute <= stops[j].distanceAlongRoute
  }

  // ---------------------------------------------------------------------
  // get_vehicle_progress
  // ---------------------------------------------------------------------

  /** Index of the first stop beyond distance `d`, or -1 when none is. */
  function FirstBeyond(stops: seq<ProcessedStop>, d: real): (r: int)
    ensures -1 <= r < |stops|
    ensures 0 <= r ==> stops[r].distanceAlongRoute > d
    ensures forall k :: 0 <= k < |stops| && (r < 0 || k < r) ==> stops[k].distanceAlongRoute <= d
  {
    if |stops| == 0 then -1
    else if stops[0].distanceAlongRoute > d then 0
    else
      var j := FirstBeyond(stops[1..], d);
      assert forall k :: 1 <= k < |stops| ==> stops[1..][k - 1] == stops[k];
      if j < 0 then -1 else j + 1
  }

  /** The stop index the scan leaves in `last_stop`. */
  function LastIndex(stops: seq<ProcessedStop>, d: real): int
    requires |stops| > 0
  {
    var next := FirstBeyond(stops, d);
    if next < 0 then |stops| - 1 else if next == 0 then 0 else next - 1
  }

  /**
   * The scan over the processed stops: `last_stop` moves along while stops
   * are not beyond the vehicle, and the first stop beyond it is `next_stop`.
   */
  method ScanStops(stops: seq<ProcessedStop>, d: real) returns (last: int, next: int)
    requires |stops| > 0
    ensures next == FirstBeyond(stops, d)
    ensures last == LastIndex(stops, d)
  {
    last, next := 0, -1;
    var i := 0;
    while i < |stops|
      invariant 0 <= i <= |stops|
      invariant next == -1 || (next == i && next == FirstBeyond(stops, d))
      invariant next == -1 ==> forall k :: 0 <= k < i ==> stops[k].distanceAlongRoute <= d
      invariant last == if i == 0 then 0 else i - 1
      decreases |stops| - i, if next == -1 then 1 else 0
    {
      if stops[i].distanceAlongRoute <= d {
        last := i;
      } else {
        next := i;
        break;
      }
      i := i + 1;
    }
  }

  /**
   * The progress record for a vehicle at distance `d` along the route: both
   * stops named are stops of the route; the next stop is the first one beyond
   * the vehicle, and past every stop both are the final stop at progress 1.
   */
  function ProgressAt(stops: seq<ProcessedStop>, d: real): (p: VehicleProgress)
    requires |stops| > 0
    ensures (exists i :: 0 <= i < |stops| && stops[i].id == p.lastStop)
            && (exists j :: 0 <= j < |stops| && stops[j].id == p.nextStop)
    ensures FirstBeyond(stops, d) < 0 ==>
              p.lastStop == p.nextStop == stops[|stops| - 1].id && p.progress == 1.0
    ensures FirstBeyond(stops, d) >= 0 ==> p.nextStop == stops[FirstBeyond(stops, d)].id
  {
    var next := FirstBeyond(stops, d);
    if next < 0 then
      VehicleProgress(stops[|stops| - 1].id, stops[|stops| - 1].id, 1.0)
    else
      var last := LastIndex(stops, d);
      var total := stops[next].distanceAlongRoute - stops[last].distanceAlongRoute;
      var traveled := d - stops[last].distanceAlongRoute;
      if total == 0.0 then VehicleProgress(stops[last].id, stops[next].id, 1.0)
      else VehicleProgress(stops[last].id, stops[next].id, traveled / total)
  }

  /**
   * `get_vehicle_progress`: empty names and progress 0 without stops or
   * without a line; otherwise both names are stops of the route.
   */
  function VehicleProgressFor(routeCoords: seq<Coord>, stops: seq<ProcessedStop>, vehiclePos: Coord,
                              heading: Option<real>, geo: Geometry): (p: VehicleProgress)
    ensures |stops| == 0 || |routeCoords| < 2 ==> p == VehicleProgress("", "", 0.0)
    ensures |stops| > 0 && |routeCoords| >= 2 ==>
              (exists i :: 0 <= i < |stops| && stops[i].id == p.lastStop)
              && (exists j :: 0 <= j < |stops| && stops[j].id == p.nextStop)
  {
    if |stops| == 0 || |routeCoords| < 2 then VehicleProgress("", "", 0.0)
    else ProgressAt(stops, ProjectedDistance(routeCoords, vehiclePos, heading, geo))
  }

  method GetVehicleProgress(routeCoords: seq<Coord>, stops: seq<ProcessedStop>, vehiclePos: Coord,
                            heading: Option<real>, geo: Geometry)
    returns (p: VehicleProgress)
    ensures p == VehicleProgressFor(routeCoords, stops, vehiclePos, heading, geo)
    ensures |stops| == 0 || |routeCoords| < 2 ==> p == VehicleProgress("", "", 0.0)
  {
    if |stops| == 0 || |routeCoords| < 2 {
      return VehicleProgress("", "", 0.0);
    }
    var d := ProjectWithHeading(routeCoords, vehiclePos, heading, geo);
    var last, next := ScanStops(stops, d);
    if next < 0 {
      var finalId := stops[|stops| - 1].id;
      return VehicleProgress(finalId, finalId, 1.0);
    }
    var total := stops[next].distanceAlongRoute - stops[last].distanceAlongRoute;
    var traveled := d - stops[last].distanceAlongRoute;
    if total == 0.0 {
      return VehicleProgress(stops[last].id, stops[next].id, 1.0);
    }
    p := VehicleProgress(stops[last].id, stops[next].id, traveled / total);
  }

  /** With no stop beyond the vehicle, both stops are the final one and progress is 1. */
  lemma NothingAheadIsFinalStop(stops: seq<ProcessedStop>, d: real)
    requires |stops| > 0
    requires forall k :: 0 <= k < |stops| ==> stops[k].distanceAlongRoute <= d
    ensures ProgressAt(stops, d) == VehicleProgress(stops[|stops| - 1].id, stops[|stops| - 1].id, 1.0)
  {
  }

  /**
   * A vehicle before the first stop is placed on the zero-length leg from
   * the first stop to itself, with progress 1.
   */
  lemma BeforeFirstStop(stops: seq<ProcessedStop>, d: real)
    requires |stops| > 0 && d < stops[0].distanceAlongRoute
    ensures ProgressAt(stops, d) == VehicleProgress(stops[0].id, stops[0].id, 1.0)
  {
  }

  /**
   * Along sorted stops, `lastStop` is the last stop not beyond the vehicle
   * (the first stop when there is none) and `nextStop` the first beyond it.
   */
  lemma ScanFindsSurroundingStops(stops: seq<ProcessedStop>, d: real)
    requires |stops| > 0 && AscendingByDistance(stops)
    ensures var last := LastIndex(stops, d);
            var next := FirstBeyond(stops, d);
            (forall k :: 0 <= k < |stops| && stops[k].distanceAlongRoute <= d ==> k <= last)
            && (stops[last].distanceAlongRoute <= d || last == 0)
            && (0 <= next ==> forall k :: 0 <= k < |stops| && stops[k].distanceAlongRoute > d ==> next <= k)
  {
    var next := FirstBeyond(stops, d);
    if 0 <= next {
      forall k | 0 <= k < |stops| && stops[k].distanceAlongRoute <= d
        ensures k < next
      {
      }
    }
  }

  /** Between two sorted stops the vehicle's progress on the leg lies in [0, 1). */
  lemma ProgressWithinLeg(stops: seq<ProcessedStop>, d: real)
    requires |stops| > 0 && AscendingByDistance(stops)
    requires stops[0].distanceAlongRoute <= d
    requires 0 <= FirstBeyond(stops, d)
    ensures 0.0 <= ProgressAt(stops, d).progress <= 1.0
  {
    var next := FirstBeyond(stops, d);
    var last := LastIndex(stops, d);
    assert next > 0;
    var total := stops[next].distanceAlongRoute - stops[last].distanceAlongRoute;
    var traveled := d - stops[last].distanceAlongRoute;
    if total != 0.0 {
      assert 0.0 <= traveled < total;
      assert traveled / total < 1.0 by {
        assert traveled / total * total == traveled;
      }
    }
  }

  // ---------------------------------------------------------------------
  // Heading-aware projection
  // ---------------------------------------------------------------------

  /** `abs(heading - bearing)` folded onto the shorter way round. */
  function HeadingDiff(heading: real, bearing: real): (r: real)
    ensures 0.0 <= heading < 360.0 && 0.0 <= bearing < 360.0 ==> 0.0 <= r <= 180.0
  {
    var diff := if heading >= bearing then heading - bearing else bearing - heading;
    if diff > 180.0 then 360.0 - diff else diff
  }

  /** The fold is symmetric, and a heading equal to the bearing differs by 0. */
  lemma HeadingDiffSymmetric(heading: real, bearing: real)
    ensures HeadingDiff(heading, bearing) == HeadingDiff(bearing, heading)
    ensures HeadingDiff(heading, heading) == 0.0
  {
  }

  /** Opposite directions differ by 180 and are never aligned. */
  lemma OppositeNotAligned(bearing: real)
    requires 0.0 <= bearing < 180.0
    ensures HeadingDiff(bearing, bearing + 180.0) == 180.0
    ensures HeadingDiff(bearing + 180.0, bearing) == 180.0
  {
  }

  /** `delta`: the step along the line used to sample its direction. */
  const Delta: real := 0.00001

  /**
   * The two points whose bearing is taken as the route's direction at the
   * default projection `p`: from `p` to `p + delta`, or, when that would
   * pass the end of the line, from `p` back to `p - delta`.
   */
  function RouteDirection(line: seq<Coord>, p: real, geo: Geometry): (Coord, Coord) {
    if p + Delta > geo.length(line) then (geo.interpolate(line, p), geo.interpolate(line, p - Delta))
    else (geo.interpolate(line, p), geo.interpolate(line, p + Delta))
  }

  /** The bearing pointing the other way. */
  function Opposite(b: real): real {
    if b < 180.0 then b + 180.0 else b - 180.0
  }

  /** Turning a bearing round turns its folded difference to any heading into the complement. */
  lemma HeadingDiffOpposite(h: real, b: real)
    requires 0.0 <= h < 360.0 && 0.0 <= b < 360.0
    ensures HeadingDiff(h, Opposite(b)) == 180.0 - HeadingDiff(h, b)
  {
    if b < 180.0 {
      if h >= b + 180.0 {
        assert HeadingDiff(h, Opposite(b)) == h - b - 180.0;
      } else if h >= b {
        assert HeadingDiff(h, Opposite(b)) == b + 180.0 - h;
      } else {
        assert HeadingDiff(h, Opposite(b)) == 180.0 - (b - h);
      }
    } else {
      if h >= b {
        assert HeadingDiff(h, Opposite(b)) == 180.0 - (h - b);
      } else if h >= b - 180.0 {
        assert HeadingDiff(h, Opposite(b)) == h - b + 180.0;
      } else {
        assert HeadingDiff(h, Opposite(b)) == b - 180.0 - h;
      }
    }
  }

  /**
   * Past the last `delta` of the line the direction is sampled backwards:
   * for a bearing that turns round when its points are swapped, the sampled
   * bearing is the opposite of the line's own direction there, so a heading
   * that agrees with the line (within 90 degrees) is judged misaligned and
   * the segment search runs.
   */
  lemma EndOfLineSampleRunsBackwards(line: seq<Coord>, p: real, h: real, geo: Geometry)
    requires p + Delta > geo.length(line)
    requires 0.0 <= h < 360.0
    requires var a, b := geo.interpolate(line, p - Delta), geo.interpolate(line, p);
             0.0 <= geo.bearing(a, b) < 360.0 && geo.bearing(b, a) == Opposite(geo.bearing(a, b))
    ensures var dir := RouteDirection(line, p, geo);
            var forward := geo.bearing(geo.interpolate(line, p - Delta), geo.interpolate(line, p));
            geo.bearing(dir.0, dir.1) == Opposite(forward)
            && HeadingDiff(h, geo.bearing(dir.0, dir.1)) == 180.0 - HeadingDiff(h, forward)
            && (HeadingDiff(h, forward) < 90.0 ==> HeadingDiff(h, geo.bearing(dir.0, dir.1)) > 90.0)
  {
    var forward := geo.bearing(geo.interpolate(line, p - Delta), geo.interpolate(line, p));
    HeadingDiffOpposite(h, forward);
  }

  /**
   * At the end of a straight eastward line along the equator, a vehicle
   * heading east has its route direction sampled westwards, 180 degrees off,
   * so the default projection is rejected; the segment search then finds the
   * only segment aligned and places the vehicle at the end of the line.
   */
  lemma EndOfLineRecoveredBySearch()
    ensures var geo := EquatorLine();
            var line := [Coord(0.0, 0.0), Coord(1.0, 0.0)];
            var dir := RouteDirection(line, geo.project(line, Coord(1.0, 0.0)), geo);
            HeadingDiff(90.0, geo.bearing(dir.0, dir.1)) == 180.0
            && ProjectedDistance(line, Coord(1.0, 0.0), Some(90.0), geo) == 1.0
  {
    var geo := EquatorLine();
    var line := [Coord(0.0, 0.0), Coord(1.0, 0.0)];
    assert Usable(line, 0, 90.0, geo);
    var st := SearchAfter(line, Coord(1.0, 0.0), 90.0, geo, 1.0, 1);
    assert st.found && st.best == 1.0;
  }

  /** A straight line along the equator: positions are longitudes, bearings east or west. */
  function EquatorLine(): (geo: Geometry)
    ensures geo.length([Coord(0.0, 0.0), Coord(1.0, 0.0)]) == 1.0
  {
    Geometry(
      (line: seq<Coord>, pt: Coord) => pt.lon,
      (line: seq<Coord>, x: real) => Coord(x, 0.0),
      (line: seq<Coord>) => 1.0,
      (line: seq<Coord>, pt: Coord) => 0.0,
      (a: Coord, b: Coord) => if b.lon > a.lon then 90.0 else if b.lon < a.lon then 270.0 else 0.0)
  }

  /** The state of the segment search after some segments: `minDist` `None` stands for infinity. */
  datatype SegmentSearch = SegmentSearch(best: real, minDist: Option<real>, found: bool, currentLen: real, chosen: int)

  /** The segment from point `i` to point `i + 1` is usable: of non-zero length and aligned with the heading. */
  predicate Usable(coords: seq<Coord>, i: int, heading: real, geo: Geometry)
    requires 0 <= i < |coords| - 1
  {
    geo.length([coords[i], coords[i + 1]]) != 0.0
    && HeadingDiff(heading, geo.bearing(coords[i], coords[i + 1])) <= 90.0
  }

  function SegmentDistance(coords: seq<Coord>, i: int, point: Coord, geo: Geometry): real
    requires 0 <= i < |coords| - 1
  {
    geo.distance([coords[i], coords[i + 1]], point)
  }

  /** The search loop's state after the first `n` segments. */
  function SearchAfter(coords: seq<Coord>, point: Coord, heading: real, geo: Geometry, default: real, n: nat): (st: SegmentSearch)
    requires n < |coords|
    ensures -1 <= st.chosen < n
    ensures st.found <==> 0 <= st.chosen
    ensures st.found <==> st.minDist.Some?
    decreases n
  {
    if n == 0 then SegmentSearch(default, None, false, 0.0, -1)
    else
      var st := SearchAfter(coords, point, heading, geo, default, n - 1);
      var i := n - 1;
      var segLen := geo.length([coords[i], coords[i + 1]]);
      if segLen == 0.0 then st
      else
        var dist := SegmentDistance(coords, i, point, geo);
        var st2 :=
          if Usable(coords, i, heading, geo) && (st.minDist.None? || dist < st.minDist.value) then
            st.(best := st.currentLen + geo.project([coords[i], coords[i + 1]], point),
                minDist := Some(dist), found := true, chosen := i)
          else st;
        st2.(currentLen := st.currentLen + segLen)
  }

  /**
   * The chosen segment is usable and nearest among the usable segments
   * searched, the first of them on a tie; none is chosen only when no
   * searched segment is usable.
   */
  lemma {:induction false} SearchPicksNearestUsable(coords: seq<Coord>, point: Coord, heading: real, geo: Geometry, default: real, n: nat)
    requires n < |coords|
    ensures var st := SearchAfter(coords, point, heading, geo, default, n);
            (st.found ==> Usable(coords, st.chosen, heading, geo)
                          && st.minDist.value == SegmentDistance(coords, st.chosen, point, geo))
            && (forall k :: 0 <= k < n && Usable(coords, k, heading, geo) ==>
                  st.found && st.minDist.value <= SegmentDistance(coords, k, point, geo))
            && (forall k :: 0 <= k < st.chosen && Usable(coords, k, heading, geo) ==>
                  st.minDist.value < SegmentDistance(coords, k, point, geo))
    decreases n
  {
    if n > 0 {
      SearchPicksNearestUsable(coords, point, heading, geo, default, n - 1);
    }
  }

  /** `current_len` before segment `n`: the summed lengths of the segments ahead of it. */
  function PrefixLength(coords: seq<Coord>, n: nat, geo: Geometry): real
    requires n < |coords|
    decreases n
  {
    if n == 0 then 0.0
    else PrefixLength(coords, n - 1, geo) + geo.length([coords[n - 1], coords[n]])
  }

  /**
   * The search's running length is the length of the segments searched, and
   * a found segment places the vehicle at the length of the segments before
   * it plus its projection onto that segment; nothing found keeps the default.
   */
  lemma {:induction false} SearchDistanceAlongRoute(coords: seq<Coord>, point: Coord, heading: real, geo: Geometry, default: real, n: nat)
    requires n < |coords|
    ensures var st := SearchAfter(coords, point, heading, geo, default, n);
            st.currentLen == PrefixLength(coords, n, geo)
            && (st.found ==> st.best == PrefixLength(coords, st.chosen, geo)
                                        + geo.project([coords[st.chosen], coords[st.chosen + 1]], point))
            && (!st.found ==> st.best == default)
    decreases n
  {
    if n > 0 {
      SearchDistanceAlongRoute(coords, point, heading, geo, default, n - 1);
    }
  }

  /** A misaligned heading leaves the answer to the segment search. */
  lemma MisalignedSearches(line: seq<Coord>, point: Coord, h: real, geo: Geometry)
    requires |line| >= 2
    requires var dir := RouteDirection(line, geo.project(line, point), geo);
             HeadingDiff(h, geo.bearing(dir.0, dir.1)) > 90.0
    ensures var st := SearchAfter(line, point, h, geo, geo.project(line, point), |line| - 1);
            ProjectedDistance(line, point, Some(h), geo) == if st.found then st.best else geo.project(line, point)
  {
  }

  /** With a heading the route direction contradicts and no usable segment, the plain projection stays. */
  lemma NoUsableSegmentKeepsDefault(line: seq<Coord>, point: Coord, h: real, geo: Geometry)
    requires |line| >= 2
    requires var dir := RouteDirection(line, geo.project(line, point), geo);
             HeadingDiff(h, geo.bearing(dir.0, dir.1)) > 90.0
    requires forall k :: 0 <= k < |line| - 1 ==> !Usable(line, k, h, geo)
    ensures ProjectedDistance(line, point, Some(h), geo) == geo.project(line, point)
  {
    var default := geo.project(line, point);
    SearchPicksNearestUsable(line, point, h, geo, default, |line| - 1);
    SearchDistanceAlongRoute(line, point, h, geo, default, |line| - 1);
    MisalignedSearches(line, point, h, geo);
  }

  /**
   * With a heading the route direction contradicts and some usable segment,
   * the vehicle is placed on the nearest usable segment (the first of
   * equally near ones), at the length of the segments before it plus its
   * projection onto it.
   */
  lemma MisalignedHeadingUsesNearestSegment(line: seq<Coord>, point: Coord, h: real, geo: Geometry, k: int)
    returns (c: int)
    requires |line| >= 2
    requires var dir := RouteDirection(line, geo.project(line, point), geo);
             HeadingDiff(h, geo.bearing(dir.0, dir.1)) > 90.0
    requires 0 <= k < |line| - 1 && Usable(line, k, h, geo)
    ensures 0 <= c < |line| - 1 && Usable(line, c, h, geo)
    ensures forall j :: 0 <= j < |line| - 1 && Usable(line, j, h, geo) ==>
              SegmentDistance(line, c, point, geo) <= SegmentDistance(line, j, point, geo)
    ensures forall j :: 0 <= j < c && Usable(line, j, h, geo) ==>
              SegmentDistance(line, c, point, geo) < SegmentDistance(line, j, point, geo)
    ensures ProjectedDistance(line, point, Some(h), geo)
            == PrefixLength(line, c, geo) + geo.project([line[c], line[c + 1]], point)
  {
    c := NearestUsable(line, point, h, geo, geo.project(line, point), |line| - 1, k);
    MisalignedSearches(line, point, h, geo);
  }

  /** Once a usable segment has been searched, the search has chosen the nearest usable one. */
  lemma NearestUsable(coords: seq<Coord>, point: Coord, h: real, geo: Geometry, default: real, n: nat, k: int)
    returns (c: int)
    requires n < |coords|
    requires 0 <= k < n && Usable(coords, k, h, geo)
    ensures 0 <= c < n && Usable(coords, c, h, geo)
    ensures forall j :: 0 <= j < n && Usable(coords, j, h, geo) ==>
              SegmentDistance(coords, c, point, geo) <= SegmentDistance(coords, j, point, geo)
    ensures forall j :: 0 <= j < c && Usable(coords, j, h, geo) ==>
              SegmentDistance(coords, c, point, geo) < SegmentDistance(coords, j, point, geo)
    ensures var st := SearchAfter(coords, point, h, geo, default, n);
            st.found && st.chosen == c
            && st.best == PrefixLength(coords, c, geo) + geo.project([coords[c], coords[c + 1]], point)
  {
    SearchPicksNearestUsable(coords, point, h, geo, default, n);
    SearchDistanceAlongRoute(coords, point, h, geo, default, n);
    c := SearchAfter(coords, point, h, geo, default, n).chosen;
  }

  /** `project_with_heading`, as a function of its inputs. */
  function ProjectedDistance(line: seq<Coord>, point: Coord, heading: Option<real>, geo: Geometry): real
    requires |line| >= 2
  {
    var default := geo.project(line, point);
    match heading
    case None => default
    case Some(h) =>
      var dir := RouteDirection(line, default, geo);
      if HeadingDiff(h, geo.bearing(dir.0, dir.1)) <= 90.0 then default
      else
        var st := SearchAfter(line, point, h, geo, default, |line| - 1);
        if st.found then st.best else default
  }

  /** Without a heading, or when the route direction agrees with it, the plain projection is used. */
  lemma DefaultProjectionKept(line: seq<Coord>, point: Coord, heading: Option<real>, geo: Geometry)
    requires |line| >= 2
    requires heading.Some? ==>
               var dir := RouteDirection(line, geo.project(line, point), geo);
               HeadingDiff(heading.value, geo.bearing(dir.0, dir.1)) <= 90.0
    ensures ProjectedDistance(line, point, heading, geo) == geo.project(line, point)
  {
  }

  /** The segment search loop. */
  method SearchSegments(coords: seq<Coord>, point: Coord, heading: real, geo: Geometry, default: real)
    returns (bestDist: real, found: bool)
    requires |coords| >= 2
    ensures var st := SearchAfter(coords, point, heading, geo, default, |coords| - 1);
            bestDist == st.best && found == st.found
  {
    bestDist := default;
    var minDist: Option<real> := None;
    found := false;
    var currentLen := 0.0;
    for i := 0 to |coords| - 1
      invariant SearchAfter(coords, point, heading, geo, default, i)
                == SegmentSearch(bestDist, minDist, found, currentLen, SearchAfter(coords, point, heading, geo, default, i).chosen)
    {
      var p1 := coords[i];
      var p2 := coords[i + 1];
      var segLen := geo.length([p1, p2]);
      if segLen == 0.0 {
        continue;
      }
      var hDiff := HeadingDiff(heading, geo.bearing(p1, p2));
      if hDiff <= 90.0 {
        var dist := geo.distance([p1, p2], point);
        if minDist.None? || dist < minDist.value {
          minDist := Some(dist);
          bestDist := currentLen + geo.project([p1, p2], point);
          found := true;
        }
      }
      currentLen := currentLen + segLen;
    }
  }

  /** `project_with_heading`. */
  method ProjectWithHeading(line: seq<Coord>, point: Coord, heading: Option<real>, geo: Geometry)
    returns (d: real)
    requires |line| >= 2
    ensures d == ProjectedDistance(line, point, heading, geo)
  {
    var default := geo.project(line, point);
    if heading.None? {
      return default;
    }
    var h := heading.value;
    var dir := RouteDirection(line, default, geo);
    if HeadingDiff(h, geo.bearing(dir.0, dir.1)) <= 90.0 {
      return default;
    }
    var bestDist, found := SearchSegments(line, point, h, geo, default);
    d := if found then bestDist else default;
  }

  // ---------------------------------------------------------------------
  // Delay
  // ---------------------------------------------------------------------

  /** The first stop time whose stop has the given name (`next(...)`, `None` when there is none). */
  function StopTimeNamed(stoptimes: seq<StopTime>, name: string): (r: Option<StopTime>)
    ensures r.Some? ==> r.value in stoptimes && r.value.stop.name == name
    ensures r.None? <==> forall k :: 0 <= k < |stoptimes| ==> stoptimes[k].stop.name != name
    ensures r.Some? ==> exists i :: 0 <= i < |stoptimes| && stoptimes[i] == r.value
                                    && forall k :: 0 <= k < i ==> stoptimes[k].stop.name != name
  {
    if |stoptimes| == 0 then None
    else if stoptimes[0].stop.name == name then Some(stoptimes[0])
    else
      assert forall k :: 1 <= k < |stoptimes| ==> stoptimes[1..][k - 1] == stoptimes[k];
      StopTimeNamed(stoptimes[1..], name)
  }

  /**
   * The delay in seconds: the current time minus the time interpolated
   * between the last stop's scheduled departure and the next stop's
   * scheduled arrival (missing times count as 0), or 0 when either stop time
   * is not found.
   */
  function InterpolatedDelay(currentTime: int, stoptimes: seq<StopTime>, vp: VehicleProgress): (r: real)
    ensures StopTimeNamed(stoptimes, vp.lastStop).None? || StopTimeNamed(stoptimes, vp.nextStop).None? ==> r == 0.0
    ensures StopTimeNamed(stoptimes, vp.lastStop).Some? && StopTimeNamed(stoptimes, vp.nextStop).Some? ==>
              var prevDep := StopTimeNamed(stoptimes, vp.lastStop).value.scheduledDeparture.GetOr(0) as real;
              var nextArr := StopTimeNamed(stoptimes, vp.nextStop).value.scheduledArrival.GetOr(0) as real;
              (vp.progress == 0.0 ==> r == currentTime as real - prevDep)
              && (vp.progress == 1.0 ==> r == currentTime as real - nextArr)
  {
    var prev := StopTimeNamed(stoptimes, vp.lastStop);
    var next := StopTimeNamed(stoptimes, vp.nextStop);
    if prev.Some? && next.Some? then
      var prevDep := prev.value.scheduledDeparture.GetOr(0) as real;
      var nextArr := next.value.scheduledArrival.GetOr(0) as real;
      Interpolated(currentTime as real, prevDep, nextArr, vp.progress)
    else 0.0
  }

  /**
   * With both stop times found and progress in [0, 1], the delay lies
   * between the delays measured against the two stops: at progress 0 it is
   * the delay against the departure, at progress 1 against the arrival.
   */
  lemma InterpolatedDelayBetween(currentTime: int, stoptimes: seq<StopTime>, vp: VehicleProgress)
    requires 0.0 <= vp.progress <= 1.0
    requires StopTimeNamed(stoptimes, vp.lastStop).Some? && StopTimeNamed(stoptimes, vp.nextStop).Some?
    ensures var prevDep := StopTimeNamed(stoptimes, vp.lastStop).value.scheduledDeparture.GetOr(0);
            var nextArr := StopTimeNamed(stoptimes, vp.nextStop).value.scheduledArrival.GetOr(0);
            var delay := InterpolatedDelay(currentTime, stoptimes, vp);
            (prevDep <= nextArr ==> (currentTime - nextArr) as real <= delay <= (currentTime - prevDep) as real)
            && (vp.progress == 0.0 ==> delay == (currentTime - prevDep) as real)
            && (vp.progress == 1.0 ==> delay == (currentTime - nextArr) as real)
  {
    var prev, next := StopTimeNamed(stoptimes, vp.lastStop), StopTimeNamed(stoptimes, vp.nextStop);
    var pd, na := prev.value.scheduledDeparture.GetOr(0), next.value.scheduledArrival.GetOr(0);
    assert (currentTime - pd) as real == currentTime as real - pd as real;
    assert (currentTime - na) as real == currentTime as real - na as real;
    InterpolatedBetween(currentTime as real, pd as real, na as real, vp.progress);
  }

  /** `current - (from + (to - from) * t)`. */
  function Interpolated(current: real, from: real, to: real, t: real): real {
    current - (from + (to - from) * t)
  }

  lemma InterpolatedBetween(current: real, from: real, to: real, t: real)
    requires 0.0 <= t <= 1.0
    ensures from <= to ==> current - to <= Interpolated(current, from, to, t) <= current - from
    ensures t == 0.0 ==> Interpolated(current, from, to, t) == current - from
    ensures t == 1.0 ==> Interpolated(current, from, to, t) == current - to
  {
    if from <= to {
      ScaledWithin(to - from, t);
      assert 0.0 <= (to - from) * t <= to - from;
      assert Interpolated(current, from, to, t) == current - (from + (to - from) * t);
    }
  }

  lemma ScaledWithin(a: real, t: real)
    requires 0.0 <= a && 0.0 <= t <= 1.0
    ensures 0.0 <= a * t <= a
  {
    assert a - a * t == a * (1.0 - t);
  }

  /** A missing last or next stop time gives delay 0. */
  lemma UnknownStopNoDelay(currentTime: int, stoptimes: seq<StopTime>, vp: VehicleProgress)
    requires (forall k :: 0 <= k < |stoptimes| ==> stoptimes[k].stop.name != vp.lastStop)
             || (forall k :: 0 <= k < |stoptimes| ==> stoptimes[k].stop.name != vp.nextStop)
    ensures InterpolatedDelay(currentTime, stoptimes, vp) == 0.0
  {
  }

  // ---------------------------------------------------------------------
  // get_delay_and_position
  // ---------------------------------------------------------------------

  /** A snapped stop with the first stop time of its name attached (`stopTimeInfo`). */
  datatype StopWithInfo = StopWithInfo(stop: ProcessedStop, stopTimeInfo: Option<StopTime>)

  datatype DelayAndPosition = DelayAndPosition(
    delay: real,
    trainPosition: real,
    totalRouteDistance: real,
    processedStops: seq<StopWithInfo>,
    vehicleProgress: VehicleProgress)

  /** `max(s["distanceAlongRoute"] for s in processed_stops)`, or 0 without stops. */
  function TotalRouteDistance(stops: seq<ProcessedStop>): (r: real)
    ensures |stops| == 0 ==> r == 0.0
    ensures forall k :: 0 <= k < |stops| ==> stops[k].distanceAlongRoute <= r
    ensures |stops| > 0 ==> exists k :: 0 <= k < |stops| && stops[k].distanceAlongRoute == r
  {
    if |stops| == 0 then 0.0
    else if |stops| == 1 then stops[0].distanceAlongRoute
    else
      var rest := TotalRouteDistance(stops[1..]);
      assert forall k :: 1 <= k < |stops| ==> stops[1..][k - 1] == stops[k];
      if stops[0].distanceAlongRoute >= rest then stops[0].distanceAlongRoute else rest
  }

  /**
   * `get_delay_and_position`. The time zone and the service-date parser are
   * the parameters `ApiTime` describes.
   */
  method GetDelayAndPosition(calculateDate: ApiTime.DateTime, serviceDate: string, zone: ApiTime.Zone,
                             parseDate: string -> Option<int>, stoptimes: seq<StopTime>, routeCoords: seq<LatLon>,
                             lat: real, lon: real, heading: Option<real>, geo: Geometry)
    returns (r: DelayAndPosition)
    ensures var currentTime := ApiTime.SecondsSinceDayByCalendar(serviceDate, calculateDate, zone, parseDate);
            var coords := Dedup(ToGeoJson(routeCoords));
            var stops := SnapStops(coords, StopRefs(stoptimes), geo);
            var vp := VehicleProgressFor(coords, stops, Coord(lon, lat), heading, geo);
            && r.vehicleProgress == vp
            && r.delay == InterpolatedDelay(currentTime, stoptimes, vp)
            && r.trainPosition == (if |coords| >= 2 then ProjectedDistance(coords, Coord(lon, lat), heading, geo) else 0.0)
            && r.totalRouteDistance == TotalRouteDistance(stops)
            && |r.processedStops| == |stops|
            && (forall k :: 0 <= k < |stops| ==>
                  r.processedStops[k] == StopWithInfo(stops[k], StopTimeNamed(stoptimes, stops[k].id)))
  {
    var currentTime := ApiTime.SecondsSinceDayByCalendar(serviceDate, calculateDate, zone, parseDate);
    var coords := UniqueCoords(ToGeoJson(routeCoords));
    var stops := SnapStops(coords, StopRefs(stoptimes), geo);
    var withInfo := seq(|stops|, k requires 0 <= k < |stops| => StopWithInfo(stops[k], StopTimeNamed(stoptimes, stops[k].id)));
    var vp := GetVehicleProgress(coords, stops, Coord(lon, lat), heading, geo);
    var trainPosition := 0.0;
    if |coords| >= 2 {
      trainPosition := ProjectWithHeading(coords, Coord(lon, lat), heading, geo);
    }
    var delay := InterpolatedDelay(currentTime, stoptimes, vp);
    r := DelayAndPosition(delay, trainPosition, TotalRouteDistance(stops), withInfo, vp);
  }
}
