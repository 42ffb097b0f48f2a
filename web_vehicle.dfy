/**
 * The web client's vehicle classifiers (`apps/web/src/util/vehicle.ts`):
 * staleness, removal, activity, route deviation, falsified-data detection and
 * the vehicle type. Geometry (turf), polyline decoding and the clock are
 * supplied from outside: see `Geometry` and `WebTime.LocalClock`.
 */
module WebVehicle {
  import opened Wrappers
  import opened Schema
  import opened Seqs
  import Strings
  import WebTime

  const StalenessThresholdMinutes := 30
  const RemovalThresholdMinutes := 120

  /** Metres within which a vehicle counts as "at" a terminus. */
  const NearStationMetres := 1000.0
  /** Kilometres from the route beyond which a vehicle is "far" from it. */
  const DistanceThresholdKm := 2.0
  /** The threshold in degrees, one degree taken as 111 km. */
  const BoundsBufferDegrees := 2.0 / 111.0
  const MaxPoints := 1000

  /** A decoded polyline vertex as `[lat, lng]`, or one that is not a number. */
  datatype DecodedPoint = LatLng(lat: real, lng: real) | NotANumber

  /**
   * The external geometry: `decode` is `decodePolyline` (`None` for an empty
   * result), `metres` is turf's great-circle distance, and `kmToLine` is the
   * distance in kilometres from a point to turf's nearest point on the line
   * (`None` when turf throws).
   */
  datatype Geometry = Geometry(
    decode: string -> Option<seq<DecodedPoint>>,
    metres: (Coord, Coord) -> real,
    kmToLine: (seq<Coord>, Coord) -> Option<real>)

  // ---------------------------------------------------------------- staleness

  /** `(now - lastUpdated) / 60 > minutes`, with `Date.now()` in milliseconds. */
  predicate MinutesSinceUpdateExceed(nowMs: int, lastUpdated: int, minutes: int) {
    ((nowMs as real) / 1000.0 - lastUpdated as real) / 60.0 > minutes as real
  }

  /** `isStale`: more than 30 minutes since the last update. */
  function IsStale(v: VehiclePosition, nowMs: int): (r: bool)
    ensures r <==> nowMs - 1000 * v.lastUpdated > 1000 * 60 * StalenessThresholdMinutes
  {
    MinutesSinceUpdateExceed(nowMs, v.lastUpdated, StalenessThresholdMinutes)
  }

  /** `shouldRemove`: more than 120 minutes since the last update. */
  function ShouldRemove(v: VehiclePosition, nowMs: int): (r: bool)
    ensures r <==> nowMs - 1000 * v.lastUpdated > 1000 * 60 * RemovalThresholdMinutes
  {
    MinutesSinceUpdateExceed(nowMs, v.lastUpdated, RemovalThresholdMinutes)
  }

  /** A vehicle due for removal is already shown as stale. */
  lemma ShouldRemoveImpliesStale(v: VehiclePosition, nowMs: int)
    ensures ShouldRemove(v, nowMs) ==> IsStale(v, nowMs)
  {
  }

  // ------------------------------------------------------------- down-sampling

  /** `Math.ceil(a / b)` for a positive divisor. */
  function CeilDiv(a: nat, b: nat): nat
    requires b > 0
  {
    (a + b - 1) / b
  }

  predicate IsMultiple(k: nat, stride: nat)
    requires stride > 0
  {
    k % stride == 0
  }

  /**
   * `s.filter((_, index) => index % stride === 0)` restricted to the indices
   * from `i` on.
   */
  function KeepMultiples<T>(s: seq<T>, stride: nat, i: nat): (r: seq<T>)
    requires stride > 0
    ensures i <= |s| ==> |r| <= |s| - i
    ensures forall x :: x in r ==> exists k :: i <= k < |s| && s[k] == x
    decreases |s| - i
  {
    if i >= |s| then []
    else (if IsMultiple(i, stride) then [s[i]] else []) + KeepMultiples(s, stride, i + 1)
  }

  /** Routes of more than 1000 points keep every `ceil(n / 1000)`-th point. */
  function Downsample(coords: seq<Coord>): (r: seq<Coord>)
    ensures |r| <= |coords|
    ensures forall x :: x in r ==> x in coords
    ensures |coords| <= MaxPoints ==> r == coords
  {
    if |coords| > MaxPoints then KeepMultiples(coords, CeilDiv(|coords|, MaxPoints), 0) else coords
  }

  lemma {:induction false} KeepMultiplesSkip<T>(s: seq<T>, stride: nat, i: nat, j: nat)
    requires stride > 0 && i <= j <= |s|
    requires forall k: nat :: i <= k < j ==> !IsMultiple(k, stride)
    ensures KeepMultiples(s, stride, i) == KeepMultiples(s, stride, j)
    decreases j - i
  {
    if i < j {
      KeepMultiplesSkip(s, stride, i + 1, j);
    }
  }

  /** Euclidean division is unique: the quotient and remainder are determined. */
  lemma ModOfDecomposition(a: int, b: int, q: int, r: int)
    requires b > 0 && 0 <= r < b && a == b * q + r
    ensures a % b == r
  {
    var q', r' := a / b, a % b;
    assert a == b * q' + r';
    if q' > q {
      MulLeft(b, 1, q' - q);
      assert false;
    } else if q' < q {
      MulLeft(b, 1, q - q');
      assert false;
    }
  }

  lemma ModOffset(i: nat, d: nat, stride: nat)
    requires stride > 0 && i % stride == 0 && d < stride
    ensures (i + d) % stride == d
    ensures (i + stride) % stride == 0
  {
    var q := i / stride;
    assert i == stride * q;
    ModOfDecomposition(i + d, stride, q, d);
    assert i + stride == stride * (q + 1);
    ModOfDecomposition(i + stride, stride, q + 1, 0);
  }

  lemma MulSucc(m: int, c: int)
    ensures (m + 1) * c == m * c + c
  {
  }

  lemma MulLeft(c: int, x: int, y: int)
    requires c >= 0 && x <= y
    ensures c * x <= c * y
  {
  }

  /** From a multiple `i` on, the kept points are at most `(n - i) / stride` rounded up. */
  lemma {:induction false} KeepMultiplesCount<T>(s: seq<T>, stride: nat, i: nat)
    requires stride > 0 && i <= |s| && IsMultiple(i, stride)
    ensures |KeepMultiples(s, stride, i)| * stride < |s| - i + stride
    decreases |s| - i
  {
    if i < |s| {
      var j := if i + stride <= |s| then i + stride else |s|;
      forall k: nat | i + 1 <= k < j ensures !IsMultiple(k, stride) {
        ModOffset(i, k - i, stride);
      }
      KeepMultiplesSkip(s, stride, i + 1, j);
      var c := |KeepMultiples(s, stride, i)|;
      assert c == 1 + |KeepMultiples(s, stride, j)|;
      if j == i + stride {
        ModOffset(i, 0, stride);
        KeepMultiplesCount(s, stride, j);
        var m := |KeepMultiples(s, stride, j)|;
        MulSucc(m, stride);
        assert m * stride < |s| - j + stride;
      } else {
        assert KeepMultiples(s, stride, j) == [];
        assert c * stride == stride by {
          assert c == 1;
        }
      }
    }
  }

  lemma {:induction false} KeepMultiplesSubsequence<T>(s: seq<T>, stride: nat, i: nat)
    requires stride > 0 && i <= |s|
    ensures IsSubsequence(KeepMultiples(s, stride, i), s[i..])
    decreases |s| - i
  {
    if i < |s| {
      KeepMultiplesSubsequence(s, stride, i + 1);
      var r := KeepMultiples(s, stride, i);
      assert s[i..][1..] == s[i + 1..];
      if IsMultiple(i, stride) {
        assert r == [s[i]] + KeepMultiples(s, stride, i + 1);
        assert r[0] == s[i..][0] && r[1..] == KeepMultiples(s, stride, i + 1);
        assert IsSubsequence(r[1..], s[i..][1..]);
      } else {
        assert r == KeepMultiples(s, stride, i + 1);
        assert IsSubsequence(r, s[i..][1..]);
      }
    }
  }

  /**
   * Down-sampling keeps the first point, keeps the points in their order
   * (a subsequence of the input), never leaves more than 1000 points, and
   * leaves at least two whenever there were two: the later `< 2` guard never fires.
   */
  lemma DownsampleProperties(coords: seq<Coord>)
    requires |coords| >= 2
    ensures var r := Downsample(coords);
      && 2 <= |r| <= (if |coords| <= MaxPoints then |coords| else MaxPoints)
      && r[0] == coords[0]
      && IsSubsequence(r, coords)
  {
    var n := |coords|;
    if n > MaxPoints {
      var stride := CeilDiv(n, MaxPoints);
      assert stride * MaxPoints >= n;
      assert 2 <= stride < n;
      var r := KeepMultiples(coords, stride, 0);
      assert IsMultiple(0, stride);
      KeepMultiplesCount(coords, stride, 0);
      var c := |r|;
      if c > MaxPoints {
        MulLeft(stride, MaxPoints + 1, c);
        assert false;
      }
      forall k: nat | 1 <= k < stride ensures !IsMultiple(k, stride) {
        ModOffset(0, k, stride);
      }
      KeepMultiplesSkip(coords, stride, 1, stride);
      assert IsMultiple(stride, stride) by {
        ModOffset(0, 0, stride);
      }
      assert r == [coords[0]] + KeepMultiples(coords, stride, stride);
      assert |KeepMultiples(coords, stride, stride)| >= 1;
      KeepMultiplesSubsequence(coords, stride, 0);
      assert coords[0..] == coords;
    } else {
      SubsequenceOfItself(coords);
    }
  }

  lemma {:induction false} SubsequenceOfItself<T>(s: seq<T>)
    ensures IsSubsequence(s, s)
    decreases |s|
  {
    if |s| > 0 {
      SubsequenceOfItself(s[1..]);
    }
  }

  // ------------------------------------------------------------ route distance

  /** `turf.bbox`: `[minX, minY, maxX, maxY]`. */
  datatype BBox = BBox(minLon: real, minLat: real, maxLon: real, maxLat: real)

  function BoundingBox(cs: seq<Coord>): (b: BBox)
    requires |cs| >= 1
    ensures forall k :: 0 <= k < |cs| ==>
      b.minLon <= cs[k].lon <= b.maxLon && b.minLat <= cs[k].lat <= b.maxLat
    ensures exists k :: 0 <= k < |cs| && cs[k].lon == b.minLon
    ensures exists k :: 0 <= k < |cs| && cs[k].lon == b.maxLon
    ensures exists k :: 0 <= k < |cs| && cs[k].lat == b.minLat
    ensures exists k :: 0 <= k < |cs| && cs[k].lat == b.maxLat
  {
    if |cs| == 1 then BBox(cs[0].lon, cs[0].lat, cs[0].lon, cs[0].lat)
    else
      var b := BoundingBox(cs[1..]);
      var c := cs[0];
      assert forall k :: 1 <= k < |cs| ==> cs[k] == cs[1..][k - 1];
      BBox(
        if c.lon < b.minLon then c.lon else b.minLon,
        if c.lat < b.minLat then c.lat else b.minLat,
        if c.lon > b.maxLon then c.lon else b.maxLon,
        if c.lat > b.maxLat then c.lat else b.maxLat)
  }

  predicate OutsideBounds(p: Coord, b: BBox, buffer: real) {
    p.lon < b.minLon - buffer || p.lon > b.maxLon + buffer
    || p.lat < b.minLat - buffer || p.lat > b.maxLat + buffer
  }

  /** How many of the decoded vertices are numbers. */
  function NumericCount(decoded: seq<DecodedPoint>): (c: nat)
    ensures c <= |decoded|
  {
    if |decoded| == 0 then 0
    else NumericCount(decoded[..|decoded| - 1]) + (if decoded[|decoded| - 1].LatLng? then 1 else 0)
  }

  /** Numeric vertices get increasing positions: a later one has more numbers before it. */
  lemma NumericCountIncreases(decoded: seq<DecodedPoint>, i: nat, j: nat)
    requires i < j <= |decoded| && decoded[i].LatLng?
    ensures NumericCount(decoded[..i]) < NumericCount(decoded[..j])
    decreases j - i
  {
    assert decoded[..j][..j - 1] == decoded[..j - 1];
    if i + 1 < j {
      NumericCountIncreases(decoded, i, j - 1);
    }
  }

  /**
   * The decoded `[lat, lng]` vertices as `[lng, lat]` positions, non-numbers
   * dropped: one position per numeric vertex, in the order of the vertices.
   */
  function LonLatPoints(decoded: seq<DecodedPoint>): (r: seq<Coord>)
    ensures |r| == NumericCount(decoded)
    ensures forall i :: 0 <= i < |decoded| && decoded[i].LatLng? ==>
              NumericCount(decoded[..i]) < |r| && r[NumericCount(decoded[..i])] == Coord(decoded[i].lng, decoded[i].lat)
    ensures forall c :: c in r <==> LatLng(c.lat, c.lon) in decoded
  {
    if |decoded| == 0 then []
    else
      var n := |decoded| - 1;
      var init := decoded[..n];
      var rest := LonLatPoints(init);
      var last := match decoded[n]
        case LatLng(lat, lng) => [Coord(lng, lat)]
        case NotANumber => [];
      assert decoded == init + [decoded[n]];
      assert forall i :: 0 <= i < n ==> decoded[i] == init[i] && init[..i] == decoded[..i];
      rest + last
  }

  /** The route line the classifier measures against, when there is one. */
  function RouteLine(v: VehiclePosition, geo: Geometry): (line: Option<seq<Coord>>)
    ensures line.Some? ==> |line.value| >= 2
  {
    match v.trip.geometry
    case None => None
    case Some(points) =>
      if points == "" then None
      else match geo.decode(points)
        case None => None
        case Some(decoded) =>
          if |decoded| < 2 then None
          else
            var coords := LonLatPoints(decoded);
            if |coords| < 2 then None
            else
              var simplified := Downsample(coords);
              if |simplified| < 2 then None else Some(simplified)
  }

  /**
   * `isFarFromRoute`: without a usable route line the answer is "not far";
   * outside the route's bounding box widened by the threshold it is "far"
   * without measuring; otherwise it is the measured distance against 2 km,
   * and a throwing measurement counts as "not far".
   */
  function IsFarFromRoute(v: VehiclePosition, geo: Geometry): (r: bool)
    ensures v.trip.geometry.None? ==> !r
    ensures RouteLine(v, geo).None? ==> !r
    ensures RouteLine(v, geo).Some?
      && OutsideBounds(Coord(v.lon, v.lat), BoundingBox(RouteLine(v, geo).value), BoundsBufferDegrees)
      ==> r
    ensures RouteLine(v, geo).Some? && geo.kmToLine(RouteLine(v, geo).value, Coord(v.lon, v.lat)).None?
      ==> (r <==> OutsideBounds(Coord(v.lon, v.lat), BoundingBox(RouteLine(v, geo).value), BoundsBufferDegrees))
    ensures RouteLine(v, geo).Some?
      && !OutsideBounds(Coord(v.lon, v.lat), BoundingBox(RouteLine(v, geo).value), BoundsBufferDegrees)
      && geo.kmToLine(RouteLine(v, geo).value, Coord(v.lon, v.lat)).Some?
      ==> (r <==> geo.kmToLine(RouteLine(v, geo).value, Coord(v.lon, v.lat)).value > DistanceThresholdKm)
  {
    match RouteLine(v, geo)
    case None => false
    case Some(line) =>
      var here := Coord(v.lon, v.lat);
      if OutsideBounds(here, BoundingBox(line), BoundsBufferDegrees) then true
      else match geo.kmToLine(line, here)
        case None => false
        case Some(km) => km > DistanceThresholdKm
  }

  /** Fewer than two numeric vertices never make a vehicle far from its route. */
  lemma FewValidPointsNotFar(v: VehiclePosition, geo: Geometry)
    requires v.trip.geometry.Some?
    requires geo.decode(v.trip.geometry.value).Some?
    requires |LonLatPoints(geo.decode(v.trip.geometry.value).value)| < 2
    ensures !IsFarFromRoute(v, geo)
  {
  }

  /** A vehicle on the route line (measured distance 0) is never far from it. */
  lemma OnRouteNotFar(v: VehiclePosition, geo: Geometry)
    requires RouteLine(v, geo).Some?
    requires geo.kmToLine(RouteLine(v, geo).value, Coord(v.lon, v.lat)) == Some(0.0)
    requires !OutsideBounds(Coord(v.lon, v.lat), BoundingBox(RouteLine(v, geo).value), BoundsBufferDegrees)
    ensures !IsFarFromRoute(v, geo)
  {
  }

  // ------------------------------------------------------------------ activity

  /** `a ?? b` on nullable times. */
  function Coalesce(a: Option<int>, b: Option<int>): Option<int> {
    if a.Some? then a else b
  }

  /** `current < departure`, false when either side is NaN or undefined. */
  predicate Before(current: Option<int>, departure: Option<int>) {
    current.Some? && departure.Some? && current.value < departure.value
  }

  function StopCoord(st: StopTime): Coord {
    Coord(st.stop.lon, st.stop.lat)
  }

  /** Within 1000 m of the first stop and before its (realtime, else scheduled) departure. */
  predicate WaitingAtOrigin(v: VehiclePosition, geo: Geometry, clock: WebTime.LocalClock)
    requires WebTime.ValidClock(clock)
    requires |v.trip.stoptimes| > 0
    ensures WaitingAtOrigin(v, geo, clock) ==>
              var first := v.trip.stoptimes[0];
              WebTime.SecondsSinceDay(clock).Some?
              && (first.realtimeDeparture.Some? || first.scheduledDeparture.Some?)
              && (first.realtimeDeparture.Some? ==> WebTime.SecondsSinceDay(clock).value < first.realtimeDeparture.value)
              && (first.realtimeDeparture.None? ==> WebTime.SecondsSinceDay(clock).value < first.scheduledDeparture.value)
  {
    var first := v.trip.stoptimes[0];
    geo.metres(Coord(v.lon, v.lat), StopCoord(first)) <= NearStationMetres
    && Before(WebTime.SecondsSinceDay(clock), Coalesce(first.realtimeDeparture, first.scheduledDeparture))
  }

  /** Within 1000 m of the last stop. */
  predicate ArrivedAtDestination(v: VehiclePosition, geo: Geometry)
    requires |v.trip.stoptimes| > 0
    ensures |v.trip.stoptimes| == 1 ==>
              (ArrivedAtDestination(v, geo) <==> geo.metres(Coord(v.lon, v.lat), StopCoord(v.trip.stoptimes[0])) <= NearStationMetres)
  {
    var stops := v.trip.stoptimes;
    geo.metres(Coord(v.lon, v.lat), StopCoord(stops[|stops| - 1])) <= NearStationMetres
  }

  /** `isActive`. */
  function IsActive(v: VehiclePosition, geo: Geometry, clock: WebTime.LocalClock): (r: bool)
    requires WebTime.ValidClock(clock)
    ensures |v.trip.stoptimes| == 0 ==> r
    ensures |v.trip.stoptimes| > 0 && IsFarFromRoute(v, geo) ==> !r
    ensures |v.trip.stoptimes| > 0 && WaitingAtOrigin(v, geo, clock) ==> !r
    ensures |v.trip.stoptimes| > 0 && ArrivedAtDestination(v, geo) ==> !r
    ensures !r ==> IsFarFromRoute(v, geo) || WaitingAtOrigin(v, geo, clock) || ArrivedAtDestination(v, geo)
  {
    var stops := v.trip.stoptimes;
    if |stops| == 0 then true
    else if IsFarFromRoute(v, geo) then false
    else
      var here := Coord(v.lon, v.lat);
      var currentTime := WebTime.SecondsSinceDay(clock);
      var first := stops[0];
      if geo.metres(here, StopCoord(first)) <= NearStationMetres
        && Before(currentTime, Coalesce(first.realtimeDeparture, first.scheduledDeparture))
      then false
      else if geo.metres(here, StopCoord(stops[|stops| - 1])) <= NearStationMetres then false
      else true
  }

  // --------------------------------------------------------- falsified data

  /** JavaScript truthiness of a nullable number: present and non-zero. */
  predicate Truthy(t: Option<int>) {
    t.Some? && t.value != 0
  }

  /** `a || b` on nullable numbers. */
  function Or(a: Option<int>, b: Option<int>): Option<int> {
    if Truthy(a) then a else b
  }

  /** `Math.round(x / 60)` for an integer `x`: the nearest minute, halves rounding up. */
  function RoundMinutes(x: int): (m: int)
    ensures -30 < 60 * m - x <= 30
  {
    (x + 30) / 60
  }

  function Abs(x: int): int {
    if x < 0 then -x else x
  }

  predicate HasRealtime(st: StopTime) {
    st.realtimeArrival.Some? || st.realtimeDeparture.Some?
  }

  /** Realtime equals scheduled at arrival and departure; a missing side counts as equal. */
  predicate RealtimeMatchesSchedule(st: StopTime) {
    && (st.realtimeArrival.None? || st.scheduledArrival.None? || st.realtimeArrival == st.scheduledArrival)
    && (st.realtimeDeparture.None? || st.scheduledDeparture.None? || st.realtimeDeparture == st.scheduledDeparture)
  }

  /** Case 1 of the source: the feed reports realtime somewhere and never a deviation. */
  predicate AllRealtimeMatch(stops: seq<StopTime>)
    ensures AllRealtimeMatch(stops) ==>
              exists k :: 0 <= k < |stops| && HasRealtime(stops[k]) && RealtimeMatchesSchedule(stops[k])
  {
    var realtimeStops := Filter(stops, HasRealtime, true);
    |realtimeStops| > 0
    && (assert realtimeStops[0] in realtimeStops;
        forall k :: 0 <= k < |realtimeStops| ==> RealtimeMatchesSchedule(realtimeStops[k]))
  }

  /** The filter-based test above, stated directly over the stop list. */
  lemma AllRealtimeMatchIff(stops: seq<StopTime>)
    ensures AllRealtimeMatch(stops) <==>
      (exists k :: 0 <= k < |stops| && HasRealtime(stops[k]))
      && (forall k :: 0 <= k < |stops| && HasRealtime(stops[k]) ==> RealtimeMatchesSchedule(stops[k]))
  {
    var rs := Filter(stops, HasRealtime, true);
    if exists k :: 0 <= k < |stops| && HasRealtime(stops[k]) {
      var k :| 0 <= k < |stops| && HasRealtime(stops[k]);
      assert stops[k] in rs;
    }
    if |rs| > 0 {
      assert rs[0] in stops;
    }
    forall k | 0 <= k < |stops| && HasRealtime(stops[k]) && AllRealtimeMatch(stops)
      ensures RealtimeMatchesSchedule(stops[k])
    {
      assert stops[k] in rs;
    }
    forall k | 0 <= k < |rs| ensures rs[k] in stops && HasRealtime(rs[k]) {
      assert rs[k] in rs;
    }
  }

  predicate ArrivesFrom(st: StopTime, t: int) {
    Truthy(st.realtimeArrival) && st.realtimeArrival.value >= t
  }

  predicate DepartsFrom(st: StopTime, t: int) {
    Truthy(st.realtimeDeparture) && st.realtimeDeparture.value >= t
  }

  /**
   * The current or next stop with realtime data: the first with a realtime
   * arrival at or after `t`, else the first with such a realtime departure.
   */
  function RelevantStop(stops: seq<StopTime>, t: int): (r: Option<StopTime>)
    ensures r.Some? ==> r.value in stops
    ensures r.Some? ==> ArrivesFrom(r.value, t) || DepartsFrom(r.value, t)
    ensures r.None? <==> forall k :: 0 <= k < |stops| ==> !ArrivesFrom(stops[k], t) && !DepartsFrom(stops[k], t)
    ensures (exists k :: 0 <= k < |stops| && ArrivesFrom(stops[k], t)) ==> r.Some? && ArrivesFrom(r.value, t)
    ensures (exists k :: 0 <= k < |stops| && ArrivesFrom(stops[k], t)) ==>
              exists i :: 0 <= i < |stops| && r == Some(stops[i]) && ArrivesFrom(stops[i], t)
                && forall k :: 0 <= k < i ==> !ArrivesFrom(stops[k], t)
    ensures (forall k :: 0 <= k < |stops| ==> !ArrivesFrom(stops[k], t)) && r.Some? ==>
              exists j :: 0 <= j < |stops| && r == Some(stops[j]) && DepartsFrom(stops[j], t)
                && forall k :: 0 <= k < j ==> !DepartsFrom(stops[k], t)
  {
    var i := FindIndex(stops, st => ArrivesFrom(st, t));
    if i >= 0 then Some(stops[i])
    else
      var j := FindIndex(stops, st => DepartsFrom(st, t));
      if j >= 0 then Some(stops[j]) else None
  }

  /**
   * Case 2 of the source: the schedule-derived delay disagrees with the
   * reported one. It fires exactly when the relevant stop has truthy
   * scheduled and realtime times, the realtime one at least 30 s later (a
   * positive delay once rounded to minutes), the reported delay is above 10
   * minutes, and the two delays differ by more than 5 minutes.
   */
  predicate ScheduleDelayDisagrees(v: VehiclePosition, secondsSinceMidnight: int)
    ensures ScheduleDelayDisagrees(v, secondsSinceMidnight) ==>
              v.delay > 10 && RelevantStop(v.trip.stoptimes, secondsSinceMidnight).Some?
    ensures ScheduleDelayDisagrees(v, secondsSinceMidnight) <==>
              RelevantStop(v.trip.stoptimes, secondsSinceMidnight).Some?
              && var st := RelevantStop(v.trip.stoptimes, secondsSinceMidnight).value;
                 var scheduled := Or(st.scheduledArrival, st.scheduledDeparture);
                 var realtime := Or(st.realtimeArrival, st.realtimeDeparture);
                 Truthy(scheduled) && Truthy(realtime)
                 && realtime.value - scheduled.value >= 30
                 && v.delay > 10
                 && Abs(RoundMinutes(realtime.value - scheduled.value) - v.delay) > 5
  {
    match RelevantStop(v.trip.stoptimes, secondsSinceMidnight)
    case None => false
    case Some(st) =>
      var scheduled := Or(st.scheduledArrival, st.scheduledDeparture);
      var realtime := Or(st.realtimeArrival, st.realtimeDeparture);
      Truthy(scheduled) && Truthy(realtime)
      && var scheduledDelay := RoundMinutes(realtime.value - scheduled.value);
         RoundedPositive(realtime.value - scheduled.value);
         scheduledDelay > 0 && v.delay > 10 && Abs(scheduledDelay - v.delay) > 5
  }

  /** `Math.round(x / 60) > 0` exactly when `x` is at least half a minute. */
  lemma RoundedPositive(x: int)
    ensures RoundMinutes(x) > 0 <==> x >= 30
  {
  }

  /**
   * `dataAppearsFalsified`; `secondsSinceMidnight` is the browser's local
   * seconds since midnight at the time of the call.
   */
  function DataAppearsFalsified(v: VehiclePosition, isStale: bool, secondsSinceMidnight: int): (r: bool)
    ensures isStale ==> !r
    ensures v.delay <= 2 ==> !r
    ensures !isStale && AllRealtimeMatch(v.trip.stoptimes) && v.delay > 5 ==> r
    ensures r ==> (AllRealtimeMatch(v.trip.stoptimes) && v.delay > 5) || (v.delay > 10 && ScheduleDelayDisagrees(v, secondsSinceMidnight))
    ensures !isStale && v.delay > 2 && ScheduleDelayDisagrees(v, secondsSinceMidnight) ==> r
  {
    if isStale then false
    else if v.delay <= 2 then false
    else if AllRealtimeMatch(v.trip.stoptimes) && v.delay > 5 then true
    else ScheduleDelayDisagrees(v, secondsSinceMidnight)
  }

  /** A vehicle whose stops all carry realtime equal to schedule but reports 20 minutes is flagged. */
  lemma ZeroDeviationWithLargeDelayIsFlagged(v: VehiclePosition, secondsSinceMidnight: int)
    requires v.delay == 20
    requires forall k :: 0 <= k < |v.trip.stoptimes| ==>
      HasRealtime(v.trip.stoptimes[k]) && RealtimeMatchesSchedule(v.trip.stoptimes[k])
    requires |v.trip.stoptimes| > 0
    ensures DataAppearsFalsified(v, false, secondsSinceMidnight)
  {
    AllRealtimeMatchIff(v.trip.stoptimes);
  }

  /**
   * A vehicle reporting 20 minutes while its relevant stop shows only 3
   * minutes of realtime lateness is flagged by the second rule.
   */
  lemma ScheduleLagWithLargeDelayIsFlagged(v: VehiclePosition, secondsSinceMidnight: int, st: StopTime, s: int)
    requires v.delay == 20 && s > 0
    requires RelevantStop(v.trip.stoptimes, secondsSinceMidnight) == Some(st)
    requires st.scheduledArrival == Some(s) && st.realtimeArrival == Some(s + 180)
    ensures DataAppearsFalsified(v, false, secondsSinceMidnight)
  {
    assert RoundMinutes(180) == 3;
  }

  // -------------------------------------------------------------- vehicle type

  datatype VehicleType = Hev | TramTrain | Train

  /** `vehicleType`: suburban HÉV lines start with "H", the tram-train is line "1". */
  function VehicleTypeOf(v: VehiclePosition): (t: VehicleType)
    ensures t == Hev <==> Strings.StartsWith(v.trip.route.longName, "H")
    ensures t == TramTrain <==> v.trip.route.longName == "1"
    ensures t == Train <==> !Strings.StartsWith(v.trip.route.longName, "H") && v.trip.route.longName != "1"
  {
    if Strings.StartsWith(v.trip.route.longName, "H") then
      assert v.trip.route.longName[0] == 'H';
      Hev
    else if v.trip.route.longName == "1" then TramTrain
    else Train
  }
}
