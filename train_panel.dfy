/**
 * The pure helpers of the train details panel
 * (`apps/web/src/components/information/TrainPanel.tsx`): the UIC number
 * layout, the delay text colour, the timetable delay, the split of info
 * services and the progress marker between stops.
 */
module TrainPanel {
  import opened Wrappers
  import opened Schema
  import opened Seqs
  import opened DelayBands
  import Strings
  import Icon
  import WebVehicle

  // ------------------------------------------------------------------ UIC code

  /** The second `:`-separated field of the id, or the whole id when that is missing or empty. */
  function NumericPart(vehicleId: string): (r: string)
    ensures r == "" ==> vehicleId == ""
    ensures r != vehicleId ==> ':' !in r
  {
    var parts := Strings.Split(vehicleId, ':');
    if |parts| >= 2 && parts[1] != "" then parts[1] else vehicleId
  }

  function PaddedNumber(vehicleId: string): (p: string)
    ensures |p| >= 12
  {
    Strings.PadStart(NumericPart(vehicleId), 12, '0')
  }

  /** `XX XX XXXX XXX-X` over the first twelve characters of `p`. */
  function Layout(p: string): (r: string)
    requires |p| >= 12
    ensures |r| == 16
    ensures r[2] == ' ' && r[5] == ' ' && r[10] == ' ' && r[14] == '-'
  {
    p[0..2] + " " + p[2..4] + " " + p[4..8] + " " + p[8..11] + "-" + p[11..12]
  }

  /** `formatUICCode`. */
  function FormatUICCode(vehicleId: string): (r: string)
    ensures |r| == 16
    ensures r[2] == ' ' && r[5] == ' ' && r[10] == ' ' && r[14] == '-'
  {
    Layout(PaddedNumber(vehicleId))
  }

  /** The characters of a formatted code with the four separators taken out. */
  function Unformat(r: string): string
    requires |r| == 16
  {
    r[..2] + r[3..5] + r[6..10] + r[11..14] + r[15..]
  }

  lemma UnformatLayout(p: string)
    requires |p| >= 12
    ensures Unformat(Layout(p)) == p[..12]
  {
    var r := Layout(p);
    forall k | 0 <= k < 16 && k !in {2, 5, 10, 14}
      ensures r[k] == p[k - (if k < 2 then 0 else if k < 5 then 1 else if k < 10 then 2 else if k < 14 then 3 else 4)]
    {
    }
    assert Unformat(r) == p[..12];
  }

  /** Removing the separators gives back the first twelve characters of the padded number. */
  lemma UnformatFormat(vehicleId: string)
    ensures Unformat(FormatUICCode(vehicleId)) == PaddedNumber(vehicleId)[..12]
  {
    UnformatLayout(PaddedNumber(vehicleId));
  }

  /** An id without a colon is used whole. */
  lemma NumericPartWithoutColon(vehicleId: string)
    requires ':' !in vehicleId
    ensures NumericPart(vehicleId) == vehicleId
  {
    Strings.SplitWithoutSeparator(vehicleId, ':');
  }

  /** A short number is zero-padded on the left and survives formatting intact. */
  lemma ShortNumberKept(vehicleId: string)
    requires |NumericPart(vehicleId)| <= 12
    ensures Unformat(FormatUICCode(vehicleId))[12 - |NumericPart(vehicleId)|..] == NumericPart(vehicleId)
    ensures forall k :: 0 <= k < 12 - |NumericPart(vehicleId)| ==> Unformat(FormatUICCode(vehicleId))[k] == '0'
  {
    var n := NumericPart(vehicleId);
    var p := PaddedNumber(vehicleId);
    assert |p| == 12;
    UnformatFormat(vehicleId);
    assert p[..12] == p;
    assert Unformat(FormatUICCode(vehicleId)) == p;
  }

  // -------------------------------------------------------------- delay colour

  const LightPalette: seq<string> := ["text-green-600", "text-yellow-400", "text-orange-500", "text-red-600"]
  const DarkPalette: seq<string> := ["text-green-400", "text-yellow-200", "text-orange-300", "text-red-400"]

  /** `getDelayColor(delay, darkBg)`: the Tailwind text class of the delay band. */
  function DelayColor(delay: int, darkBg: bool): (c: string)
    ensures c == (if darkBg then DarkPalette else LightPalette)[Severity(delay)]
  {
    if delay >= RedThreshold then (if darkBg then "text-red-400" else "text-red-600")
    else if delay >= OrangeThreshold then (if darkBg then "text-orange-300" else "text-orange-500")
    else if delay >= YellowThreshold then (if darkBg then "text-yellow-200" else "text-yellow-400")
    else if darkBg then "text-green-400" else "text-green-600"
  }

  /** The band of a palette class, or -1 for a class of neither palette. */
  function BandOf(c: string): (b: int)
    ensures 0 <= b < 4 ==> LightPalette[b] == c || DarkPalette[b] == c
  {
    if c in {"text-green-600", "text-green-400"} then 0
    else if c in {"text-yellow-400", "text-yellow-200"} then 1
    else if c in {"text-orange-500", "text-orange-300"} then 2
    else if c in {"text-red-600", "text-red-400"} then 3
    else -1
  }

  /** A dark background changes only the shade, never the band. */
  lemma DarkBackgroundKeepsBand(delay: int)
    ensures BandOf(DelayColor(delay, true)) == BandOf(DelayColor(delay, false)) == Severity(delay)
    ensures DelayColor(delay, true) != DelayColor(delay, false)
  {
  }

  /** The panel text and the map marker of an active, current train show the same band. */
  lemma PanelMatchesMarker(delay: int)
    ensures BandOf(DelayColor(delay, false)) == Icon.Rank(Icon.DelayColor(delay, true, false))
  {
  }

  // -------------------------------------------------------------- time display

  /**
   * The delay `TimeDisplay` shows: nothing (a dash) when either time is
   * null or 0, else the difference rounded to the nearest minute.
   */
  function TimeDisplayDelay(scheduled: Option<int>, realtime: Option<int>): (d: Option<int>)
    ensures d.None? <==> !WebVehicle.Truthy(scheduled) || !WebVehicle.Truthy(realtime)
    ensures d.Some? ==> -30 < 60 * d.value - (realtime.value - scheduled.value) <= 30
  {
    if !WebVehicle.Truthy(scheduled) || !WebVehicle.Truthy(realtime) then None
    else Some(WebVehicle.RoundMinutes(realtime.value - scheduled.value))
  }

  /** A train 90 seconds late shows 2 minutes: halves round up. */
  lemma TimeDisplayRoundsHalfUp()
    ensures TimeDisplayDelay(Some(3600), Some(3690)) == Some(2)
    ensures TimeDisplayDelay(Some(3600), Some(3570)) == Some(0)
  {
  }

  // ------------------------------------------------------------- info services

  /** A service announced for the whole trip: from the first to the last stop. */
  predicate IsWholeTrip(s: InfoService, totalStops: int) {
    s.fromStopIndex == 0 && s.tillStopIndex == totalStops - 1
  }

  function AllStopsServices(services: seq<InfoService>, totalStops: int): (r: seq<InfoService>)
    ensures forall s :: s in r <==> s in services && s.fromStopIndex == 0 && s.tillStopIndex == totalStops - 1
  {
    Filter(services, s => IsWholeTrip(s, totalStops), true)
  }

  function SpecificStopServices(services: seq<InfoService>, totalStops: int): (r: seq<InfoService>)
    ensures forall s :: s in r <==> s in services && (s.fromStopIndex != 0 || s.tillStopIndex != totalStops - 1)
  {
    Filter(services, s => IsWholeTrip(s, totalStops), false)
  }

  /** Every info service lands in exactly one of the two lists, and nothing else does. */
  lemma ServicePartition(services: seq<InfoService>, totalStops: int)
    ensures multiset(AllStopsServices(services, totalStops)) + multiset(SpecificStopServices(services, totalStops))
      == multiset(services)
    ensures forall s :: s in AllStopsServices(services, totalStops) <==> s in services && IsWholeTrip(s, totalStops)
    ensures forall s :: s in SpecificStopServices(services, totalStops) <==> s in services && !IsWholeTrip(s, totalStops)
  {
    FilterPartition(services, s => IsWholeTrip(s, totalStops));
  }

  predicate Covers(s: InfoService, stopIndex: int) {
    stopIndex >= s.fromStopIndex && stopIndex <= s.tillStopIndex
  }

  /** `getServicesForStop(i)`: the per-stop services whose range covers stop `i`. */
  function ServicesForStop(specific: seq<InfoService>, stopIndex: int): (r: seq<InfoService>)
    ensures forall s :: s in r <==> s in specific && s.fromStopIndex <= stopIndex <= s.tillStopIndex
  {
    Filter(specific, s => Covers(s, stopIndex), true)
  }

  /** The services for a stop keep their original order. */
  lemma ServicesForStopInOrder(specific: seq<InfoService>, stopIndex: int)
    ensures IsSubsequence(ServicesForStop(specific, stopIndex), specific)
  {
    FilterIsSubsequence(specific, s => Covers(s, stopIndex), true);
  }

  // ------------------------------------------------------- progress in the table

  /** `processedStops.find(ps => ps.id === name)`. */
  function ProcessedStopFor(processed: seq<ProcessedStop>, name: string): (r: Option<ProcessedStop>)
    ensures r.Some? ==> r.value in processed && r.value.id == name
    ensures r.None? <==> forall k :: 0 <= k < |processed| ==> processed[k].id != name
    ensures r.Some? ==> exists i :: 0 <= i < |processed| && processed[i] == r.value
                                    && forall k :: 0 <= k < i ==> processed[k].id != name
  {
    var i := FindIndex(processed, (ps: ProcessedStop) => ps.id == name);
    if i < 0 then None else Some(processed[i])
  }

  /** `hasPassed`: the vehicle is beyond the processed stop of the same name. */
  function HasPassed(v: VehiclePosition, st: StopTime): (r: bool)
    ensures r ==> exists k :: (0 <= k < |v.processedStops|
      && v.processedStops[k].id == st.stop.name && v.trainPosition > v.processedStops[k].distanceAlongRoute)
    ensures (forall k :: 0 <= k < |v.processedStops| ==> v.processedStops[k].id != st.stop.name) ==> !r
  {
    match ProcessedStopFor(v.processedStops, st.stop.name)
    case None => false
    case Some(ps) => v.trainPosition > ps.distanceAlongRoute
  }

  /** With unique stop ids, `hasPassed` holds exactly when the vehicle is beyond that stop. */
  lemma HasPassedUniqueIds(v: VehiclePosition, st: StopTime, k: int)
    requires 0 <= k < |v.processedStops| && v.processedStops[k].id == st.stop.name
    requires forall a, b :: 0 <= a < b < |v.processedStops| ==> v.processedStops[a].id != v.processedStops[b].id
    ensures HasPassed(v, st) <==> v.trainPosition > v.processedStops[k].distanceAlongRoute
  {
    var r := ProcessedStopFor(v.processedStops, st.stop.name);
    var i := FindIndex(v.processedStops, (ps: ProcessedStop) => ps.id == st.stop.name);
    assert i >= 0 && v.processedStops[i].id == st.stop.name;
    assert i == k;
  }

  /** A JavaScript number that may be NaN (`0 / 0` on a zero-length leg). */
  datatype Percent = Percent(value: real) | NaN

  /** `Math.min(100, Math.max(0, x))`. */
  function Clamp(x: real): real {
    if x < 0.0 then 0.0 else if x > 100.0 then 100.0 else x
  }

  /** The vehicle lies between this row's processed stop and the processed stop one row below. */
  predicate Between(v: VehiclePosition, st: StopTime, index: nat) {
    match ProcessedStopFor(v.processedStops, st.stop.name)
    case None => false
    case Some(ps) =>
      index + 1 < |v.processedStops|
      && ps.distanceAlongRoute <= v.trainPosition <= v.processedStops[index + 1].distanceAlongRoute
  }

  /** `trainPositionPercent` of the row `index` showing stop time `st`. */
  function TrainPositionPercent(v: VehiclePosition, st: StopTime, index: nat): (p: Percent)
    ensures p.Percent? ==> 0.0 <= p.value <= 100.0
    ensures !Between(v, st, index) ==> p == Percent(0.0)
  {
    match ProcessedStopFor(v.processedStops, st.stop.name)
    case None => Percent(0.0)
    case Some(ps) =>
      if index + 1 < |v.processedStops| then
        var next := v.processedStops[index + 1];
        if ps.distanceAlongRoute <= v.trainPosition <= next.distanceAlongRoute then
          var segment := next.distanceAlongRoute - ps.distanceAlongRoute;
          if segment == 0.0 then NaN
          else Percent(Clamp((v.trainPosition - ps.distanceAlongRoute) / segment * 100.0))
        else Percent(0.0)
      else Percent(0.0)
  }

  /**
   * Between two distinct stops the clamp never binds: the marker sits at
   * exactly the covered fraction of the leg. A zero-length leg gives NaN.
   */
  lemma PercentIsCoveredFraction(v: VehiclePosition, st: StopTime, index: nat)
    requires Between(v, st, index)
    ensures var ps := ProcessedStopFor(v.processedStops, st.stop.name).value;
      var segment := v.processedStops[index + 1].distanceAlongRoute - ps.distanceAlongRoute;
      && (segment == 0.0 ==> TrainPositionPercent(v, st, index) == NaN)
      && (segment != 0.0 ==>
            TrainPositionPercent(v, st, index) == Percent((v.trainPosition - ps.distanceAlongRoute) / segment * 100.0))
  {
    var ps := ProcessedStopFor(v.processedStops, st.stop.name).value;
    var segment := v.processedStops[index + 1].distanceAlongRoute - ps.distanceAlongRoute;
    if segment != 0.0 {
      FractionAtMostOne(v.trainPosition - ps.distanceAlongRoute, segment);
    }
  }

  lemma FractionAtMostOne(a: real, b: real)
    requires 0.0 <= a <= b && b > 0.0
    ensures 0.0 <= a / b * 100.0 <= 100.0
  {
    var q := a / b;
    assert q * b == a;
  }
}
