/**
 * The search box over the vehicles on the map
 * (`apps/web/src/components/information/SearchComponent.tsx`): the route
 * caption of a result, the text filter, and the ordering that lists current
 * trains before stale ones.
 */
module Search {
  import opened Wrappers
  import opened Schema
  import opened Seqs
  import opened Sorting
  import Strings
  import WebVehicle

  // ------------------------------------------------------------ route caption

  const MaxNameLength := 15
  const ShortenedPrefixLength := 12

  /** Names longer than 15 characters keep their first 12 and gain "...". */
  function ShortenName(name: string): (r: string)
    ensures |name| <= MaxNameLength ==> r == name
    ensures |name| > MaxNameLength ==>
      |r| == MaxNameLength && r[..ShortenedPrefixLength] == name[..ShortenedPrefixLength]
      && r[ShortenedPrefixLength..] == "..."
  {
    if |name| > MaxNameLength then name[..ShortenedPrefixLength] + "..." else name
  }

  const RouteArrow := " \U{2192} "

  /** `getStationRoute`: "first → last", or nothing without two named ends. */
  function StationRoute(stoptimes: seq<StopTime>): (r: Option<string>)
    ensures r.None? <==>
      |stoptimes| == 0 || stoptimes[0].stop.name == "" || stoptimes[|stoptimes| - 1].stop.name == ""
    ensures r.Some? ==>
      var first := ShortenName(stoptimes[0].stop.name);
      var last := ShortenName(stoptimes[|stoptimes| - 1].stop.name);
      && |r.value| == |first| + |RouteArrow| + |last|
      && r.value[..|first|] == first
      && r.value[|first|..|first| + |RouteArrow|] == RouteArrow
      && r.value[|first| + |RouteArrow|..] == last
  {
    if |stoptimes| == 0 then None
    else
      var first := stoptimes[0].stop.name;
      var last := stoptimes[|stoptimes| - 1].stop.name;
      if first == "" || last == "" then None
      else Some(ShortenName(first) + RouteArrow + ShortenName(last))
  }

  // ------------------------------------------------------------------- filter

  /**
   * The id match: ids of more than two characters, minus their first two,
   * contain the lower-cased query with spaces and hyphens removed.
   */
  predicate VehicleIdMatches(vehicleId: string, query: string)
    ensures VehicleIdMatches(vehicleId, query) <==>
              |vehicleId| > 2 && exists i :: Strings.OccursAt(vehicleId[2..], SanitizeQuery(query), i)
  {
    if |vehicleId| > 2 then
      Strings.ContainsIffOccurs(vehicleId[2..], SanitizeQuery(query));
      Strings.Contains(vehicleId[2..], SanitizeQuery(query))
    else false
  }

  function SanitizeQuery(query: string): (r: string)
    ensures ' ' !in r && '-' !in r
  {
    Strings.RemoveAll(Strings.RemoveAll(query, ' '), '-')
  }

  /** `haystack?.includes(query)` on the lower-cased name of a stop that may be missing. */
  predicate StopNameMatches(stoptimes: seq<StopTime>, index: int, query: string) {
    0 <= index < |stoptimes| && Strings.Contains(Strings.ToLowerCase(stoptimes[index].stop.name), query)
  }

  /**
   * The filter callback: a blank query keeps everything; otherwise a match
   * on the trip number, the route name, the id or the first or last stop's
   * name keeps the location, whatever the case of either side.
   */
  predicate Matches(v: VehiclePosition, searchQuery: string)
    ensures Strings.IsBlank(searchQuery) ==> Matches(v, searchQuery)
    ensures VehicleIdMatches(v.vehicleId, Strings.ToLowerCase(searchQuery)) ==> Matches(v, searchQuery)
    ensures Strings.Contains(Strings.ToLowerCase(v.trip.tripShortName), Strings.ToLowerCase(searchQuery))
            ==> Matches(v, searchQuery)
    ensures !Strings.IsBlank(searchQuery) ==>
              var q := Strings.ToLowerCase(searchQuery);
              (Matches(v, searchQuery) <==>
                 Strings.Contains(Strings.ToLowerCase(v.trip.tripShortName), q)
                 || Strings.Contains(Strings.ToLowerCase(v.trip.route.longName), q)
                 || VehicleIdMatches(v.vehicleId, q)
                 || (|v.trip.stoptimes| > 0
                     && (Strings.Contains(Strings.ToLowerCase(v.trip.stoptimes[0].stop.name), q)
                         || Strings.Contains(Strings.ToLowerCase(v.trip.stoptimes[|v.trip.stoptimes| - 1].stop.name), q))))
  {
    if Strings.IsBlank(searchQuery) then true
    else
      var query := Strings.ToLowerCase(searchQuery);
      var stops := v.trip.stoptimes;
      Strings.Contains(Strings.ToLowerCase(v.trip.tripShortName), query)
      || Strings.Contains(Strings.ToLowerCase(v.trip.route.longName), query)
      || VehicleIdMatches(v.vehicleId, query)
      || StopNameMatches(stops, 0, query)
      || StopNameMatches(stops, |stops| - 1, query)
  }

  /** A blank or whitespace-only query keeps every location, in order. */
  lemma BlankQueryKeepsAll(locations: seq<VehiclePosition>, searchQuery: string)
    requires Strings.IsBlank(searchQuery)
    ensures Filter(locations, v => Matches(v, searchQuery), true) == locations
  {
    FilterAll(locations, v => Matches(v, searchQuery), true);
  }

  /** The filter ignores the case of the query. */
  lemma MatchesIgnoresQueryCase(v: VehiclePosition, searchQuery: string)
    ensures Matches(v, Strings.ToLowerCase(searchQuery)) == Matches(v, searchQuery)
  {
    Strings.ToLowerCaseIdempotent(searchQuery);
    var lower := Strings.ToLowerCase(searchQuery);
    forall k | 0 <= k < |searchQuery| ensures Strings.IsWhitespace(lower[k]) <==> Strings.IsWhitespace(searchQuery[k]) {
    }
  }

  /** Every name field contains the empty string: a query of only spaces and hyphens matches on the id. */
  lemma SeparatorQueryMatchesLongIds(v: VehiclePosition, searchQuery: string)
    requires |v.vehicleId| > 2 && !Strings.IsBlank(searchQuery)
    requires forall k :: 0 <= k < |searchQuery| ==> searchQuery[k] == ' ' || searchQuery[k] == '-'
    ensures Matches(v, searchQuery)
  {
    var query := Strings.ToLowerCase(searchQuery);
    assert SanitizeQuery(query) == [] by {
      forall k | 0 <= k < |query| ensures query[k] == ' ' || query[k] == '-' {
      }
      var spaceless := Strings.RemoveAll(query, ' ');
      forall k | 0 <= k < |spaceless| ensures spaceless[k] == '-' {
        assert spaceless[k] in spaceless;
      }
      Strings.RemoveAllOnly(spaceless, '-');
    }
    Strings.ContainsEmpty(v.vehicleId[2..]);
  }

  // ----------------------------------------------------------------- ordering

  datatype SortOption = Number | Delay | Speed
  datatype SortDirection = Asc | Desc

  /** The sign of a real difference: all `Array.prototype.sort` reads of a comparator. */
  function Sign(x: real): (r: int)
    ensures r < 0 <==> x < 0.0
    ensures r > 0 <==> x > 0.0
  {
    if x < 0.0 then -1 else if x > 0.0 then 1 else 0
  }

  /**
   * The comparator of the result list: `collate` stands for
   * `localeCompare(..., { numeric: true })` on trip numbers.
   */
  function Compare(option: SortOption, direction: SortDirection, collate: (string, string) -> int,
                   a: VehiclePosition, b: VehiclePosition): (r: int)
    ensures option == Delay ==> (r < 0 <==> if direction == Asc then a.delay < b.delay else b.delay < a.delay)
    ensures option == Speed ==> -1 <= r <= 1
                                && (r < 0 <==> if direction == Asc then a.speed < b.speed else b.speed < a.speed)
    ensures option == Number ==>
              (r < 0 <==> if direction == Asc then collate(a.trip.tripShortName, b.trip.tripShortName) < 0
                          else collate(a.trip.tripShortName, b.trip.tripShortName) > 0)
  {
    var comparison := match option
      case Number => collate(a.trip.tripShortName, b.trip.tripShortName)
      case Delay => a.delay - b.delay
      case Speed => Sign(a.speed - b.speed);
    if direction == Asc then comparison else -comparison
  }

  function Comparator(option: SortOption, direction: SortDirection, collate: (string, string) -> int)
    : (VehiclePosition, VehiclePosition) -> int
  {
    (a, b) => Compare(option, direction, collate, a, b)
  }

  /** "desc" is exactly the negated "asc" comparator. */
  lemma DescendingNegates(option: SortOption, collate: (string, string) -> int, a: VehiclePosition, b: VehiclePosition)
    ensures Compare(option, Desc, collate, a, b) == -Compare(option, Asc, collate, a, b)
    ensures option == Delay ==> (Compare(option, Asc, collate, a, b) < 0 <==> a.delay < b.delay)
    ensures option == Speed ==> (Compare(option, Asc, collate, a, b) < 0 <==> a.speed < b.speed)
  {
  }

  /** Numeric differences always order consistently; trip numbers do when the collation does. */
  lemma ComparatorIsTotalPreorder(option: SortOption, direction: SortDirection, collate: (string, string) -> int)
    requires option == Number ==> IsTotalPreorder(collate)
    ensures IsTotalPreorder(Comparator(option, direction, collate))
  {
    var asc := Comparator(option, Asc, collate);
    forall a, b, c | asc(a, b) <= 0 && asc(b, c) <= 0 ensures asc(a, c) <= 0 {
      if option == Number {
        assert collate(a.trip.tripShortName, b.trip.tripShortName) <= 0;
        assert collate(b.trip.tripShortName, c.trip.tripShortName) <= 0;
      }
    }
    forall a, b ensures asc(a, b) < 0 <==> asc(b, a) > 0 {
      if option == Number {
        assert asc(a, b) == collate(a.trip.tripShortName, b.trip.tripShortName);
        assert asc(b, a) == collate(b.trip.tripShortName, a.trip.tripShortName);
      }
    }
    assert IsTotalPreorder(asc);
    if direction == Desc {
      NegatedPreorder(asc, Comparator(option, Desc, collate));
    }
  }

  function Filtered(locations: seq<VehiclePosition>, searchQuery: string): (r: seq<VehiclePosition>)
    ensures forall x :: x in r <==> x in locations && Matches(x, searchQuery)
  {
    Filter(locations, v => Matches(v, searchQuery), true)
  }

  /** No element with the flag comes before one without it. */
  ghost predicate FlaggedLast<T>(r: seq<T>, flagged: T -> bool) {
    forall i, j :: 0 <= i < j < |r| && flagged(r[i]) ==> flagged(r[j])
  }

  lemma ConcatFlaggedLast<T>(a: seq<T>, b: seq<T>, flagged: T -> bool)
    requires forall x :: x in a ==> !flagged(x)
    requires forall x :: x in b ==> flagged(x)
    ensures FlaggedLast(a + b, flagged)
  {
    var r := a + b;
    forall i, j | 0 <= i < j < |r| && flagged(r[i]) ensures flagged(r[j]) {
      assert r[j] == b[j - |a|];
    }
  }

  /** The unflagged elements sorted, then the flagged ones sorted. */
  function SortFlaggedLast<T(!new)>(s: seq<T>, cmp: (T, T) -> int, flagged: T -> bool): (r: seq<T>)
    ensures multiset(r) == multiset(s)
    ensures FlaggedLast(r, flagged)
  {
    var unflagged := Filter(s, flagged, false);
    var rest := Filter(s, flagged, true);
    FilterPartition(s, flagged);
    var a := Sort(unflagged, cmp);
    var b := Sort(rest, cmp);
    SortKeepsFlag(s, cmp, flagged, false);
    SortKeepsFlag(s, cmp, flagged, true);
    ConcatFlaggedLast(a, b, flagged);
    a + b
  }

  lemma SortKeepsFlag<T(!new)>(s: seq<T>, cmp: (T, T) -> int, flagged: T -> bool, keep: bool)
    ensures forall x :: x in Sort(Filter(s, flagged, keep), cmp) ==> flagged(x) == keep
  {
    var f := Filter(s, flagged, keep);
    forall x | x in Sort(f, cmp) ensures flagged(x) == keep {
      assert x in multiset(Sort(f, cmp));
    }
  }

  function IsStaleAt(nowMs: int): VehiclePosition -> bool {
    v => WebVehicle.IsStale(v, nowMs)
  }

  /** No stale train is listed before a current one. */
  ghost predicate StaleLast(r: seq<VehiclePosition>, nowMs: int) {
    forall i, j :: 0 <= i < j < |r| && WebVehicle.IsStale(r[i], nowMs) ==> WebVehicle.IsStale(r[j], nowMs)
  }

  lemma StaleLastOfFlagged(r: seq<VehiclePosition>, nowMs: int)
    requires FlaggedLast(r, IsStaleAt(nowMs))
    ensures StaleLast(r, nowMs)
  {
    forall i, j | 0 <= i < j < |r| && WebVehicle.IsStale(r[i], nowMs) ensures WebVehicle.IsStale(r[j], nowMs) {
      assert IsStaleAt(nowMs)(r[i]);
    }
  }

  /** `filteredAndSortedResults`: non-stale trains sorted, then stale trains sorted. */
  function FilteredAndSorted(locations: seq<VehiclePosition>, searchQuery: string, option: SortOption,
                             direction: SortDirection, collate: (string, string) -> int, nowMs: int)
    : (r: seq<VehiclePosition>)
    ensures multiset(r) == multiset(Filtered(locations, searchQuery))
    ensures forall x :: x in r <==> x in locations && Matches(x, searchQuery)
    ensures StaleLast(r, nowMs)
  {
    var filtered := Filtered(locations, searchQuery);
    var r := SortFlaggedLast(filtered, Comparator(option, direction, collate), IsStaleAt(nowMs));
    assert forall x :: x in r <==> x in multiset(filtered);
    StaleLastOfFlagged(r, nowMs);
    r
  }

  /** With a consistent comparator both halves of the result are sorted. */
  lemma FilteredAndSortedOrdered(locations: seq<VehiclePosition>, searchQuery: string, option: SortOption,
                                 direction: SortDirection, collate: (string, string) -> int, nowMs: int)
    requires option == Number ==> IsTotalPreorder(collate)
    ensures var r := FilteredAndSorted(locations, searchQuery, option, direction, collate, nowMs);
      var n := |Filter(Filtered(locations, searchQuery), IsStaleAt(nowMs), false)|;
      n <= |r| && Sorted(r[..n], Comparator(option, direction, collate))
      && Sorted(r[n..], Comparator(option, direction, collate))
  {
    var filtered := Filtered(locations, searchQuery);
    var cmp := Comparator(option, direction, collate);
    var nonStale := Filter(filtered, IsStaleAt(nowMs), false);
    var stale := Filter(filtered, IsStaleAt(nowMs), true);
    ComparatorIsTotalPreorder(option, direction, collate);
    SortSorted(nonStale, cmp);
    SortSorted(stale, cmp);
    var r := FilteredAndSorted(locations, searchQuery, option, direction, collate, nowMs);
    assert r == Sort(nonStale, cmp) + Sort(stale, cmp);
    assert r[..|nonStale|] == Sort(nonStale, cmp);
    assert r[|nonStale|..] == Sort(stale, cmp);
  }
}
