/**
 * The backend's service-day clock (apps/api/api/util/time.py): seconds since
 * local midnight of a service date, in Europe/Budapest time.
 *
 * Instants and wall-clock readings are whole seconds since the epoch. The
 * zone is given by two functions in the way pytz uses it: the UTC offset that
 * `astimezone` applies at an instant, and the offset that `localize` picks for
 * the local midnight that starts a given day (days are counted from the
 * epoch). Parsing the service date with `strptime("%Y-%m-%d")` is a function
 * from strings to day numbers, `None` where Python raises `ValueError`.
 */
module ApiTime {
  import opened Wrappers

  const SecondsPerDay := 86400

  /**
   * A Python `datetime`: its wall-clock reading (whole seconds since the
   * epoch as written), its microseconds and its UTC offset, `None` for a
   * naive value.
   */
  datatype DateTime = DateTime(wallSeconds: int, microsecond: int, utcOffset: Option<int>)

  datatype Zone = Zone(offsetAt: int -> int, midnightOffset: int -> int)

  /** The instant a datetime denotes; a naive datetime is localized as UTC. */
  function Instant(d: DateTime): int {
    d.wallSeconds - d.utcOffset.GetOr(0)
  }

  /** The Budapest wall-clock reading of `date.astimezone(BUDAPEST_TZ)`. */
  function LocalWall(d: DateTime, z: Zone): int {
    var i := Instant(d);
    i + z.offsetAt(i)
  }

  /** The local calendar day (days since the epoch) of the converted datetime. */
  function LocalDay(d: DateTime, z: Zone): int {
    LocalWall(d, z) / SecondsPerDay
  }

  /** `hour * 3600 + minute * 60 + second` of the local datetime. */
  function SecondsSinceMidnight(d: DateTime, z: Zone): (r: int)
    ensures 0 <= r < SecondsPerDay
    ensures r == LocalWall(d, z) - LocalDay(d, z) * SecondsPerDay
  {
    var x := LocalWall(d, z) % SecondsPerDay;
    var hour := x / 3600;
    var minute := (x % 3600) / 60;
    var second := (x % 3600) % 60;
    hour * 3600 + minute * 60 + second
  }

  /**
   * `delta.days` for `delta = current_day_midnight - since_date_local`:
   * `replace(hour=0, ...)` keeps the UTC offset of the converted datetime,
   * while `localize` gives the service date's midnight its own offset, and
   * `timedelta.days` floors the difference to whole days.
   */
  function DaysSince(d: DateTime, z: Zone, serviceDay: int): int {
    var currentMidnight := LocalDay(d, z) * SecondsPerDay - z.offsetAt(Instant(d));
    var serviceMidnight := serviceDay * SecondsPerDay - z.midnightOffset(serviceDay);
    (currentMidnight - serviceMidnight) / SecondsPerDay
  }

  /**
   * `get_seconds_since_day`, as written: whole days are added to the local
   * time of day, so the result always reads the local time of day modulo a
   * day, and it is that time of day alone when the date does not parse.
   */
  function SecondsSinceDay(serviceDate: string, d: DateTime, z: Zone, parseDate: string -> Option<int>): (r: int)
    ensures r % SecondsPerDay == SecondsSinceMidnight(d, z)
    ensures parseDate(serviceDate).None? ==> r == SecondsSinceMidnight(d, z)
  {
    match parseDate(serviceDate)
    case None => SecondsSinceMidnight(d, z)
    case Some(serviceDay) =>
      var s, k := SecondsSinceMidnight(d, z), DaysSince(d, z, serviceDay);
      assert (s + k * SecondsPerDay) % SecondsPerDay == s by {
        assert s + k * SecondsPerDay == SecondsPerDay * k + s;
      }
      s + k * SecondsPerDay
  }

  /** A service date that does not parse gives the plain seconds since local midnight. */
  lemma UnparsableServiceDate(serviceDate: string, d: DateTime, z: Zone, parseDate: string -> Option<int>)
    requires parseDate(serviceDate).None?
    ensures SecondsSinceDay(serviceDate, d, z, parseDate) == SecondsSinceMidnight(d, z)
    ensures 0 <= SecondsSinceDay(serviceDate, d, z, parseDate) < SecondsPerDay
  {
  }

  /** A naive datetime gives the same result as the same reading marked UTC. */
  lemma NaiveIsUtc(serviceDate: string, wall: int, us: int, z: Zone, parseDate: string -> Option<int>)
    ensures SecondsSinceDay(serviceDate, DateTime(wall, us, None), z, parseDate)
         == SecondsSinceDay(serviceDate, DateTime(wall, us, Some(0)), z, parseDate)
  {
  }

  /** Microseconds never influence the result. */
  lemma MicrosecondsIgnored(serviceDate: string, d: DateTime, us: int, z: Zone, parseDate: string -> Option<int>)
    ensures SecondsSinceDay(serviceDate, d.(microsecond := us), z, parseDate)
         == SecondsSinceDay(serviceDate, d, z, parseDate)
  {
  }

  /**
   * While the UTC offset now equals the one at the service date's midnight,
   * the day term counts calendar days, and the result is the local wall-clock
   * time elapsed since the service date's midnight; on the service date
   * itself it is the seconds since local midnight.
   */
  lemma {:induction false} SameOffsetCountsCalendarDays(serviceDate: string, d: DateTime, z: Zone, parseDate: string -> Option<int>)
    requires parseDate(serviceDate).Some?
    requires z.offsetAt(Instant(d)) == z.midnightOffset(parseDate(serviceDate).value)
    ensures DaysSince(d, z, parseDate(serviceDate).value) == LocalDay(d, z) - parseDate(serviceDate).value
    ensures SecondsSinceDay(serviceDate, d, z, parseDate)
         == LocalWall(d, z) - parseDate(serviceDate).value * SecondsPerDay
    ensures LocalDay(d, z) == parseDate(serviceDate).value ==>
              SecondsSinceDay(serviceDate, d, z, parseDate) == SecondsSinceMidnight(d, z)
  {
    var day := parseDate(serviceDate).value;
    var diff := (LocalDay(d, z) - day) * SecondsPerDay;
    assert diff / SecondsPerDay == LocalDay(d, z) - day;
  }

  /**
   * Counterexample: on 31 March 2024 (day 19813), when Budapest moves from
   * UTC+1 to UTC+2, a train of that service day observed at 10:00 local time
   * gets -50400 (a day too little) instead of 36000: today's midnight keeps
   * the +2 offset of the current time, the service date's midnight gets +1,
   * the two midnights are one hour apart the wrong way round and
   * `timedelta.days` floors that to -1.
   */
  lemma DaylightSavingStartLosesADay()
    ensures var z := Zone(i => 7200, day => 3600);
            var parse := (s: string) => Some(19813);
            var d := DateTime(19813 * SecondsPerDay + 36000, 0, Some(7200));
            SecondsSinceDay("2024-03-31", d, z, parse) == -50400
            && SecondsSinceDayByCalendar("2024-03-31", d, z, parse) == 36000
  {
    var z := Zone(i => 7200, day => 3600);
    var d := DateTime(19813 * SecondsPerDay + 36000, 0, Some(7200));
    assert Instant(d) == 19813 * SecondsPerDay + 28800;
    assert LocalWall(d, z) == 19813 * SecondsPerDay + 36000;
    assert LocalDay(d, z) == 19813;
    assert SecondsSinceMidnight(d, z) == 36000;
    assert DaysSince(d, z, 19813) == -1;
  }

  /**
   * The day count the code evidently means ("for accurate day diff"): the
   * number of local calendar days from the service date to today.
   */
  function SecondsSinceDayByCalendar(serviceDate: string, d: DateTime, z: Zone, parseDate: string -> Option<int>): (r: int)
    ensures parseDate(serviceDate).None? ==> r == SecondsSinceMidnight(d, z)
    ensures parseDate(serviceDate).Some? ==> r == LocalWall(d, z) - parseDate(serviceDate).value * SecondsPerDay
  {
    match parseDate(serviceDate)
    case None => SecondsSinceMidnight(d, z)
    case Some(serviceDay) => SecondsSinceMidnight(d, z) + (LocalDay(d, z) - serviceDay) * SecondsPerDay
  }

  /** Without an offset change the code as written and the calendar count agree. */
  lemma CalendarCountAgreesWithoutOffsetChange(serviceDate: string, d: DateTime, z: Zone, parseDate: string -> Option<int>)
    requires parseDate(serviceDate).Some? ==>
               z.offsetAt(Instant(d)) == z.midnightOffset(parseDate(serviceDate).value)
    ensures SecondsSinceDay(serviceDate, d, z, parseDate) == SecondsSinceDayByCalendar(serviceDate, d, z, parseDate)
  {
    if parseDate(serviceDate).Some? {
      SameOffsetCountsCalendarDays(serviceDate, d, z, parseDate);
    }
  }
}
