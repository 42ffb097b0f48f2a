/** The web client's time helpers (`apps/web/src/util/time.ts`). */
module WebTime {
  import opened Wrappers
  import opened Strings

  const SecondsPerDay := 86400

  /**
   * What Luxon reads off the clock: the Europe/Budapest wall-clock hour,
   * minute and second of "now", and the fractional number of days from the
   * service date's local midnight to now. `daysSinceService` is `None` when the
   * service date does not parse, where Luxon's difference is NaN.
   */
  datatype LocalClock = LocalClock(hour: int, minute: int, second: int, daysSinceService: Option<real>)

  predicate ValidClock(c: LocalClock) {
    0 <= c.hour < 24 && 0 <= c.minute < 60 && 0 <= c.second < 60
  }

  /** Seconds since local midnight of the wall-clock reading. */
  function SecondsOfDay(c: LocalClock): int {
    c.hour * 3600 + c.minute * 60 + c.second
  }

  /**
   * `getSecondsSinceDay`: seconds since local midnight of the service date,
   * counting whole days by flooring Luxon's fractional day difference.
   * `None` stands for the NaN that an unparsable service date produces.
   */
  function SecondsSinceDay(c: LocalClock): (r: Option<int>)
    requires ValidClock(c)
    ensures r.None? <==> c.daysSinceService.None?
    ensures r.Some? ==> r.value / SecondsPerDay == c.daysSinceService.value.Floor
    ensures r.Some? ==> r.value % SecondsPerDay == SecondsOfDay(c)
  {
    match c.daysSinceService
    case None => None
    case Some(days) => Some(SecondsOfDay(c) + days.Floor * SecondsPerDay)
  }

  /** On the service date itself the result is the plain seconds since local midnight. */
  lemma SecondsSinceDayOnServiceDate(c: LocalClock)
    requires ValidClock(c)
    requires c.daysSinceService.Some? && 0.0 <= c.daysSinceService.value < 1.0
    ensures SecondsSinceDay(c) == Some(SecondsOfDay(c))
    ensures 0 <= SecondsOfDay(c) < SecondsPerDay
  {
  }

  /** JavaScript's `%` for a positive divisor: the remainder takes the sign of the dividend. */
  function JsRem(a: int, b: int): (r: int)
    requires b > 0
    ensures a >= 0 ==> r == a % b
    ensures -b < r < b
  {
    if a >= 0 then a % b else -((-a) % b)
  }

  /** A field rendered as `n < 10 ? "0" + n : String(n)`. */
  function TwoDigits(n: int): (r: string)
    ensures |r| >= 2
    ensures 0 <= n ==> forall k :: 0 <= k < |r| ==> '0' <= r[k] <= '9'
  {
    if n < 10 then "0" + IntToString(n) else IntToString(n)
  }

  /**
   * `formatSecondsAsTime`: "HH:MM" from seconds, the hour taken modulo 24;
   * from a non-negative time always five characters with the colon in the
   * middle.
   */
  function FormatSecondsAsTime(seconds: int): (r: string)
    ensures ':' in r
    ensures seconds >= 0 ==> |r| == 5 && r[2] == ':'
  {
    var hours := JsRem(seconds / 3600, 24);
    var minutes := JsRem(seconds, 3600) / 60;
    TwoDigits(hours) + ":" + TwoDigits(minutes)
  }

  lemma TwoDigitsOfSmall(n: int)
    requires 0 <= n < 100
    ensures |TwoDigits(n)| == 2
    ensures '0' <= TwoDigits(n)[0] <= '9' && '0' <= TwoDigits(n)[1] <= '9'
    ensures ParseDigits(TwoDigits(n)) == n
  {
    var r := TwoDigits(n);
    if n < 10 {
      assert r == ['0', DigitChar(n)];
    } else {
      assert NatToString(n / 10) == [DigitChar(n / 10)];
      assert r == [DigitChar(n / 10), DigitChar(n % 10)];
    }
    assert r[..1][..0] == [];
    assert ParseDigits(r[..1]) == r[0] as int - '0' as int;
    assert ParseDigits(r) == ParseDigits(r[..1]) * 10 + (r[1] as int - '0' as int);
  }

  /**
   * For a non-negative time the result is exactly "HH:MM": both fields two
   * decimal digits, the hour field reading back as `floor(s / 3600) mod 24` and
   * the minute field as `floor((s mod 3600) / 60)`.
   */
  lemma FormatSecondsAsTimeShape(s: int)
    requires s >= 0
    ensures var r := FormatSecondsAsTime(s);
      && |r| == 5 && r[2] == ':'
      && (forall k :: 0 <= k < 5 && k != 2 ==> '0' <= r[k] <= '9')
      && ParseDigits(r[..2]) == (s / 3600) % 24 < 24
      && ParseDigits(r[3..]) == (s % 3600) / 60 < 60
  {
    var h := (s / 3600) % 24;
    var m := (s % 3600) / 60;
    TwoDigitsOfSmall(h);
    TwoDigitsOfSmall(m);
    var r := FormatSecondsAsTime(s);
    assert r == TwoDigits(h) + ":" + TwoDigits(m);
    assert r[..2] == TwoDigits(h);
    assert r[3..] == TwoDigits(m);
  }

  /** Seconds are truncated, never rounded: dropping the seconds does not change the text. */
  lemma FormatSecondsAsTimeTruncates(s: int)
    requires s >= 0
    ensures FormatSecondsAsTime(s) == FormatSecondsAsTime(s - s % 60)
  {
    TruncatedFields(s);
    SameFieldsSameText(s, s - s % 60);
  }

  /** Dropping the seconds keeps the hour and the minute of a non-negative time. */
  lemma TruncatedFields(s: int)
    requires s >= 0
    ensures s / 3600 == (s - s % 60) / 3600
    ensures JsRem(s, 3600) / 60 == JsRem(s - s % 60, 3600) / 60
  {
    var a, b := s / 3600, s % 3600;
    var c, d := b / 60, b % 60;
    assert s == 3600 * a + 60 * c + d && 0 <= c < 60 && 0 <= d < 60;
    DivMod60(s, 60 * a + c, d);
    var t := 3600 * a + 60 * c;
    assert s - s % 60 == t;
    DivMod3600(t, a, 60 * c);
    DivMod60(60 * c, c, 0);
  }

  lemma SameFieldsSameText(x: int, y: int)
    requires x / 3600 == y / 3600 && JsRem(x, 3600) / 60 == JsRem(y, 3600) / 60
    ensures FormatSecondsAsTime(x) == FormatSecondsAsTime(y)
  {
  }

  lemma DivMod60(x: int, q: int, r: int)
    requires 0 <= r < 60 && x == q * 60 + r
    ensures x / 60 == q && x % 60 == r
  {
  }

  lemma DivMod3600(x: int, q: int, r: int)
    requires 0 <= r < 3600 && x == q * 3600 + r
    ensures x / 3600 == q && x % 3600 == r
  {
  }

  /** Times past 24 hours wrap: 25 hours is shown as "01:00". */
  lemma FormatSecondsAsTimeWraps()
    ensures FormatSecondsAsTime(90000) == "01:00"
  {
    DivMod3600(90000, 25, 0);
    assert JsRem(25, 24) == 1;
    assert NatToString(1) == "1" && NatToString(0) == "0";
    assert TwoDigits(1) == "01" && TwoDigits(0) == "00";
  }
}
