/**
 * Wall-clock time as the dispatcher sees it. The conversion of the current
 * instant into a named time zone (moment-timezone over the tz database) is an
 * input: an `Instant` carries its reading on the wall clock of every zone.
 */
module TimeMatch {
  import opened Wrappers

  type Hour = h: int | 0 <= h < 24
  type Minute = m: int | 0 <= m < 60
  type Second = s: int | 0 <= s < 60
  /** ISO weekday numbering, 1 = Monday .. 7 = Sunday. */
  type IsoWeekday = d: int | 1 <= d <= 7 witness 1

  datatype Date = Date(year: int, month: int, day: int)

  /** What the wall clock of one zone shows at an instant, down to the minute. */
  datatype WallClock = WallClock(date: Date, hour: Hour, minute: Minute, weekday: IsoWeekday)

  /**
   * One evaluation instant: its calendar date in UTC, its seconds field (the
   * same in every zone) and its wall-clock reading in each zone.
   */
  datatype Instant = Instant(utcDate: Date, second: Second, inZone: string -> WallClock)

  /** A moment truncated to the minute, in one zone's wall-clock terms. */
  datatype MinuteStamp = MinuteStamp(date: Date, hour: Hour, minute: Minute)

  /** A well-formed "HH:mm" schedule time. */
  datatype Clock = Clock(hour: Hour, minute: Minute)

  /** `moment().tz(zone)`, truncated to the minute. */
  function CurrentMinute(now: Instant, zone: string): MinuteStamp {
    var w := now.inZone(zone);
    MinuteStamp(w.date, w.hour, w.minute)
  }

  /** The moment on `date` at which the zone's wall clock reads the schedule time. */
  function ScheduledMinute(clock: Clock, date: Date): MinuteStamp {
    MinuteStamp(date, clock.hour, clock.minute)
  }

  /**
   * `isMatchingTime` as written: `moment.tz(clock, "HH:mm", zone)` parses through
   * `moment.utc`, so the calendar date it fills in is the current UTC date, and
   * `isSame(…, "minute")` then compares whole minutes. `None` is the invalid
   * moment of an unparseable clock string, which is never the same as anything.
   */
  function IsMatchingTimeAsWritten(clock: Option<Clock>, zone: string, now: Instant): (r: bool)
    ensures r <==> IsMatchingTime(clock, zone, now) && now.inZone(zone).date == now.utcDate
  {
    clock.Some? && CurrentMinute(now, zone) == ScheduledMinute(clock.value, now.utcDate)
  }

  /**
   * `isMatchingTime` as intended: the schedule time is placed on the zone-local
   * date of now, and the two agree to the minute.
   */
  function IsMatchingTime(clock: Option<Clock>, zone: string, now: Instant): (r: bool)
    ensures r <==> clock.Some? && now.inZone(zone).hour == clock.value.hour && now.inZone(zone).minute == clock.value.minute
  {
    clock.Some? && CurrentMinute(now, zone) == ScheduledMinute(clock.value, now.inZone(zone).date)
  }

  /**
   * Seconds never take part in the match. This holds by construction: the
   * minute stamps compared carry no seconds field.
   */
  lemma MatchingTimeIgnoresSeconds(clock: Option<Clock>, zone: string, now: Instant, s: Second)
    ensures IsMatchingTime(clock, zone, now.(second := s)) == IsMatchingTime(clock, zone, now)
    ensures IsMatchingTimeAsWritten(clock, zone, now.(second := s)) == IsMatchingTimeAsWritten(clock, zone, now)
  {
  }

  /**
   * 06:30 on Wednesday 1 May 2024 in a zone seven hours east of UTC is
   * 23:30 on 30 April in UTC: a "06:30" schedule does not fire as written.
   */
  lemma AsWrittenMissesMorningEastOfUtc()
    ensures var now := Instant(Date(2024, 4, 30), 0,
      (zone: string) =>
        if zone == "Asia/Jakarta" then WallClock(Date(2024, 5, 1), 6, 30, 3)
        else WallClock(Date(2024, 4, 30), 23, 30, 2));
      !IsMatchingTimeAsWritten(Some(Clock(6, 30)), "Asia/Jakarta", now) &&
      IsMatchingTime(Some(Clock(6, 30)), "Asia/Jakarta", now)
  {
  }

  /** The decimal digit character of 0..9. */
  function Digit(d: int): (c: char)
    requires 0 <= d <= 9
    ensures '0' <= c <= '9' && c as int - '0' as int == d
  {
    ('0' as int + d) as char
  }

  /** `isoWeekday().toString()`: the one-digit decimal rendering of the weekday. */
  function WeekdayString(d: IsoWeekday): (s: string)
    ensures |s| == 1 && '1' <= s[0] <= '7' && s[0] as int - '0' as int == d
  {
    [Digit(d)]
  }

  /** Distinct weekdays render as distinct strings. */
  lemma WeekdayStringInjective(d: IsoWeekday, e: IsoWeekday)
    ensures WeekdayString(d) == WeekdayString(e) <==> d == e
  {
    if WeekdayString(d) == WeekdayString(e) {
      assert WeekdayString(d)[0] == WeekdayString(e)[0];
    }
  }

  /** `moment().format("ss")`: the seconds field, zero-padded to two digits. */
  function FormatSeconds(s: Second): (r: string)
    ensures |r| == 2 && '0' <= r[0] <= '9' && '0' <= r[1] <= '9'
    ensures (r[0] as int - '0' as int) * 10 + (r[1] as int - '0' as int) == s
  {
    [Digit(s / 10), Digit(s % 10)]
  }

  /** The `setInterval` gate: a sweep runs on the tick whose seconds field reads "00". */
  function ShouldSweep(now: Instant): (r: bool)
    ensures r <==> now.second == 0
  {
    var f := FormatSeconds(now.second);
    assert f == "00" <==> f[0] == '0' && f[1] == '0';
    f == "00"
  }
}
