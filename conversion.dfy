/** Time conversion between catalog zones and the working-hours test.

    A timestamp is an integer number of milliseconds on one wall-clock line
    (the host's local clock, with no daylight-saving jumps of its own). The
    hour of a timestamp is read off that line, which is what `getHours`
    does on the host. */
module TimeConversion {
  import opened TimezoneRegistry

  /** Milliseconds in a minute, an hour (60 minutes) and a day (24 hours). */
  const MinuteMs: int := 60_000
  const HourMs: int := 3_600_000
  const DayMs: int := 86_400_000

  /** Shifts `t` by the difference of the two zones' nominal offsets. */
  function ConvertToTimezone(t: int, fromZone: string, toZone: string): (r: int)
    ensures -20 * HourMs <= r - t <= 20 * HourMs
    ensures (r - t) % (30 * MinuteMs) == 0
  {
    t + (TimezoneOffset(toZone) - TimezoneOffset(fromZone)) * MinuteMs
  }

  /** The hour-of-day component of `t`, 0..23. */
  function Hour(t: int): (r: int)
    ensures 0 <= r < 24
  {
    (t / HourMs) % 24
  }

  /** The hour is the number of whole hours elapsed since midnight. */
  lemma HourOfTimeOfDay(t: int)
    ensures Hour(t) * HourMs <= t % DayMs < (Hour(t) + 1) * HourMs
  {
  }

  /** The working window is the hours 9 through 22, both included. */
  predicate IsWorkingHours(t: int) {
    var hour := Hour(t);
    hour >= 9 && hour <= 22
  }

  /** Converting between a zone and itself changes nothing. */
  lemma ConvertIdentity(t: int, zone: string)
    ensures ConvertToTimezone(t, zone, zone) == t
  {
  }

  /** Converting there and back returns the original timestamp exactly. */
  lemma ConvertRoundTrip(t: int, a: string, b: string)
    ensures ConvertToTimezone(ConvertToTimezone(t, a, b), b, a) == t
  {
  }

  /** Converting through an intermediate zone is the same as converting directly. */
  lemma ConvertCompose(t: int, a: string, b: string, c: string)
    ensures ConvertToTimezone(ConvertToTimezone(t, a, b), b, c) == ConvertToTimezone(t, a, c)
  {
  }

  /** Conversion is a translation: it keeps the distance between two
      timestamps and their order. */
  lemma ConvertPreservesSpan(s: int, e: int, a: string, b: string)
    ensures ConvertToTimezone(e, a, b) - ConvertToTimezone(s, a, b) == e - s
  {
  }

  /** Conversion from a catalog zone to another moves the timestamp by the
      difference of their nominal offsets, e.g. thirteen hours back from
      Shanghai to New York and two and a half hours back from Shanghai to
      Kolkata. */
  lemma SampleConversions(t: int)
    ensures ConvertToTimezone(t, "Asia/Shanghai", "America/New_York") == t - 13 * HourMs
    ensures ConvertToTimezone(t, "Asia/Shanghai", "Asia/Kolkata") == t - 150 * MinuteMs
  {
    SampleOffsets();
  }

  /** The working-hours test as a window on the time of day: from 09:00
      up to, but not including, 23:00. */
  lemma WorkingHoursWindow(t: int)
    ensures IsWorkingHours(t) <==> 9 * HourMs <= t % DayMs < 23 * HourMs
  {
    HourOfTimeOfDay(t);
  }

  /** The boundary hours: 9 and 22 are in, 8 and 23 are out, on every day. */
  lemma WorkingHoursBoundaries(day: int, minute: int)
    requires 0 <= minute < 60
    ensures IsWorkingHours(day * DayMs + 9 * HourMs)
    ensures IsWorkingHours(day * DayMs + 22 * HourMs + minute * MinuteMs)
    ensures !IsWorkingHours(day * DayMs + 8 * HourMs + minute * MinuteMs)
    ensures !IsWorkingHours(day * DayMs + 23 * HourMs)
  {
    HourOfDay(day, 9, 0);
    HourOfDay(day, 22, minute);
    HourOfDay(day, 8, minute);
    HourOfDay(day, 23, 0);
  }

  /** The hour of `hour:minute` on any day is `hour`. */
  lemma HourOfDay(day: int, hour: int, minute: int)
    requires 0 <= hour < 24 && 0 <= minute < 60
    ensures Hour(day * DayMs + hour * HourMs + minute * MinuteMs) == hour
  {
    var t := day * DayMs + hour * HourMs + minute * MinuteMs;
    assert t / HourMs == day * 24 + hour;
  }
}
