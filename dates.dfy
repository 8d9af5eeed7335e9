/** The date arithmetic the task views rely on (date-fns `isToday`, `isAfter`,
    `startOfDay`, and `new Date(value)`). Instants are milliseconds since the
    epoch; the local time zone is a fixed offset from UTC. */
module Dates {
  import opened Records

  const DayMs: int := 86_400_000

  /** What `new Date()` reads, and the local time zone's offset from UTC in milliseconds. */
  datatype Clock = Clock(now: int, utcOffset: int)

  /** `startOfDay(t)`: the local midnight at or before `t`. */
  function StartOfDay(t: int, utcOffset: int): (r: int)
    ensures r <= t < r + DayMs
    ensures (r + utcOffset) % DayMs == 0
  {
    t - (t + utcOffset) % DayMs
  }

  /** Two instants fall on the same local day exactly when the second lies in
      the 24-hour window that starts at the first one's local midnight. */
  lemma SameDayIsWindow(t: int, now: int, utcOffset: int)
    ensures var m := StartOfDay(now, utcOffset);
            StartOfDay(t, utcOffset) == m <==> m <= t < m + DayMs
  {
    var m := StartOfDay(now, utcOffset);
    if m <= t < m + DayMs {
      var k := (m + utcOffset) / DayMs;
      assert m + utcOffset == k * DayMs;
      assert t + utcOffset == k * DayMs + (t - m);
      assert (t + utcOffset) % DayMs == t - m;
    }
  }

  /** `isToday`: `t` falls on the same local calendar day as now, that is, in
      the day that starts at today's local midnight. */
  function IsToday(t: int, clock: Clock): (b: bool)
    ensures var m := StartOfDay(clock.now, clock.utcOffset);
            b <==> m <= t < m + DayMs
  {
    SameDayIsWindow(t, clock.now, clock.utcOffset);
    StartOfDay(t, clock.utcOffset) == StartOfDay(clock.now, clock.utcOffset)
  }

  /** `new Date(v).getTime()`, or `None` for an invalid date. Strings other than
      the timestamps the core itself writes are not parsed. */
  function DateOf(v: Value): (r: Option<int>)
    ensures v.Instant? ==> r == Some(v.ms)
    ensures v.Undefined? || v.Str? ==> r.None?
    ensures v.Num? ==> r == Some(v.n)
    ensures v.Null? ==> r == Some(0)
    ensures v.Bool? ==> r == Some(if v.b then 1 else 0)
  {
    match v
    case Instant(ms) => Some(ms)
    case Num(n) => Some(n)
    case Null => Some(0)
    case Bool(b) => Some(if b then 1 else 0)
    case Undefined => None
    case Str(_) => None
  }
}
