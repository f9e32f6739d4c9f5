/**
 * Zone-less local date-times as a signed count of milliseconds since
 * 1970-01-01T00:00. Every calendar operation the schedules use
 * (`hour`, `withHour(h).withMinute(0).withSecond(0).withNano(0)`,
 * `plusDays`, `plusHours`, `plusMinutes`, `withNano(0)` and
 * `ChronoUnit.HOURS.between`) is exact integer arithmetic on that count.
 */
module Time {

  const SECOND: int := 1000
  const MINUTE: int := 60 * SECOND
  const HOUR: int := 60 * MINUTE
  const DAY: int := 24 * HOUR

  /** Midnight of the day `t` falls in. */
  function DayStart(t: int): (r: int)
    ensures r <= t < r + DAY
    ensures r % DAY == 0
  {
    t - t % DAY
  }

  /** `t.hour`: the hour of the day, 0..23. */
  function Hour(t: int): (h: int)
    ensures 0 <= h < 24
    ensures DayStart(t) + h * HOUR <= t < DayStart(t) + (h + 1) * HOUR
  {
    (t % DAY) / HOUR
  }

  /** `t.withHour(h).withMinute(0).withSecond(0).withNano(0)`. */
  function AtHour(t: int, h: int): (r: int)
    requires 0 <= h < 24
    ensures DayStart(r) == DayStart(t) && Hour(r) == h
    ensures r % HOUR == 0
  {
    var r := DayStart(t) + h * HOUR;
    HourOfDayFacts(DayStart(t) / DAY, h * HOUR);
    r
  }

  /** `t.withNano(0)`: truncation to the whole second. */
  function TruncToSecond(t: int): (r: int)
    ensures r <= t < r + SECOND
    ensures r % SECOND == 0
  {
    t - t % SECOND
  }

  /**
   * `ChronoUnit.HOURS.between(a, b)`: the number of complete hours from `a`
   * to `b`, negative when `b` is before `a`, truncated toward zero.
   */
  function HoursBetween(a: int, b: int): (n: int)
    ensures a <= b ==> n >= 0 && a + n * HOUR <= b < a + (n + 1) * HOUR
    ensures b < a ==> n <= 0
  {
    if a <= b then (b - a) / HOUR else -((a - b) / HOUR)
  }

  /** A time at `q` whole days plus `r` milliseconds lies in day `q` at offset `r`. */
  lemma HourOfDayFacts(q: int, r: int)
    requires 0 <= r < DAY
    ensures DayStart(q * DAY + r) == q * DAY
    ensures (q * DAY + r) % DAY == r
  {
    var t := q * DAY + r;
    var q' := t / DAY;
    assert t == q' * DAY + t % DAY;
  }

  /** A time on the first day at hour `h` plus less than an hour. */
  lemma FirstDayHour(h: int, m: int)
    requires 0 <= h < 24 && 0 <= m < HOUR
    ensures DayStart(h * HOUR + m) == 0
    ensures Hour(h * HOUR + m) == h
  {
    HourOfDayFacts(0, h * HOUR + m);
  }

  /** Whole-day shifts keep the hour and move the day start. */
  lemma ShiftDays(t: int, n: int)
    ensures DayStart(t + n * DAY) == DayStart(t) + n * DAY
    ensures Hour(t + n * DAY) == Hour(t)
  {
    HourOfDayFacts(DayStart(t) / DAY + n, t % DAY);
    assert DayStart(t) == (DayStart(t) / DAY) * DAY;
    assert t + n * DAY == (DayStart(t) / DAY + n) * DAY + t % DAY;
  }
}
