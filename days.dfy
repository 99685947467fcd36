/**
 * Instants as whole seconds since the Unix epoch, in UTC, and the
 * `beginning_of_day` / `end_of_day` snapping of ActiveSupport done with
 * integer day arithmetic. Dafny's `/` and `%` with a positive divisor round
 * toward negative infinity, so instants before 1970 snap correctly too.
 */
module Days {
  type Timestamp = int

  const SecondsPerDay: int := 86400

  /** The calendar day number of an instant (day 0 is 1970-01-01). */
  function DayOf(t: Timestamp): (d: int)
    ensures d * SecondsPerDay <= t < (d + 1) * SecondsPerDay
  {
    t / SecondsPerDay
  }

  /** `t.beginning_of_day`: the first second of the day of `t`. */
  function DayStart(t: Timestamp): (r: Timestamp)
    ensures r <= t < r + SecondsPerDay
    ensures r == DayOf(t) * SecondsPerDay
  {
    t - t % SecondsPerDay
  }

  /** `t.end_of_day`: the last second of the day of `t`. */
  function DayEnd(t: Timestamp): (r: Timestamp)
    ensures DayStart(t) <= t <= r
    ensures r == (DayOf(t) + 1) * SecondsPerDay - 1
  {
    DayStart(t) + SecondsPerDay - 1
  }

  /** An instant is at or after the start of `d`'s day exactly when its day is not earlier. */
  lemma AtOrAfterDayStart(x: Timestamp, d: Timestamp)
    ensures x >= DayStart(d) <==> DayOf(x) >= DayOf(d)
  {
    var a, b := DayOf(x), DayOf(d);
    if a >= b {
      assert a * SecondsPerDay >= b * SecondsPerDay;
    } else {
      assert (a + 1) * SecondsPerDay <= b * SecondsPerDay;
    }
  }

  /** An instant is at or before the end of `d`'s day exactly when its day is not later. */
  lemma AtOrBeforeDayEnd(x: Timestamp, d: Timestamp)
    ensures x <= DayEnd(d) <==> DayOf(x) <= DayOf(d)
  {
    var a, b := DayOf(x), DayOf(d);
    if a <= b {
      assert (a + 1) * SecondsPerDay <= (b + 1) * SecondsPerDay;
    } else {
      assert a * SecondsPerDay >= (b + 1) * SecondsPerDay;
    }
  }
}
