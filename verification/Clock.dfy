/** The platform's single notion of local time: a fixed UTC+5 zone, so a local
    calendar day is an aligned block of 24 hours. Instants are nanoseconds since
    the Unix epoch and durations are nanoseconds. */
module Clock {

  type Instant = int
  type Duration = int

  const SECOND: int := 1_000_000_000
  const MINUTE: int := 60_000_000_000
  const HOUR: int := 3_600_000_000_000
  const DAY: int := 86_400_000_000_000
  const LOCAL_OFFSET: int := 18_000_000_000_000

  /** The number of the local calendar day holding t, counted from 1970-01-01. */
  function LocalDay(t: Instant): int {
    (t + LOCAL_OFFSET) / DAY
  }

  function LocalMidnight(t: Instant): Instant {
    LocalDay(t) * DAY - LOCAL_OFFSET
  }

  function DayBounds(day: Instant): (Instant, Instant) {
    (LocalMidnight(day), LocalMidnight(day) + DAY)
  }

  /** Days of the week counted from Sunday; 1970-01-01 was a Thursday. */
  function Weekday(t: Instant): int {
    (LocalDay(t) + 4) % 7
  }

  /** Days of the week counted from Monday. */
  function WeekdayIndex(t: Instant): (w: int)
    ensures 0 <= w < 7
  {
    (Weekday(t) + 6) % 7
  }

  /** DayBounds cuts the time line into days: an instant lies within another's
      bounds exactly when both fall on one local day, and then they share bounds
      and weekday. */
  lemma DayBoundsTile(t: Instant, u: Instant)
    ensures DayBounds(t).0 <= u < DayBounds(t).1 <==> LocalDay(t) == LocalDay(u)
    ensures LocalDay(t) == LocalDay(u) ==> DayBounds(t) == DayBounds(u) && WeekdayIndex(t) == WeekdayIndex(u)
  {
    var d := LocalDay(t);
    assert d * DAY <= u + LOCAL_OFFSET < (d + 1) * DAY <==> (u + LOCAL_OFFSET) / DAY == d;
  }

  /** Weekdays advance by one a day, so seven consecutive days have seven
      different weekdays and then repeat. */
  lemma WeekdayCycle(t: Instant)
    ensures WeekdayIndex(t + DAY) == (WeekdayIndex(t) + 1) % 7
    ensures WeekdayIndex(0) == 3
  {
    assert LocalDay(t + DAY) == LocalDay(t) + 1;
  }

  /** A local day begins at seven in the evening of the day before, universal time, and lasts
      twenty-four hours; a day's first instant is its own local midnight. */
  lemma DayBoundsAreLocal(t: Instant)
    ensures var (start, end) := DayBounds(t);
            && start <= t < end && end == start + 24 * 60 * MINUTE
            && (start - 19 * 60 * MINUTE) % (24 * 60 * MINUTE) == 0
            && LocalMidnight(t) == start
    ensures MINUTE == 60 * SECOND && HOUR == 60 * MINUTE && DAY == 24 * HOUR && SECOND == 1_000_000_000
  {
    assert DayBounds(t).0 - 19 * 60 * MINUTE == (LocalDay(t) - 1) * DAY;
  }
}
