/** Wall-clock arithmetic. A time of day has microseconds; an instant is a day number and a time of day in one. */
module Clock {
  const SECOND := 1_000_000
  const MINUTE := 60_000_000
  const HOUR := 3_600_000_000
  const DAY := 86_400_000_000
  const MINUTES_PER_DAY := 1440

  type TimeOfDay = t: int | 0 <= t < DAY
  type MinuteOfDay = m: nat | m < MINUTES_PER_DAY
  type Day = int
  type Instant = int

  function At(day: Day, t: TimeOfDay): Instant {
    day * DAY + t
  }

  function DayOf(i: Instant): Day {
    i / DAY
  }

  function TimeOf(i: Instant): TimeOfDay {
    i % DAY
  }

  /** Whole minutes since midnight; seconds are dropped. */
  function TimeToMinutes(t: TimeOfDay): MinuteOfDay {
    t / MINUTE
  }

  function MinutesToTime(m: MinuteOfDay): TimeOfDay {
    m * MINUTE
  }

  /** Adding minutes to a time of day wraps at midnight. */
  function AddMinutes(t: TimeOfDay, minutes: int): TimeOfDay {
    (t + minutes * MINUTE) % DAY
  }

  predicate IsWholeMinute(t: TimeOfDay) {
    t % MINUTE == 0
  }

  /** Monday is 0; day 1 is a Monday, and so is the day `w` days before. */
  function Weekday(day: Day): (w: int)
    ensures 0 <= w < 7 && (day - w) % 7 == 1
  {
    (day + 6) % 7
  }

  lemma MinutesRoundTrip(m: MinuteOfDay)
    ensures TimeToMinutes(MinutesToTime(m)) == m && IsWholeMinute(MinutesToTime(m))
  {
  }
}
