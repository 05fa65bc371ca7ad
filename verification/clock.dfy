/** Timestamps are whole seconds on a UTC time line whose origin is a midnight.
    A calendar day is the floor of the timestamp divided by the length of a day;
    Dafny's `/` on `int` with a positive divisor is exactly that floor. */
module Clock {

  type Timestamp = int

  const SecondsPerDay: int := 86400
  const SecondsPerHour: int := 3600

  /** `datetime.date()`: the calendar day a timestamp falls on. */
  function Day(t: Timestamp): int
  {
    t / SecondsPerDay
  }

  /** `datetime.hour`: the hour of the day, 0 to 23. */
  function HourOfDay(t: Timestamp): (h: int)
    ensures 0 <= h < 24
    ensures Day(t) * SecondsPerDay + h * SecondsPerHour <= t < Day(t) * SecondsPerDay + (h + 1) * SecondsPerHour
  {
    (t % SecondsPerDay) / SecondsPerHour
  }

  /** `replace(hour=0, minute=0, second=0, microsecond=0)`: the start of the
      calendar day of `t`. */
  function Midnight(t: Timestamp): (m: Timestamp)
    ensures Day(m) == Day(t)
    ensures m <= t < m + SecondsPerDay
    ensures m % SecondsPerDay == 0
  {
    Day(t) * SecondsPerDay
  }

  /** Normalising twice is normalising once. */
  lemma MidnightIdempotent(t: Timestamp)
    ensures Midnight(Midnight(t)) == Midnight(t)
  {
  }

  /** Two timestamps share a midnight exactly when they share a calendar day. */
  lemma MidnightSameDay(s: Timestamp, t: Timestamp)
    ensures Midnight(s) == Midnight(t) <==> Day(s) == Day(t)
  {
  }

  /** Moving a timestamp by whole days moves its calendar day by the same amount. */
  lemma DayShift(t: Timestamp, k: int)
    ensures Day(t - k * SecondsPerDay) == Day(t) - k
  {
  }
}
