/** Instants in nanoseconds since the Unix epoch, and the UTC calendar day an instant falls on. */
module Calendar {
  type Instant = int

  const SECOND: int := 1_000_000_000
  const DAY: int := 86_400 * SECOND

  /** Midnight, January 1 of year 1: the zero value of a time, which the code refuses as "not supplied". */
  const ZERO_TIME: Instant := -62_135_596_800 * SECOND

  /** The day number of an instant, counted from the epoch; earlier instants have negative days. */
  function DayOf(t: Instant): int {
    t / DAY
  }

  lemma DayOfIsMonotone(t: Instant, u: Instant)
    requires t <= u
    ensures DayOf(t) <= DayOf(u)
  {
  }

  lemma DayOfMidnight(day: int, t: Instant)
    ensures DayOf(t) == day <==> day * DAY <= t < (day + 1) * DAY
  {
  }
}
