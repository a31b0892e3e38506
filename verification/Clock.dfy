/**
  Instants and durations, in nanoseconds. Instant 0 is Go's zero time, the start of year 1, which
  the controller reads as "never".
 */
module Clock {
  type Time = int
  type Duration = int

  const SECOND: Duration := 1_000_000_000
  const MINUTE: Duration := 60_000_000_000
  const HOUR: Duration := 3_600_000_000_000
  const ZERO: Time := 0

  // Seconds from the start of year 1 to the Unix epoch.
  const EPOCH_SECONDS := 62_135_596_800

  predicate WholeSecond(t: Time) {
    t % 1_000_000_000 == 0
  }

  /** The instant that survives a round trip through the date-time format, section 5.6 of RFC 3339. */
  function Rfc3339Copy(t: Time): (r: Time)
    ensures WholeSecond(r) && r <= t < r + SECOND
  {
    t - t % 1_000_000_000
  }

  /** Whole seconds since the Unix epoch. */
  function Unix(t: Time): int {
    t / 1_000_000_000 - EPOCH_SECONDS
  }

  lemma Rfc3339CopyMonotone(t: Time, u: Time)
    requires t <= u
    ensures Rfc3339Copy(t) <= Rfc3339Copy(u)
    ensures WholeSecond(t) ==> t <= Rfc3339Copy(u)
    ensures WholeSecond(u) ==> Rfc3339Copy(u) == u
  {
  }
}
