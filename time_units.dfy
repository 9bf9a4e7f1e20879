/**
 * Instants and durations of java.time, as used by the tracker.
 * An Instant is a whole number of seconds since the epoch; sub-second
 * precision is not modelled.
 */
module TimeUnits {
  const SecondsPerMinute: int := 60
  const SecondsPerHour: int := 3600

  /** Bounds of the "Data Retention (Hours)" setting. */
  const MinRetentionHours: int := 1
  const MaxRetentionHours: int := 168

  /** Bounds of the "Recent Time Window (Minutes)" setting. */
  const MinRecentMinutes: int := 5
  const MaxRecentMinutes: int := 120

  /** Instant.truncatedTo(ChronoUnit.MINUTES): the start of the minute holding t. */
  function TruncateToMinute(t: int): (r: int)
    ensures r <= t < r + SecondsPerMinute
    ensures r % SecondsPerMinute == 0
  {
    t - t % SecondsPerMinute
  }

  /** Truncation keeps order. */
  lemma TruncateMonotone(a: int, b: int)
    requires a <= b
    ensures TruncateToMinute(a) <= TruncateToMinute(b)
  {
    var qa, qb := a / SecondsPerMinute, b / SecondsPerMinute;
    assert TruncateToMinute(a) == qa * SecondsPerMinute;
    assert TruncateToMinute(b) == qb * SecondsPerMinute;
    assert qa * SecondsPerMinute <= a <= b < qb * SecondsPerMinute + SecondsPerMinute;
  }

  /** A minute start is its own truncation. */
  lemma TruncateAligned(t: int)
    requires t % SecondsPerMinute == 0
    ensures TruncateToMinute(t) == t
  {
  }

  /**
   * ChronoUnit.MINUTES.between(a, b): the whole minutes from a to b,
   * rounded toward zero, negative when b is before a.
   */
  function MinutesBetween(a: int, b: int): (r: int)
    ensures a <= b ==> 0 <= r && r * SecondsPerMinute <= b - a < (r + 1) * SecondsPerMinute
    ensures b < a ==> r <= 0 && -r * SecondsPerMinute <= a - b < (-r + 1) * SecondsPerMinute
  {
    if a <= b then (b - a) / SecondsPerMinute else -((a - b) / SecondsPerMinute)
  }
}
