/** Times in nanoseconds since the epoch. */
module Clock {

  const SECOND: int := 1_000_000_000
  const MINUTE: int := 60 * SECOND

  /** How long a collection may be reported after it was made. */
  const FRESHNESS_LIMIT: int := 65 * SECOND

  /** time.Time.Unix: whole seconds, rounded towards the past. */
  function Unix(t: int): int { t / SECOND }
}
