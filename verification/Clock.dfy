/** Time in microseconds since the epoch. */
module Clock {

  type Time = int

  const SECOND: int := 1_000_000
  const HOUR: int := 60 * 60 * SECOND
  const DAY: int := 24 * HOUR
}
