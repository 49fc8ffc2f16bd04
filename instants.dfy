/** Points in time, at the resolution of Python's `datetime`. */
module Instants {

  /** A timezone-aware instant, in microseconds since 1970-01-01T00:00 UTC. */
  type Instant = int

  const MicrosPerSecond: int := 1_000_000
  const MicrosPerMinute: int := 60 * MicrosPerSecond
  const MicrosPerDay: int := 1440 * MicrosPerMinute
}
