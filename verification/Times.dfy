/** Instants, in nanoseconds of a clock that starts at Go's zero time. */
module Times {
  /** The instant Go's time.Time.IsZero recognises. */
  const ZERO_TIME := 0
}
