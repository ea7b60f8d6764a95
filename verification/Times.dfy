/** Units of Go durations and instants, in nanoseconds. */
module Times {
  const MILLISECOND := 1_000_000
  const SECOND := 1000 * MILLISECOND
  const MINUTE := 60 * SECOND
}
