/** A day in milliseconds, the unit of every clock reading. */
module Days {
  const DAY_MS: int := 24 * 60 * 60 * 1000
}
