/** chrono's `NaiveDateTime` as the firmware uses it: a point on the
    proleptic Gregorian time line, here counted in whole milliseconds since
    1970-01-01 00:00:00. Every adjustment the firmware makes is a whole number
    of milliseconds, so nothing finer is needed. */
module Timestamps {
  import opened Wrappers

  /** First and last millisecond chrono can represent
      (-262143-01-01 00:00:00.000 and 262142-12-31 23:59:59.999). */
  const MIN_MS: int := -8334601315200000
  const MAX_MS: int := 8210266876799999

  const MS_PER_SECOND: int := 1000
  const MS_PER_MINUTE: int := 60 * MS_PER_SECOND
  const MS_PER_HOUR: int := 60 * MS_PER_MINUTE
  const MS_PER_DAY: int := 24 * MS_PER_HOUR

  predicate InRange(t: int) {
    MIN_MS <= t <= MAX_MS
  }

  /** `NaiveDateTime::checked_add_signed`: `None` when the sum leaves the
      representable range. */
  function CheckedAdd(t: int, delta: int): (r: Option<int>)
    ensures r.Some? <==> InRange(t + delta)
    ensures r.Some? ==> r.value == t + delta
  {
    if InRange(t + delta) then Some(t + delta) else None
  }

  /** `checked_add_signed(delta).unwrap_or(t)`: add, or keep `t` when the
      sum would leave the range. */
  function AddOrKeep(t: int, delta: int): (r: int)
    ensures InRange(t + delta) ==> r == t + delta
    ensures !InRange(t + delta) ==> r == t
    ensures InRange(t) ==> InRange(r)
  {
    CheckedAdd(t, delta).GetOr(t)
  }
}
