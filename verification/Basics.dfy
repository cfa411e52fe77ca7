/** Values shared by every component: optional values, Go errors as the resilience package
    sees them, and 64-bit durations. Instants are unbounded integers of nanoseconds. */
module Basics {

  datatype Option<+T> = None | Some(value: T)

  /** A non-nil Go error: the breaker's own rejection, or any other error value.
      A Go result of type `error` is an `Option<Error>`, with `None` for nil. */
  datatype Error = ErrOpen | Other(id: int)

  const MAX_INT64: int := 0x7FFF_FFFF_FFFF_FFFF
  const MIN_INT64: int := -0x8000_0000_0000_0000
  const TWO_64: int := 0x1_0000_0000_0000_0000

  predicate IsInt64(x: int) {
    MIN_INT64 <= x <= MAX_INT64
  }

  /** The int64 that Go's wrapping arithmetic leaves for the exact result `x`. */
  function Wrap64(x: int): (r: int)
    ensures IsInt64(r)
    ensures IsInt64(x) ==> r == x
  {
    (x - MIN_INT64) % TWO_64 + MIN_INT64
  }

  /** `time.Time.Sub`: the difference of two instants, saturated to a Duration. */
  function Sub(t: int, u: int): (d: int)
    ensures IsInt64(d)
    ensures IsInt64(t - u) ==> d == t - u
  {
    if t - u > MAX_INT64 then MAX_INT64 else if t - u < MIN_INT64 then MIN_INT64 else t - u
  }

  function Min(x: int, y: int): int {
    if x < y then x else y
  }

  function Max(x: int, y: int): int {
    if x < y then y else x
  }
}
