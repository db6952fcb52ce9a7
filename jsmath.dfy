/** Exact stand-ins for the few JavaScript number operations the game relies on. */
module JsMath {

  datatype Option<+T> = None | Some(value: T)

  /** True when `x` has no fractional part. */
  predicate IsInteger(x: real) {
    x.Floor as real == x
  }

  /** `Math.round`: halves round towards positive infinity. */
  function Round(x: real): (r: int)
    ensures x - 0.5 < r as real <= x + 0.5
  {
    (x + 0.5).Floor
  }

  /** `Math.abs`. */
  function Abs(x: real): (r: real)
    ensures r >= 0.0 && (r == x || r == -x)
  {
    if x < 0.0 then -x else x
  }

  /** JavaScript's `a % b == 0`: a zero divisor yields NaN, which is never equal to 0. */
  predicate RemainderIsZero(a: real, b: real) {
    b != 0.0 && IsInteger(a / b)
  }
}
