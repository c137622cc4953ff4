/**
 * Numeric primitives shared by the geometry modules: `Math.min`, `Math.max`,
 * `Math.abs`, the `clamp` helper, and the comparison `w / h > t` as JavaScript
 * evaluates it when `h` may be zero.
 */
module Numeric {

  function Min(a: real, b: real): real { if a <= b then a else b }

  function Max(a: real, b: real): real { if a >= b then a else b }

  function Abs(a: real): real { if a < 0.0 then -a else a }

  /** `Math.max(lo, Math.min(hi, v))`. */
  function Clamp(v: real, lo: real, hi: real): (r: real)
    ensures lo <= hi ==> lo <= r <= hi
    ensures lo <= v <= hi ==> r == v
  {
    Max(lo, Min(hi, v))
  }

  /**
   * `w / h > t` in IEEE arithmetic: a zero `h` makes the quotient +Infinity
   * (w > 0), -Infinity (w < 0) or NaN (w == 0), and only +Infinity exceeds a
   * finite `t`.
   */
  predicate RatioExceeds(w: real, h: real, t: real)
  {
    if h == 0.0 then w > 0.0 else w / h > t
  }
}
