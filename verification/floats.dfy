/** Values shared by every component: an optional result and the part of
    Python's `float` the estimator relies on. */
module Floats {

  /** A result that may be undefined (the estimator's `np.nan` sentinel). */
  datatype Option<+T> = None | Some(value: T)

  /** A float that is either a finite number or NaN. Rounding and infinities
      are not represented: a finite float is an exact real. */
  datatype Float = Num(v: real) | NaN

  /** Float addition: NaN absorbs everything it is added to. */
  function Add(a: Float, b: Float): Float
  {
    if a.Num? && b.Num? then Num(a.v + b.v) else NaN
  }

  /** `a > t` for a float `a`: false when `a` is NaN. */
  predicate Above(a: Float, t: real)
  {
    a.Num? && a.v > t
  }

  /** `a < t` for a float `a`: false when `a` is NaN. */
  predicate Below(a: Float, t: real)
  {
    a.Num? && a.v < t
  }
}
