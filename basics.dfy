/** Small building blocks shared by the solver modules: an optional value
    (Python's `None`-or-value arguments) and the elementwise clip of numpy. */
module Basics {

  datatype Option<T> = None | Some(value: T)

  /** `np.clip(x, lo, hi)`, which numpy computes as `min(max(x, lo), hi)`:
      the upper bound wins when the bounds are crossed. */
  function Clip(x: real, lo: real, hi: real): (r: real)
    ensures r <= hi
    ensures lo <= hi ==> lo <= r
    ensures lo <= x <= hi ==> r == x
    ensures x < lo <= hi ==> r == lo
    ensures hi < x ==> r == hi
  {
    var raised := if x < lo then lo else x;
    if raised > hi then hi else raised
  }

  lemma ProductNonnegative(a: real, b: real)
    requires a >= 0.0 && b >= 0.0
    ensures a * b >= 0.0
  {
  }
}
