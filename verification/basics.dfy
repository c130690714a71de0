/** Option and Result, used for JavaScript's null/undefined and for thrown errors. */
module Wrappers {

  /** A value that may be absent (`null` or `undefined` in the source). */
  datatype Option<+T> = None | Some(value: T)

  /** The outcome of a call that may throw. */
  datatype Result<+R, +E> = Success(value: R) | Failure(error: E)
}

/** `Math.abs` on reals. */
module Reals {
  function Abs(x: real): real { if x < 0.0 then -x else x }
}
