/** Failure-compatible wrappers shared by every module of the model. */
module Wrappers {

  /** An optional value: `None` stands for JavaScript's `null`, `undefined` or `NaN`,
      whichever the surrounding code produces. */
  datatype Option<+T> = None | Some(value: T)

  /** The value of a call that may fail (a rejected promise or a thrown error). */
  datatype Result<+T, +E> = Success(value: T) | Failure(error: E)
}
