/** The model's stand-ins for JavaScript's `undefined`, for a thrown error and
    for a returned value. */
module Wrappers {

  /** A value that may be absent (`undefined` in the source). */
  datatype Option<+T> = None | Some(value: T)

  /** A value, or the error that was thrown instead of returning it. */
  datatype Result<+T, +E> = Success(value: T) | Failure(error: E)

  /** A check that either passes or throws an error. */
  datatype Outcome<+E> = Pass | Fail(error: E)
}
