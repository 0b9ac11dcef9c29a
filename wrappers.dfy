/** Failure-carrying results, used for the store's error returns and for the
    outcomes the token service reports. */
module Wrappers {

  /** A value or nothing; `None` plays the part of a nil error. */
  datatype Option<+T> = None | Some(value: T)

  /** A value, or the error that prevented computing it. */
  datatype Result<+R, +E> = Success(value: R) | Failure(error: E)
}
