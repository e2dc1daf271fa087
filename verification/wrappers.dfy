/** Failure-compatible wrappers shared by every module of the model. */
module Wrappers {

  /** A value that may be missing: JavaScript's `null`, `undefined` or `NaN`. */
  datatype Option<+T> = None | Some(value: T) {
    function GetOr(default: T): T {
      match this
      case Some(v) => v
      case None => default
    }
  }

  /** The outcome of an operation that can fail with an error of type E. */
  datatype Result<+R, +E> = Success(value: R) | Failure(error: E)
}
