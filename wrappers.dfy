/** Optional values and success/failure results shared by all modules. */
module Wrappers {

  /** A value that may be missing: `undefined` or `null` in the source. */
  datatype Option<+T> = None | Some(value: T) {
    function GetOr(default: T): T {
      match this
      case Some(v) => v
      case None => default
    }
  }

  /** The outcome of an operation that either returns a value or throws. */
  datatype Result<+T, +E> = Success(value: T) | Failure(error: E)

  /** The outcome of a check that returns nothing or throws. */
  datatype Outcome<+E> = Pass | Fail(error: E)
}
