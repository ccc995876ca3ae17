/** Option, Result and Outcome values used for the source's nullable values and exceptions. */
module Wrappers {

  datatype Option<+T> = None | Some(value: T) {
    function GetOr(default: T): T {
      match this
      case Some(v) => v
      case None => default
    }
  }

  /** A value or the exception that the source throws instead of returning one. */
  datatype Result<+R, +E> = Success(value: R) | Failure(error: E)

  /** The outcome of a source operation that returns nothing but may throw. */
  datatype Outcome<+E> = Pass | Fail(error: E)
}
