/** Option, Result and Outcome: the model's replacement for Python's `None` and
    for exceptions raised to the caller. */
module Wrappers {

  datatype Option<+T> = None | Some(value: T) {
    function GetOr(default: T): T {
      match this
      case Some(v) => v
      case None => default
    }
  }

  /** A value, or the error the source would have raised. */
  datatype Result<+R, +E> = Success(value: R) | Failure(error: E)

  /** No value on success, or the error the source would have raised. */
  datatype Outcome<+E> = Pass | Fail(error: E)
}
