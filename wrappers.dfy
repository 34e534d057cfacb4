/**
 * Option, Result and Outcome: the values that stand in for Kotlin's nullable
 * types and for the exceptions the service throws.
 */
module Wrappers {

  /** A Kotlin `T?`: `None` is `null`. */
  datatype Option<+T> = None | Some(value: T) {

    /** The value, or `default` when absent (Kotlin's `?:`). */
    function GetOr(default: T): T {
      match this
      case Some(v) => v
      case None => default
    }
  }

  /** The value a call returns, or the exception it throws. */
  datatype Result<+R, +E> = Success(value: R) | Failure(error: E)

  /** A call that returns `Unit`: it either completes or throws. */
  datatype Outcome<+E> = Pass | Fail(error: E)
}
