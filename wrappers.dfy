/** Option and Result: the model's stand-ins for PHP's nullable values and thrown exceptions. */
module Wrappers {

  /** A nullable value: `None` is PHP's `null`. */
  datatype Option<+T> = None | Some(value: T) {

    /** The value, or `default` when absent (PHP's `$x ?? $default`). */
    function GetOr(default: T): T {
      match this
      case Some(v) => v
      case None => default
    }
  }

  /** The outcome of an operation that may throw: `Failure(e)` is the exception `e`. */
  datatype Result<+R, +E> = Success(value: R) | Failure(error: E)
}
