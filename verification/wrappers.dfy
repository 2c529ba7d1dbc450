/** Option and Result values used across the model: an optional value and
    a value-or-error result, the shapes the original code expresses with
    `None` and with raised exceptions. */
module Wrappers {

  datatype Option<+T> = None | Some(value: T) {

    /** The wrapped value, or `default` when there is none (Python's `x or default`). */
    function GetOr(default: T): T {
      match this
      case Some(v) => v
      case None => default
    }
  }

  /** A computation that either produced a value or raised an error carrying a message. */
  datatype Result<+R, +E> = Success(value: R) | Failure(error: E)
}
