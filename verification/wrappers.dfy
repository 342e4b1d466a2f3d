/** Failure-compatible wrappers used throughout the model: an optional value
    (JavaScript's `null` / `undefined`) and a success-or-error result. */
module Wrappers {

  /** `None` stands for a JavaScript `null` or `undefined`. */
  datatype Option<+T> = None | Some(value: T) {

    /** The value, or `default` when absent (JavaScript's `x ?? d`). */
    function GetOr(default: T): T {
      match this
      case Some(v) => v
      case None => default
    }
  }

  /** The outcome of a validation or of a database statement. */
  datatype Result<+T, +E> = Ok(value: T) | Err(error: E)
}
