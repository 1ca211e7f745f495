/** Optional values and results with an error message, used across the model. */
module Wrappers {

  /** A value that may be absent (Python's `None`). */
  datatype Option<+T> = None | Some(value: T) {
    function GetOr(default: T): T {
      match this
      case Some(v) => v
      case None => default
    }
  }

  /** The outcome of an operation that can raise: its value, or the error it raised. */
  datatype Result<+T> = Ok(value: T) | Err(message: string)
}
