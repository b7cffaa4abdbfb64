/** Optional values and results with an error: the shapes that `null` and exceptions take in the model. */
module Wrappers {

  /** A value that may be absent (a C# nullable, a JavaScript `null`). */
  datatype Option<+T> = None | Some(value: T) {
    function GetOr(default: T): T {
      match this
      case Some(v) => v
      case None => default
    }
  }

  /** The outcome of an operation that may throw: its value, or the exception's message. */
  datatype Result<+T> = Ok(value: T) | Err(message: string)
}
