/** Optional values and results with an error, shared by every module. */
module Wrappers {

  /** A value that may be absent: JavaScript's `undefined`/`null` for a field or a lookup. */
  datatype Option<+T> = None | Some(value: T) {
    /** The value, or `default` when absent (JavaScript's `??`). */
    function GetOr(default: T): T {
      match this
      case Some(v) => v
      case None => default
    }
  }

  /** The outcome of an operation that can fail. */
  datatype Result<+T, +E> = Ok(value: T) | Err(error: E)
}
