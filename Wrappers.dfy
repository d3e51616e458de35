/** Optional values and results with an error, shared by every module of the model. */
module Wrappers {

  /** A value that may be absent (`null` / `undefined` in the original code). */
  datatype Option<+T> = None | Some(value: T) {

    /** The wrapped value, or `default` when absent (the `x || default` idiom). */
    function GetOr(default: T): T {
      match this
      case Some(v) => v
      case None => default
    }
  }

  /** The outcome of an operation that can throw: the value it returns, or the exception. */
  datatype Result<+T, +E> = Ok(value: T) | Err(error: E)
}
