/** Option and Result, the failure-carrying wrappers used throughout the model. */
module Wrappers {

  /** A value that may be absent; JavaScript's `undefined` in the places where the source tolerates it. */
  datatype Option<+T> = None | Some(value: T) {
    /** The value, or `default` when absent: JavaScript's `x ?? default`. */
    function GetOr(default: T): T {
      match this
      case Some(v) => v
      case None => default
    }
  }

  /** The outcome of an operation that the source may abort by throwing. */
  datatype Result<+T, +E> = Success(value: T) | Failure(error: E)
}
