/** Failure-compatible wrappers used across the model: a missing value and an error return. */
module Wrappers {

  /** A value that may be missing (a NaN / None cell of a table column). */
  datatype Option<+T> = None | Some(value: T) {
    function GetOr(default: T): T {
      match this
      case Some(v) => v
      case None => default
    }
  }

  /** The result of an operation that can raise. */
  datatype Result<+T> = Success(value: T) | Failure(error: string)
}
