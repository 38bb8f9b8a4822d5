/** Small failure-carrying datatypes shared by every module of the model. */
module Wrappers {

  /** A value that may be absent: SQL NULL, a missing dictionary key, a failed parse. */
  datatype Option<+T> = None | Some(value: T) {
    /** The value, or `default` when absent (SQL `COALESCE(x, default)`). */
    function GetOr(default: T): T {
      match this
      case Some(v) => v
      case None => default
    }
  }

  /** The outcome of an operation that can fail with an error value. */
  datatype Result<+T, +E> = Success(value: T) | Failure(error: E)
}
