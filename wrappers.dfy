/** Optional values and results with an error, shared by every module of the model. */
module Wrappers {

  /** A value that may be absent: a pandas NaN/None, or "no result". */
  datatype Option<+T> = None | Some(value: T) {
    function GetOr(default: T): T {
      match this
      case Some(v) => v
      case None => default
    }
  }

  /** The outcome of an operation that can raise: its value, or the error it raises. */
  datatype Result<+T, +E> = Success(value: T) | Failure(error: E)
}
