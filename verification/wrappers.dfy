/** Failure-carrying datatypes used wherever the source either throws, returns
    `undefined`, or answers with an HTTP error. */
module Wrappers {

  /** A value that may be absent: a missing object key, a failed parse. */
  datatype Option<+T> = None | Some(value: T) {

    /** The wrapped value, or `default` when absent. */
    function GetOr(default: T): T {
      match this
      case Some(v) => v
      case None => default
    }
  }

  /** Either a value or an error. */
  datatype Result<+R, +E> = Success(value: R) | Failure(error: E)
}
