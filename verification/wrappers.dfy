/** Failure-carrying values standing in for the C++ `std::optional`, for
    return-or-throw operations, and for `void` operations that may throw.
    Every error carries the text that `std::exception::what()` would give. */
module Wrappers {

  datatype Option<+T> = None | Some(value: T) {

    /** The value, or `default` when there is none (`json::value(key, default)`). */
    function GetOr(default: T): T {
      match this
      case Some(v) => v
      case None => default
    }
  }

  /** A value, or the message of the exception thrown instead. */
  datatype Result<+T> = Ok(value: T) | Err(error: string)

  /** The outcome of a `void` operation: it returned, or it threw. */
  datatype Outcome = Pass | Fail(error: string)
}
