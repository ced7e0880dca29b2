/** Optional values and error-carrying results shared by every service module. */
module Wrappers {

  /** A value that may be absent: an omitted request parameter or a query that found no row. */
  datatype Option<+T> = None | Some(value: T) {
    /** The value, or `default` when absent (JavaScript's `x ?? default` / destructuring default). */
    function GetOr(default: T): T {
      match this
      case Some(v) => v
      case None => default
    }
  }

  /** The outcome of an operation that yields a value or fails with an error. */
  datatype Result<+R, +E> = Ok(value: R) | Err(error: E)

  /** The outcome of an operation that yields nothing but may fail. */
  datatype Outcome<+E> = Pass | Fail(error: E)
}
