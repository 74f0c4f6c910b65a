/** Option and Result values standing in for PHP's null returns and exceptions. */
module Wrappers {

  datatype Option<+T> = None | Some(value: T) {
    function GetOr(default: T): T {
      match this
      case Some(v) => v
      case None => default
    }
  }

  datatype Result<+T, +E> = Ok(value: T) | Err(error: E)

  /** Outcome of an operation that only succeeds or throws. */
  datatype Outcome<+E> = Pass | Fail(error: E)
}
