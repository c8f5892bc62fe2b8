/** Failure-carrying datatypes shared by every module of the ledger model. */
module Wrappers {

  /** A value that may be absent: a missing field, JavaScript's `NaN`, `null` or `undefined`. */
  datatype Option<+T> = None | Some(value: T) {

    /** The wrapped value, or `default` when there is none (JavaScript's `x ?? default`). */
    function GetOr(default: T): T {
      match this
      case Some(v) => v
      case None => default
    }
  }

  /** The outcome of an operation that either produces a value or is rejected with a reason. */
  datatype Result<+T, +E> = Ok(value: T) | Err(error: E)
}
