/** Failure-carrying values shared by every module of the ledger model. */
module Wrappers {

  datatype Option<T> = None | Some(value: T) {
    function GetOr(default: T): T {
      match this
      case Some(v) => v
      case None => default
    }
  }

  /** A Go `(T, error)` pair: either a value or the error's message. */
  datatype Result<T> = Ok(value: T) | Err(msg: string)

  /** A Go `error` return with no value beside it (nil is `Pass`). */
  datatype Outcome = Pass | Fail(msg: string)
}
