/** Option and Result values used by every module in place of JavaScript's
    `undefined`/`null` returns and thrown errors. */
module Wrappers {

  datatype Option<+T> = None | Some(value: T) {
    function GetOr(default: T): T {
      match this
      case Some(v) => v
      case None => default
    }
  }

  /** A function that either returns `value` or throws `error`. */
  datatype Result<+T, +E> = Ok(value: T) | Err(error: E)
}
