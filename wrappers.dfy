/** Optional values and the outcome of a call that may raise. */
module Wrappers {

  /** Python's `None` / JavaScript's `undefined` next to a present value. */
  datatype Option<+T> = None | Some(value: T) {
    function GetOr(default: T): T {
      match this
      case Some(v) => v
      case None => default
    }
  }

  /** The result of a call into code that may raise an exception the caller does not catch. */
  datatype Outcome<+T> = Ok(value: T) | Interrupted | Raised
}
