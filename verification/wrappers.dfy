/** Failure-carrying values shared by every module of the model. */
module Wrappers {

  /** A value that may be absent: an empty form input, an `undefined` field, a missing match. */
  datatype Option<+T> = None | Some(value: T) {

    /** The carried value, or `default` when there is none. */
    function GetOr(default: T): T {
      match this
      case Some(v) => v
      case None => default
    }
  }

  /** The outcome of an operation that can be rejected with an error. */
  datatype Result<+R, +E> = Ok(value: R) | Err(error: E)
}
