/** Outcome types for the model: `Option` for a row that may be absent, `Result` for an
    operation that either succeeds or throws an error with a message. */
module Wrappers {

  datatype Option<+T> = None | Some(value: T) {
    function GetOr(default: T): T {
      match this
      case Some(v) => v
      case None => default
    }
  }

  datatype Result<+T, +E> = Ok(value: T) | Err(error: E)
}
