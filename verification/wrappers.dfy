/** Failure-carrying values: a lookup that may find nothing, and an
    operation that may throw an error with a message. */
module Wrappers {

  datatype Option<+T> = None | Some(value: T) {
    function GetOr(default: T): T {
      match this
      case Some(v) => v
      case None => default
    }
  }

  /** The outcome of an async operation: it resolves to a value or rejects
      with an error message. */
  datatype Result<+T> = Ok(value: T) | Err(message: string)
}
