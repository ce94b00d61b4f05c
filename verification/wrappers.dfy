/** Failure-compatible wrappers shared by every module of the model:
    `Option` stands for a JavaScript value that may be `undefined`,
    `Result` for a computation that may end in an error exit or a throw. */
module Wrappers {

  datatype Option<+T> = None | Some(value: T) {

    /** The wrapped value, or `default` when there is none (JavaScript's `x || d`
        for values that are never falsy). */
    function GetOr(default: T): T {
      match this
      case Some(v) => v
      case None => default
    }
  }

  datatype Result<+T, +E> = Ok(value: T) | Err(error: E)
}
