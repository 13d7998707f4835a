/** Option and Result, the two failure-carrying shapes used across the model.
    `Option` stands for a JSON key that may be absent (and for `float('inf')`,
    `None` returns); `Result` for a call that may raise. */
module Wrappers {

  datatype Option<+T> = None | Some(value: T) {
    function GetOr(default: T): T {
      match this
      case Some(v) => v
      case None => default
    }
  }

  datatype Result<+R, +E> = Success(value: R) | Failure(error: E)
}
