/** Option and Result: the model's stand-ins for Python's None and raised exceptions. */
module Wrappers {

  datatype Option<+T> = None | Some(value: T) {
    function GetOr(default: T): T {
      match this
      case Some(v) => v
      case None => default
    }
  }

  /** The value a Python function returns, or the exception it raises (as a message). */
  datatype Result<+R, +E> = Success(value: R) | Failure(error: E)
}
