/** Option and Result, used for Ruby's nil and for raised exceptions. */
module Wrappers {

  datatype Option<+T> = None | Some(value: T) {
    /** Ruby's `x || default` on a value that may be nil. */
    function GetOr(default: T): T {
      match this
      case Some(v) => v
      case None => default
    }
  }

  datatype Result<+R, +E> = Success(value: R) | Failure(error: E)
}
