/** Option and Result values for the absent values and raised errors of the
    modelled code. */
module Wrappers {

  /** A value that may be missing: Python's None or a real value. */
  datatype Option<+T> = None | Some(value: T) {
    function GetOr(default: T): T {
      match this
      case Some(v) => v
      case None => default
    }
  }

  /** The outcome of a call that can raise: a returned value or the error raised. */
  datatype Result<+T, +E> = Ok(value: T) | Err(error: E)
}
