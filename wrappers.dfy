/** Option and Result, the two failure-carrying shapes used across the model. */
module Wrappers {

  /** A value that may be absent: JavaScript's `undefined`/`null`, or `NaN` from a failed number parse. */
  datatype Option<+T> = None | Some(value: T)
  {
    function GetOr(default: T): T
    {
      match this
      case Some(v) => v
      case None => default
    }
  }

  /** The outcome of an operation that throws or rejects in the source. */
  datatype Result<+T, +E> = Ok(value: T) | Err(error: E)
}
