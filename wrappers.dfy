/** Option and Result, the two failure-carrying wrappers every other module uses. */
module Wrappers {

  datatype Option<+T> = None | Some(value: T) {
    function GetOr(default: T): T {
      match this
      case Some(v) => v
      case None => default
    }
  }

  /** Ok carries a value; Err carries the message of the exception the source would raise. */
  datatype Result<+T, +E> = Ok(value: T) | Err(error: E)
}
