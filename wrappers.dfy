/** Option and Result, used for the error returns and `None` values of the add-on. */
module Wrappers {

  datatype Option<+T> = None | Some(value: T) {
    function GetOr(default: T): T {
      match this
      case Some(v) => v
      case None => default
    }
  }

  /** A Python call that either returns a value or raises an exception with a message. */
  datatype Result<+T> = Ok(value: T) | Err(error: string)
}
