/** Optional values and the outcome of a Python call that either returns or raises. */
module Wrappers {

  datatype Option<+T> = None | Some(value: T) {
    function GetOr(default: T): T {
      match this
      case Some(v) => v
      case None => default
    }
  }

  /** A Python call either returns a value or raises an exception whose text is `error`. */
  datatype Outcome<+T> = Ok(value: T) | Raised(error: string)
}
