/** Optional values and results that carry either a value or an error. */
module Wrappers {

  datatype Option<+T> = None | Some(value: T) {
    /** The wrapped value, or `default` when there is none. */
    function GetOr(default: T): T {
      match this
      case Some(v) => v
      case None => default
    }
  }

  /** The raise-or-return shape of a Python call: `Ok` is a normal return, `Err` an exception. */
  datatype Result<+T, +E> = Ok(value: T) | Err(error: E)
}
