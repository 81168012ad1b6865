/** Optional values and the two ways a Python call can end. */
module Wrappers {

  datatype Option<+T> = None | Some(value: T) {
    function GetOr(default: T): T {
      match this
      case Some(v) => v
      case None => default
    }
  }

  /** A call either returns a value or lets an exception escape to its caller. */
  datatype Flow<+T> = Done(value: T) | Raised
}
