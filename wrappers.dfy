/** Optional values and the outcome of a call that may raise, shared by every module. */
module Wrappers {

  datatype Option<+T> = None | Some(value: T) {
    function GetOr(default: T): T {
      match this
      case Some(v) => v
      case None => default
    }
  }

  /** What a Python call does: return a value, or raise an exception with a message. */
  datatype Outcome<+T> = Returned(value: T) | Raised(error: string)

  /** What a loop that may never exit does: finish with a value, or run forever. */
  datatype Run<+T> = Finishes(value: T) | Diverges
}
