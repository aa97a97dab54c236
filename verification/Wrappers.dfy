/** The optional value used by every module: Python's `None`, JavaScript's `null`. */
module Wrappers {

  datatype Option<+T> = None | Some(value: T) {

    function GetOr(fallback: T): T {
      match this
      case Some(v) => v
      case None => fallback
    }
  }
}
