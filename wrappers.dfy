/** Optional values, standing for the nullable pointers and the -1 "not found"
    indices of Qt Linguist's code. */
module Wrappers {

  datatype Option<+T> = None | Some(value: T) {

    /** The value, or `default` when there is none. */
    function GetOr(default: T): T {
      match this
      case Some(v) => v
      case None => default
    }
  }
}
