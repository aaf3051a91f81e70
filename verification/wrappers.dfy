/** Optional values and fallible results, shared by every module of the model. */
module Wrappers {

  /** A value that may be absent, for the fields the controller reads with a presence flag. */
  datatype Option<+T> = None | Some(value: T) {

    /** The wrapped value, or `default` when absent. */
    function GetOr(default: T): T {
      match this
      case Some(v) => v
      case None => default
    }
  }
}
