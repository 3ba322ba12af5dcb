/** Optional values, shared by every module of the model. */
module Wrappers {

  /** A value that may be missing: an absent JSON member, a Python `None`,
      a JavaScript `undefined`, or a `NaN` produced by a failed number parse. */
  datatype Option<+T> = None | Some(value: T) {

    /** The wrapped value, or `default` when there is none. */
    function GetOr(default: T): T {
      match this
      case Some(v) => v
      case None => default
    }
  }
}
