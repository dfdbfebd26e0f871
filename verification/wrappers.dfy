/** Optional values: the model's stand-in for JavaScript's `undefined`, and for
    a remote call that failed and left its slot empty. */
module Wrappers {

  datatype Option<+T> = None | Some(value: T) {

    /** Returns the value held in Some, or the default when None */
    function GetOr(default: T): (r: T) {
      match this
      case Some(v) => v
      case None => default
    }
  }
}
