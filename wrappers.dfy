/** Optional values: `None` stands for JavaScript's `undefined`, a failed
    match or a missing entry, depending on where it is used. */
module Wrappers {

  datatype Option<+T> = None | Some(value: T) {

    /** The wrapped value, or `default` when there is none. */
    function GetOr(default: T): T {
      match this
      case Some(v) => v
      case None => default
    }
  }
}
