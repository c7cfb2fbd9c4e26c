/** Optional values, used wherever the program has "nothing here" (a missing file,
    an unset variable, a conversion that raised). */
module Wrappers {

  datatype Option<+T> = None | Some(value: T) {

    /** The value held, or `default` when there is none. */
    function GetOr(default: T): T {
      match this
      case Some(v) => v
      case None => default
    }
  }
}
