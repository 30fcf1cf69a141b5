/** The optional-value datatype shared by the watcher model. */
module Wrappers {

  /** A value that may be absent: Go's `(value, err)` pairs where only the
      presence of the value matters. */
  datatype Option<+T> = None | Some(value: T) {

    /** Returns the value in Some, or `default` for None. */
    function GetOr(default: T): (r: T)
      ensures Some? ==> r == value
      ensures None? ==> r == default
    {
      match this
      case Some(v) => v
      case None => default
    }
  }
}
