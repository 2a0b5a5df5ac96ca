/** Option is the model's stand-in for a C pointer that may be NULL and for a
    Python value that may be None. */
module Wrappers {

  datatype Option<+T> = None | Some(value: T) {

    /** The value, or the given default when absent (Python's `x or default`
        for an optional string). */
    function GetOr(default: T): T
    {
      match this
      case Some(v) => v
      case None => default
    }
  }
}
