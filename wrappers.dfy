/** The optional value used wherever the program works with `None`. */
module Wrappers {

  datatype Option<+T> = None | Some(value: T) {

    /** The value held, or the given default for `None` (Python's `x if x is not None else d`). */
    function GetOr(default: T): T {
      match this
      case Some(v) => v
      case None => default
    }
  }
}
