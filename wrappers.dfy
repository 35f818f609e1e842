/** The optional value that stands for a Java reference that may be null. */
module Wrappers {
  datatype Option<+T> = None | Some(value: T) {
    /** The value, or the given default when there is none. */
    function GetOr(default: T): T {
      match this
      case Some(v) => v
      case None => default
    }
  }
}
