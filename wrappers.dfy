/** The optional value used wherever the source has a pointer that may be NULL,
    a JavaScript value that may be undefined, or a Python value that may be None. */
module Wrappers {
  datatype Option<+T> = None | Some(value: T) {
    function GetOr(default: T): T {
      match this
      case Some(v) => v
      case None => default
    }
  }
}
