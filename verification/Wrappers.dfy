/** The optional value used where the program has a nil pointer or a second `ok` result. */
module Wrappers {
  datatype Option<+T> = None | Some(value: T) {
    function Or(default: T): T {
      match this
      case Some(v) => v
      case None => default
    }
  }
}
