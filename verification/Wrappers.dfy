/** A value that may be absent. */
module Wrappers {
  datatype Option<T> = None | Some(value: T) {
    function GetOr(otherwise: T): T {
      if None? then otherwise else value
    }
  }
}
