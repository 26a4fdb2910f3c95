/** The optional value used wherever the server or the client has "a value or nothing"
    (a JSON `null`, a missing key, a regular expression that did not match). */
module Wrappers {

  datatype Option<+T> = None | Some(value: T) {

    /** The value, or `default` when there is none: Python's `d.get(key, default)`. */
    function GetOr(default: T): T {
      match this
      case Some(v) => v
      case None => default
    }
  }
}
