/** The optional values of the editor: an unset `path`, a `null` error message,
    a missing textarea, a synchronous throw that did not happen. */
module Wrappers {

  datatype Option<+T> = None | Some(value: T) {

    /** The JavaScript `x || fallback` idiom, for a value that is never falsy. */
    function GetOr(fallback: T): T {
      match this
      case Some(v) => v
      case None => fallback
    }
  }
}
