/** `undefined`-able values: JavaScript optional properties and optional
    parameters (`duration?`, `from?`, `rowHeight?`) and optional-chaining
    results (`ref.current?.scrollTop`). */
module Wrappers {

  datatype Option<+T> = None | Some(value: T) {

    /** The value if present, otherwise the default: the meaning of a JS
        default parameter, which applies exactly when the argument is
        `undefined`. */
    function GetOr(default: T): (r: T)
      ensures Some? ==> r == value
      ensures None? ==> r == default
    {
      match this
      case Some(v) => v
      case None => default
    }
  }
}
