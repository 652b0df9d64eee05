/** The optional-value datatype used for JavaScript's `undefined`/`null`
    fields, failed look-ups and absent callbacks throughout the model. */
module Wrappers {

  datatype Option<+T> = None | Some(value: T) {

    /** Returns the wrapped value, or `default` when there is none. */
    function GetOr(default: T): T {
      match this
      case Some(v) => v
      case None => default
    }
  }
}
