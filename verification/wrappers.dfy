/** The optional-value type shared by every module of the model: a JavaScript
    `undefined`/`null` or a failed regular-expression match is `None`. */
module Wrappers {

  datatype Option<+T> = None | Some(value: T) {

    /** The value in `Some`, or `default` when there is none. */
    function GetOr(default: T): T {
      match this
      case Some(v) => v
      case None => default
    }
  }
}
