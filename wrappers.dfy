/** Option and Result, the two failure-carrying datatypes used throughout the model. */
module Wrappers {

  /** An optional value; `None` stands for a JavaScript argument or key that is `undefined`. */
  datatype Option<+T> = None | Some(value: T) {

    /** The wrapped value, or `default` when there is none (a JavaScript default parameter). */
    function GetOr(default: T): (r: T)
      ensures Some? ==> r == value
      ensures None? ==> r == default
    {
      match this
      case Some(v) => v
      case None => default
    }
  }

  /** A computed value, or the error that the JavaScript code would throw instead. */
  datatype Result<+R, +E> = Success(value: R) | Failure(error: E)
}
