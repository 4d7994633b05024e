/** The optional value used throughout the model for Python's `None` and
    JavaScript's `null`/`NaN` results. */
module Wrappers {

  datatype Option<+T> = None | Some(value: T) {

    /** Returns the value inside `Some`, or `default` for `None`. */
    function GetOr(default: T): T {
      match this
      case Some(v) => v
      case None => default
    }
  }

  /** The outcome of a step that can raise: a value, or the exception. */
  datatype Result<+T> = Success(value: T) | Failure
}
