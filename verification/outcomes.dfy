/** Failure-carrying datatypes shared by the whole model: an optional value, and the
    result of a step that may raise a Python exception instead of returning. */
module Outcomes {

  datatype Option<+T> = None | Some(value: T) {

    /** Returns the value held in Some, or `default` when None. */
    function GetOr(default: T): T {
      match this
      case Some(v) => v
      case None => default
    }
  }

  /** The Python exceptions that escape the modelled functions uncaught. */
  datatype Raised =
    | NameError(name: string)
    | KeyError(key: string)
    | TypeError(reason: string)
    | ZeroDivisionError

  datatype Result<+T> = Returned(value: T) | Crashed(error: Raised)
}
