/** The Option type used wherever the source returns None for "absent", and
    the outcome of a call that may raise a Python exception. */
module Wrappers {

  datatype Option<+T> = None | Some(value: T) {

    /** The value, or `default` when absent. */
    function GetOr(default: T): T {
      match this
      case Some(v) => v
      case None => default
    }
  }

  /** A call either returns a value or raises the named exception. */
  datatype Outcome<+T> = Returned(value: T) | Raised(exception: string)
}
