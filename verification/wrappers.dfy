/** Failure-carrying datatypes shared by the whole model.
    - Option<T>: a value that may be absent (Python's `None`, a falsy sentinel, an empty dict).
    - Outcome<T>: what one call to an external service did: returned a value or raised.
 */
module Wrappers {

  datatype Option<+T> = None | Some(value: T) {

    /** Returns the value in Some, or the given default when None */
    function GetOr(default: T): T {
      match this
      case Some(v) => v
      case None => default
    }
  }

  /** One call to an external collaborator: it returned `value` or raised `error`. */
  datatype Outcome<+T> = Success(value: T) | Failure(error: string) {

    /** Forgets the error message */
    function ToOption(): Option<T> {
      match this
      case Success(v) => Some(v)
      case Failure(_) => None
    }
  }
}
