/** Option, Result and Outcome: the shapes that stand for JavaScript's
    `null`, its thrown errors and its "resolves with nothing" promises. */
module Wrappers {

  datatype Option<+T> = None | Some(value: T) {
    function GetOr(default: T): T {
      match this
      case Some(v) => v
      case None => default
    }
  }

  /** A computation that either produced a value or threw `error`. */
  datatype Result<+R, +E> = Success(value: R) | Failure(error: E)

  /** A computation that produced nothing or threw `error`. */
  datatype Outcome<+E> = Pass | Fail(error: E)
}
