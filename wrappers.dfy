/** Optional values and results of calls whose outcome the page does not control
    (a fetch, a service call, a JSON parse). */
module Wrappers {

  /** A value that may be missing: JavaScript's `null` / `undefined` or a failed lookup. */
  datatype Option<+T> = None | Some(value: T) {
    function GetOr(default: T): T {
      match this
      case Some(v) => v
      case None => default
    }
  }

  /** The outcome of an awaited call: the value it resolved with, or the error it rejected with. */
  datatype Result<+R, +E> = Success(value: R) | Failure(error: E)
}
