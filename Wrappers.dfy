/** Optional values and results with an error message, shared by every module. */
module Wrappers {

  datatype Option<+T> = None | Some(value: T) {
    function GetOr(default: T): T {
      match this
      case Some(v) => v
      case None => default
    }
  }

  /** A computation that either produced a value or threw a JavaScript `Error` with `message`. */
  datatype Result<+T> = Success(value: T) | Failure(error: string)

  /** JavaScript truthiness of a value that is either absent (`undefined`/`null`) or a string. */
  predicate Truthy(s: Option<string>) {
    s.Some? && s.value != ""
  }
}
