/** Optional values and success-or-exception results, shared by the other modules. */
module Wrappers {

  /** A value that may be absent: C#'s `null` for a reference or a `Nullable<T>`. */
  datatype Option<+T> = None | Some(value: T) {
    function GetOr(default: T): T {
      match this
      case Some(v) => v
      case None => default
    }
  }

  /** A computed value, or the exception the computation throws. */
  datatype Result<+R, +E> = Success(value: R) | Failure(error: E)

  /** Normal completion of a void method, or the exception it throws. */
  datatype Outcome<+E> = Pass | Fail(error: E)
}
