/** Optional values and success-or-error results, standing in for Python's
    `None` and for raised exceptions. */
module Wrappers {

  /** A value that may be missing, like a Python `Optional[T]`. */
  datatype Option<+T> = None | Some(value: T) {

    /** The wrapped value, or `default` when there is none
        (Python's `os.getenv(name, default)`). */
    function GetOr(default: T): T {
      match this
      case Some(v) => v
      case None => default
    }
  }

  /** The outcome of an operation that may raise instead of returning. */
  datatype Result<+T, +E> = Success(value: T) | Failure(error: E)
}
