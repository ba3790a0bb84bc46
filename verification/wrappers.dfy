/** Optional values and success-or-error results, used for every lookup that can
    miss and every operation that can fail. */
module Wrappers {

  /** A value that may be absent: JSON fields left out, `null` lookups. */
  datatype Option<+T> = None | Some(value: T) {

    /** The encapsulated value, or `default` when absent. */
    function GetOr(default: T): T {
      match this
      case Some(v) => v
      case None => default
    }
  }

  /** The outcome of an operation that either produces a value or fails with an error. */
  datatype Result<+T, +E> = Ok(value: T) | Err(error: E)
}
