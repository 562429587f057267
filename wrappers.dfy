/** Optional values and success-or-error results, as used by the tag model. */
module Wrappers {

  /** A value that may be absent (an optional DTO field, `undefined` in the source). */
  datatype Option<+T> = None | Some(value: T) {

    /** The carried value, or `default` when absent. */
    function GetOr(default: T): T
    {
      match this
      case Some(v) => v
      case None => default
    }
  }

  /** The outcome of a service call: a value, or the error the call rejects with. */
  datatype Result<+R, +E> = Success(value: R) | Failure(error: E)
}
