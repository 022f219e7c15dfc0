/** Option and Result values for the "null" and exception paths of the component. */
module Wrappers {

  /** A value that may be absent (PHP `null`, or an unset array key). */
  datatype Option<+T> = None | Some(value: T) {

    /** The value, or `default` when absent (PHP's `??`). */
    function GetOr(default: T): T {
      match this
      case Some(v) => v
      case None => default
    }
  }

  /** Either a value or the error raised while computing it. */
  datatype Result<+R, +E> = Success(value: R) | Failure(error: E)
}
