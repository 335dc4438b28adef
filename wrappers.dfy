/** Optional values and the two outcome shapes the service layer uses in place of
    Java's null and its exceptions. */
module Wrappers {

  /** A value that may be absent: Java's nullable reference or java.util.Optional. */
  datatype Option<+T> = None | Some(value: T) {
    /** The value, or `default` when absent. */
    function GetOr(default: T): T {
      match this
      case Some(v) => v
      case None => default
    }
  }

  /** What a value-returning operation produces: its value, or the error it throws. */
  datatype Result<+R, +E> = Success(value: R) | Failure(error: E)

  /** What a void operation produces: normal completion, or the error it throws. */
  datatype Outcome<+E> = Pass | Fail(error: E)
}
