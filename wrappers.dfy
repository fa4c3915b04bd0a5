/** Option and Result, the two wrappers the rest of the model returns. */
module Wrappers {

  /** A value that may be absent: an omitted JSON field, a missing document. */
  datatype Option<+T> = None | Some(value: T) {
    function GetOr(default: T): T {
      match this
      case Some(v) => v
      case None => default
    }
  }

  /** The outcome of a request handler: the response body, or an error response. */
  datatype Result<+R, +E> = Success(value: R) | Failure(error: E)
}
