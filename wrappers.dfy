/** Optional values and results with an error, as the rest of the model uses them. */
module Wrappers {

  /** A value that may be absent (JavaScript's `undefined` or `null`). */
  datatype Option<+T> = None | Some(value: T) {

    /** The value, or `default` when there is none (JavaScript's `x ?? default`). */
    function GetOr(default: T): T {
      match this
      case Some(v) => v
      case None => default
    }
  }

  /** Either a value or the error a call would throw. */
  datatype Result<+R, +E> = Success(value: R) | Failure(error: E)

  /**
   * How an HTTP request ended: its error callback ran, or its reply arrived with a body
   * (`None` for a null body).
   */
  datatype Response<+T> = Failed | Replied(body: Option<T>)
}
