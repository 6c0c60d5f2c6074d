/** Option and Result, and the error kinds the controllers raise. */
module Wrappers {

  /** A value that may be absent: a request field that was not sent, a lookup that found nothing. */
  datatype Option<T> = None | Some(value: T) {
    function GetOr(default: T): T {
      if Some? then value else default
    }
  }

  /**
   * The kinds of failure a handler ends with, one per HTTP status it raises:
   * 400, 401, 404, 409 and 500. An unguarded dereference of a missing document
   * (a TypeError caught by the request wrapper) ends as ServerError.
   */
  datatype ErrorKind = BadRequest | Unauthorized | NotFound | Conflict | ServerError

  datatype Result<T> = Success(value: T) | Failure(error: ErrorKind)
}
