/** Option and Result, used for "value or None" returns and for failures that
    the source raises as exceptions. */
module Wrappers {

  datatype Option<+T> = None | Some(value: T)

  datatype Result<+R, +E> = Success(value: R) | Failure(error: E)
}

/** The HTTP outcome of a request: the response value, or the status code the
    handler raises together with its `detail` text. */
module Http {

  datatype Outcome<+T> =
    | Ok(value: T)
    | Unprocessable(detail: string)   // 422, request-body validation failed
    | BadRequest(detail: string)      // 400
    | Unauthorized(detail: string)    // 401
    | Forbidden(detail: string)       // 403
    | NotFound(detail: string)        // 404
    | ServerError(detail: string)     // 500, an exception the handler does not catch
  {
    /** The status code of an error outcome; `success` for `Ok`. */
    function StatusCode(success: int): (code: int) {
      match this
      case Ok(_) => success
      case Unprocessable(_) => 422
      case BadRequest(_) => 400
      case Unauthorized(_) => 401
      case Forbidden(_) => 403
      case NotFound(_) => 404
      case ServerError(_) => 500
    }

    /** The same error response, for a handler whose success value has another type. */
    function PropagateError<U>(): (r: Outcome<U>)
      requires !Ok?
      ensures r.StatusCode(0) == StatusCode(0) && r.detail == detail
    {
      match this
      case Unprocessable(d) => Unprocessable(d)
      case BadRequest(d) => BadRequest(d)
      case Unauthorized(d) => Unauthorized(d)
      case Forbidden(d) => Forbidden(d)
      case NotFound(d) => NotFound(d)
      case ServerError(d) => ServerError(d)
    }
  }
}
