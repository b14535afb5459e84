/** Failure-carrying datatypes shared by every module of the model. */
module Wrappers {

  datatype Option<+T> = None | Some(value: T) {
    function GetOr(default: T): T {
      match this
      case Some(v) => v
      case None => default
    }
  }

  /** The HTTP errors the route handlers return (Boom objects in the server),
      plus the exceptions JavaScript raises on the paths the model covers. */
  datatype Error =
    | BadRequest            // Boom.badRequest, 400
    | Unauthorized          // Boom.unauthorized, 401
    | NotFound              // Boom.notFound, 404
    | ServerUnavailable     // Boom.serverUnavailable, 503
    | TypeError             // a JavaScript TypeError escaping the handler
    | RangeError            // `new Date(x).toISOString()` on an invalid date
    | SyntaxError           // `new RegExp(text)` on an invalid pattern
    | CharsUndefined        // randomString: 'chars' is undefined
    | CharsTooLong          // randomString: more than 256 characters

  datatype Result<+T> = Ok(value: T) | Err(error: Error)
}
