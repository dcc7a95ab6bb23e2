/** Option, the HTTP error classes the handlers raise, and a Result over them. */
module Wrappers {

  datatype Option<T> = None | Some(value: T)

  /** The HTTPException classes raised by the routers, plus the 500 that an
      uncaught sqlite3 error (missing table, constraint violation) becomes. */
  datatype HttpError =
    | BadRequest(detail: string)     // 400
    | NotFound(detail: string)       // 404
    | Unprocessable(detail: string)  // 422
    | ServerError(detail: string)    // 500
  {
    function StatusCode(): (code: int)
      ensures BadRequest? <==> code == 400
      ensures NotFound? <==> code == 404
      ensures Unprocessable? <==> code == 422
      ensures ServerError? <==> code == 500
    {
      match this
      case BadRequest(_) => 400
      case NotFound(_) => 404
      case Unprocessable(_) => 422
      case ServerError(_) => 500
    }
  }

  datatype Result<T> = Ok(value: T) | Err(error: HttpError)

  /** Python truthiness of an optional string: present and not empty. */
  predicate Truthy(o: Option<string>) {
    o.Some? && o.value != ""
  }
}
