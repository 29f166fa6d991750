/** The replies the request handlers produce, with the HTTP status code each one carries. */
module Http {

  datatype Reply<+T> =
    | Ok(body: T)        // 200 with a body
    | Created(body: T)   // 201 with the created record
    | NoContent          // 204, empty body
    | BadRequest         // 400
    | NotFound           // 404
    | ServerError        // 500: an exception the handler does not catch
  {
    function Code(): int {
      match this
      case Ok(_) => 200
      case Created(_) => 201
      case NoContent => 204
      case BadRequest => 400
      case NotFound => 404
      case ServerError => 500
    }
  }
}
