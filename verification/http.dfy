/** The HTTP status codes the create endpoint can answer with. */
module Http {

  datatype HttpStatus = Created | BadRequest | Conflict | InternalServerError {

    /** The numeric code, as Spring's `HttpStatus.value()` gives it. */
    function Value(): int {
      match this
      case Created => 201
      case BadRequest => 400
      case Conflict => 409
      case InternalServerError => 500
    }
  }
}
