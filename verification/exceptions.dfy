/** The exceptions that reach the controller advice, and the advice itself
    (`GlobalExceptionHandler`): a pure map from an exception to an HTTP status
    and an error body. */
module Exceptions {
  import opened Wrappers
  import opened Text
  import opened Http

  /** The exception kinds the advice distinguishes, each with its possibly null
      message. Spring picks the most specific handler, so an
      `IllegalArgumentException` or an `HttpMessageNotReadableException` (both
      runtime exceptions) never reaches the general runtime handler; `Runtime`
      stands for every other runtime exception and `Other` for every checked
      exception. */
  datatype Exception =
    | IllegalArgument(message: Option<string>)
    | Runtime(message: Option<string>)
    | NotReadable(message: Option<string>)
    | Other(message: Option<string>)

  /** The JSON error body `{ statusCode, errorCode, message }`. */
  datatype ErrorResponse = ErrorResponse(statusCode: int, errorCode: string, message: Option<string>)

  /** A `ResponseEntity<ErrorResponse>`: the HTTP status and the body. */
  datatype ErrorEntity = ErrorEntity(status: HttpStatus, body: ErrorResponse)

  const DuplicateMarker := "already exists"
  const TimestampMarker := "LocalDateTime"
  const NumberMarker := "Number"

  const TimestampHint := "Invalid timestamp format. Use: yyyy-MM-ddTHH:mm:ss (e.g., 2024-02-16T10:30:00)"
  const NumberHint := "Invalid number format for amount"
  const FormatFallback := "Invalid request format"
  const GenericMessage := "An unexpected error occurred"

  /** `message != null && message.contains(needle)`. */
  predicate Mentions(message: Option<string>, needle: string) {
    message.Some? && Contains(message.value, needle)
  }

  /** An error entity whose body repeats the status's numeric code. */
  function Respond(status: HttpStatus, code: string, message: Option<string>): ErrorEntity {
    ErrorEntity(status, ErrorResponse(status.Value(), code, message))
  }

  /** `handleIllegalArgument`. */
  function HandleIllegalArgument(message: Option<string>): ErrorEntity {
    Respond(BadRequest, "BAD_REQUEST", message)
  }

  /** `handleRuntime`: a conflict when the message mentions a duplicate,
      otherwise a server error; the message is passed on in both cases. */
  function HandleRuntime(message: Option<string>): ErrorEntity {
    if Mentions(message, DuplicateMarker) then Respond(Conflict, "CONFLICT", message)
    else Respond(InternalServerError, "INTERNAL_ERROR", message)
  }

  /** `handleJsonParseError`: always a bad request, with a hint picked from
      the parser's message. */
  function HandleJsonParseError(message: Option<string>): ErrorEntity {
    var text :=
      if Mentions(message, TimestampMarker) then TimestampHint
      else if Mentions(message, NumberMarker) then NumberHint
      else FormatFallback;
    Respond(BadRequest, "BAD_REQUEST", Some(text))
  }

  /** `handleGeneric`: a server error with a fixed text. */
  function HandleGeneric(message: Option<string>): ErrorEntity {
    Respond(InternalServerError, "INTERNAL_ERROR", Some(GenericMessage))
  }

  /** The advice as a whole: the exception's kind selects the handler. */
  function Handle(ex: Exception): (r: ErrorEntity)
    // The body always agrees with the status line, and the code names the status.
    ensures r.body.statusCode == r.status.Value()
    ensures r.status == BadRequest ==> r.body.errorCode == "BAD_REQUEST"
    ensures r.status == Conflict ==> r.body.errorCode == "CONFLICT"
    ensures r.status == InternalServerError ==> r.body.errorCode == "INTERNAL_ERROR"
    // Which exceptions land on which status, in both directions.
    ensures r.status == BadRequest <==> ex.IllegalArgument? || ex.NotReadable?
    ensures r.status == Conflict <==> ex.Runtime? && Mentions(ex.message, DuplicateMarker)
    ensures r.status == InternalServerError <==>
      (ex.Runtime? && !Mentions(ex.message, DuplicateMarker)) || ex.Other?
    // Which message the body carries.
    ensures ex.IllegalArgument? || ex.Runtime? ==> r.body.message == ex.message
    ensures ex.NotReadable? && Mentions(ex.message, TimestampMarker) ==>
      r.body.message == Some(TimestampHint)
    ensures ex.NotReadable? && !Mentions(ex.message, TimestampMarker) && Mentions(ex.message, NumberMarker) ==>
      r.body.message == Some(NumberHint)
    ensures ex.NotReadable? && !Mentions(ex.message, TimestampMarker) && !Mentions(ex.message, NumberMarker) ==>
      r.body.message == Some(FormatFallback)
    ensures ex.Other? ==> r.body.message == Some(GenericMessage)
  {
    match ex
    case IllegalArgument(m) => HandleIllegalArgument(m)
    case Runtime(m) => HandleRuntime(m)
    case NotReadable(m) => HandleJsonParseError(m)
    case Other(m) => HandleGeneric(m)
  }

  /** A message that contains "already exists" anywhere is a conflict when it
      rides a runtime exception, whatever surrounds the marker. */
  lemma RuntimeDuplicateIsConflict(prefix: string, suffix: string)
    ensures Handle(Runtime(Some(prefix + DuplicateMarker + suffix))).status == Conflict
  {
    ContainsInfix(prefix, DuplicateMarker, suffix);
  }

  /** A null message never reads as a duplicate: a runtime exception without a
      message is a server error carrying no message. */
  lemma NullRuntimeMessageIsServerError()
    ensures Handle(Runtime(None)) == ErrorEntity(InternalServerError, ErrorResponse(500, "INTERNAL_ERROR", None))
  {
  }

  /** A store failure such as "Database error" is no duplicate: it is answered
      as a server error that passes the message on. */
  lemma DatabaseErrorIsServerError()
    ensures Handle(Runtime(Some("Database error"))) ==
      ErrorEntity(InternalServerError, ErrorResponse(500, "INTERNAL_ERROR", Some("Database error")))
  {
    var text := "Database error";
    assert |text| == |DuplicateMarker|;
    assert text[0..|DuplicateMarker|][0] != DuplicateMarker[0];
    assert forall i :: OccursAt(text, DuplicateMarker, i) ==> i == 0;
  }

  /** Hiding the cause: a checked exception's body is the same whatever its
      message was. */
  lemma OtherMessageNeverExposed(a: Option<string>, b: Option<string>)
    ensures Handle(Other(a)) == Handle(Other(b))
  {
  }
}
