/** How the HTTP adapter turns an error into a response
    (`impl IntoResponse for Error` in src-tauri/src/server/mod.rs). Status
    codes follow section 15 of RFC 9110: 400 Bad Request (15.5.1),
    403 Forbidden (15.5.4), 404 Not Found (15.5.5) and 500 Internal Server
    Error (15.6.1). */
module ServerErrors {
  import opened Errors

  const BadRequest := 400
  const Forbidden := 403
  const NotFound := 404
  const InternalServerError := 500

  datatype ErrorResponse = ErrorResponse(status: int, body: string)

  /** Errors caused by a failure inside the server or a library it calls. */
  predicate IsServerFault(e: Error) {
    e.Io? || e.JsonParseError? || e.ImageParseError? || e.SoundParseError?
    || e.StringParseError? || e.ImageSendError? || e.ImageProcessingError?
    || e.AudioProcessingError?
  }

  /** Errors caused by what the client asked for. */
  predicate IsBadRequest(e: Error) {
    e.InitWzFailed? || e.NodeError? || e.NodeTypeMismatch?
  }

  function StatusOf(e: Error): int {
    match e
    case Io(_) => InternalServerError
    case JsonParseError(_) => InternalServerError
    case ImageParseError(_) => InternalServerError
    case SoundParseError(_) => InternalServerError
    case StringParseError(_) => InternalServerError
    case ImageSendError => InternalServerError
    case ImageProcessingError(_) => InternalServerError
    case AudioProcessingError(_) => InternalServerError
    case InitWzFailed => BadRequest
    case NodeError(_) => BadRequest
    case NodeTypeMismatch(_) => BadRequest
    case NotInitialized => Forbidden
    case NodeNotFound => NotFound
  }

  /** Every error gets exactly one of four statuses, chosen by its variant
      alone, and the body is always the error's display text. */
  function IntoResponse(e: Error): (r: ErrorResponse)
    ensures r.body == Display(e)
    ensures r.status == InternalServerError <==> IsServerFault(e)
    ensures r.status == BadRequest <==> IsBadRequest(e)
    ensures r.status == Forbidden <==> e.NotInitialized?
    ensures r.status == NotFound <==> e.NodeNotFound?
  {
    ErrorResponse(StatusOf(e), Display(e))
  }

  /** The status is a client error (4xx) exactly for the errors that are not
      server faults, and a server error (5xx) otherwise. */
  lemma StatusClassPartition(e: Error)
    ensures 400 <= IntoResponse(e).status < 500 <==> !IsServerFault(e)
    ensures 500 <= IntoResponse(e).status < 600 <==> IsServerFault(e)
  {
    match e
    case NotInitialized =>
    case NodeNotFound =>
    case _ =>
  }

  /** The HTTP adapter and the command adapter report an error with the same
      text: the response body equals the serialised error. */
  lemma TransportsReportSameText(e: Error)
    ensures IntoResponse(e).body == Serialize(e)
  {
  }
}
