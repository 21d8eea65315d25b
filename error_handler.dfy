/** The last two middlewares of the app (backend/src/middleware/errorHandler.ts). */
module ErrorHandler {
  import opened Wrappers
  import opened ApiErrors
  import opened Schema
  import opened Http

  /** The SQLSTATE codes the handler recognises. */
  const UniqueViolation := "23505"
  const ForeignKeyViolation := "23503"
  const InvalidTextRepresentation := "22P02"

  predicate KnownCode(code: Option<string>)
  {
    code == Some(UniqueViolation) || code == Some(ForeignKeyViolation) || code == Some(InvalidTextRepresentation)
  }

  /** `errorHandler`: an `ApiError` answers with its own status and message;
      otherwise a recognised PostgreSQL code picks a fixed answer; anything
      else is a 500 whose message is hidden in production. Every answer has
      `success: false` and no data. */
  function HandleError(err: Failure, production: bool): (r: Response)
    ensures !r.success && r.data == NoData && r.errors == None && r.message.Some?
    ensures err.Api? ==> r.status == err.error.statusCode && r.message == Some(err.error.message)
    ensures err.Plain? ==> (r.status == 500 <==> !KnownCode(err.code))
    ensures err.Plain? && !KnownCode(err.code) ==> r.message == Some(if production then "Internal server error" else err.message)
  {
    match err
    case Api(e) => ErrorResponse(e.statusCode, e.message)
    case Plain(message, code) =>
      if code == Some(UniqueViolation) then ErrorResponse(409, "Resource already exists")
      else if code == Some(ForeignKeyViolation) then ErrorResponse(400, "Referenced resource does not exist")
      else if code == Some(InvalidTextRepresentation) then ErrorResponse(400, "Invalid input format")
      else ErrorResponse(500, if production then "Internal server error" else message)
  }

  /** The three recognised codes and their fixed answers, whatever the error's
      message and the environment. */
  lemma KnownCodes(message: string, production: bool)
    ensures HandleError(Plain(message, Some("23505")), production) == ErrorResponse(409, "Resource already exists")
    ensures HandleError(Plain(message, Some("23503")), production) == ErrorResponse(400, "Referenced resource does not exist")
    ensures HandleError(Plain(message, Some("22P02")), production) == ErrorResponse(400, "Invalid input format")
  {
  }

  /** In production an error that is not an `ApiError` never shows its own
      message: the client gets one of four fixed texts. */
  lemma ProductionHidesMessages(message: string, code: Option<string>)
    ensures HandleError(Plain(message, code), true).message.value in
      {"Resource already exists", "Referenced resource does not exist", "Invalid input format", "Internal server error"}
  {
  }

  /** What the client sees for the errors this model raises: the error classes
      keep their status, a foreign-key violation is a 400, and the other
      database errors and a dropped connection are 500s. */
  lemma ModelFailures(production: bool, message: Option<string>)
    ensures HandleError(Api(BadRequestError(message)), production).status == 400
    ensures HandleError(Api(NotFoundError(message)), production).status == 404
    ensures HandleError(Api(InternalServerError(message)), production).status == 500
    ensures HandleError(MissingReference, production) == ErrorResponse(400, "Referenced resource does not exist")
    ensures HandleError(ValueTooLong, production).status == 500
    ensures HandleError(NullDescription, production).status == 500
    ensures HandleError(ConnectionLost, production).status == 500
  {
  }

  /** `notFoundHandler`: a 404 naming the request method and the URL. */
  function NotFoundHandler(httpMethod: string, originalUrl: string): (r: Response)
    ensures r.status == 404 && !r.success && r.data == NoData
    ensures r.message == Some("Route " + httpMethod + " " + originalUrl + " not found")
  {
    ErrorResponse(404, "Route " + httpMethod + " " + originalUrl + " not found")
  }
}
