/** The error classes of the backend (backend/src/utils/ApiError.ts) and the
    shape of anything a handler may throw. */
module ApiErrors {
  import opened Wrappers

  /** An `ApiError`: a status code, a message and whether it is operational.
      Nothing changes these fields after construction, so it is a value. */
  datatype ApiError = ApiError(statusCode: int, message: string, isOperational: bool)

  /** What reaches the error handler: an `ApiError`, or any other `Error`
      (a database error carries its SQLSTATE in `code`). */
  datatype Failure =
    | Api(error: ApiError)
    | Plain(message: string, code: Option<string>)

  /** `new ApiError(statusCode, message, isOperational = true)`. */
  function NewApiError(statusCode: int, message: string, isOperational: Option<bool>): (e: ApiError)
    ensures e.statusCode == statusCode && e.message == message
    ensures e.isOperational <==> isOperational != Some(false)
  {
    ApiError(statusCode, message, OrElse(isOperational, true))
  }

  /** `new BadRequestError(message = 'Bad request')`. */
  function BadRequestError(message: Option<string>): (e: ApiError)
    ensures e.statusCode == 400 && e.isOperational
    ensures e.message == if message.Some? then message.value else "Bad request"
  {
    NewApiError(400, OrElse(message, "Bad request"), None)
  }

  /** `new NotFoundError(message = 'Resource not found')`. */
  function NotFoundError(message: Option<string>): (e: ApiError)
    ensures e.statusCode == 404 && e.isOperational
    ensures e.message == if message.Some? then message.value else "Resource not found"
  {
    NewApiError(404, OrElse(message, "Resource not found"), None)
  }

  /** `new InternalServerError(message = 'Internal server error')`: the one
      class that passes `isOperational = false`. */
  function InternalServerError(message: Option<string>): (e: ApiError)
    ensures e.statusCode == 500 && !e.isOperational
    ensures e.message == if message.Some? then message.value else "Internal server error"
  {
    NewApiError(500, OrElse(message, "Internal server error"), Some(false))
  }
}
