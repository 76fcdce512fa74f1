/** How an `AuthAPIError` becomes an HTTP response: a status and a JSON `{error}` body. */
module ErrorResponses {
  import opened Common
  import opened Errors

  /** The JSON body `{ "error": message }`. */
  datatype ErrorResponse = ErrorResponse(error: string)

  datatype Response = Response(status: StatusCode, body: ErrorResponse)

  /**
   * `into_response`: client mistakes map to 4xx, a backend failure to 500,
   * and the cause of an unexpected error never reaches the client.
   */
  function IntoResponse(e: AuthAPIError): (r: Response)
    ensures r.status in {BAD_REQUEST, UNAUTHORIZED, CONFLICT, INTERNAL_SERVER_ERROR}
    ensures r.status == INTERNAL_SERVER_ERROR <==> e.UnexpectedError?
    ensures r.status == CONFLICT <==> e == UserAlreadyExists
    ensures r.status == BAD_REQUEST <==> e == InvalidCredentials || e == MissingToken
    ensures r.status == UNAUTHORIZED <==> e == IncorrectCredentials || e == InvalidToken
    ensures r.body.error != ""
  {
    match e
    case UserAlreadyExists => Response(CONFLICT, ErrorResponse("User already exists"))
    case InvalidCredentials => Response(BAD_REQUEST, ErrorResponse("Invalid credentials"))
    case IncorrectCredentials => Response(UNAUTHORIZED, ErrorResponse("Incorrect credentials"))
    case UnexpectedError(_) => Response(INTERNAL_SERVER_ERROR, ErrorResponse("Unexpected error"))
    case MissingToken => Response(BAD_REQUEST, ErrorResponse("Missing auth token"))
    case InvalidToken => Response(UNAUTHORIZED, ErrorResponse("Invalid auth token"))
  }

  /** Each variant has its own message: the body alone tells which error occurred. */
  lemma MessageDeterminesVariant(a: AuthAPIError, b: AuthAPIError)
    requires IntoResponse(a).body == IntoResponse(b).body
    ensures a == b || (a.UnexpectedError? && b.UnexpectedError?)
  {
  }

  /** Unexpected errors all look alike to the client, whatever their cause. */
  lemma CauseIsNotExposed(c1: Report, c2: Report)
    ensures IntoResponse(AuthAPIError.UnexpectedError(c1)) == IntoResponse(AuthAPIError.UnexpectedError(c2))
  {
  }

  /** The table the route tests rely on. */
  lemma ResponseTable(cause: Report)
    ensures IntoResponse(UserAlreadyExists) == Response(409, ErrorResponse("User already exists"))
    ensures IntoResponse(InvalidCredentials) == Response(400, ErrorResponse("Invalid credentials"))
    ensures IntoResponse(IncorrectCredentials) == Response(401, ErrorResponse("Incorrect credentials"))
    ensures IntoResponse(AuthAPIError.UnexpectedError(cause)) == Response(500, ErrorResponse("Unexpected error"))
    ensures IntoResponse(MissingToken) == Response(400, ErrorResponse("Missing auth token"))
    ensures IntoResponse(InvalidToken) == Response(401, ErrorResponse("Invalid auth token"))
  {
  }
}
