/** The errors a request handler can return, and the HTTP status codes used. */
module Errors {
  import opened Common

  /**
   * `AuthAPIError`. `UnexpectedError` carries an opaque cause, as the enum
   * declares it.
   */
  datatype AuthAPIError =
    | UserAlreadyExists
    | InvalidCredentials
    | IncorrectCredentials
    | MissingToken
    | InvalidToken
    | UnexpectedError(cause: Report)

  type StatusCode = int

  const OK: StatusCode := 200
  const CREATED: StatusCode := 201
  const BAD_REQUEST: StatusCode := 400
  const UNAUTHORIZED: StatusCode := 401
  const CONFLICT: StatusCode := 409
  const INTERNAL_SERVER_ERROR: StatusCode := 500
}
