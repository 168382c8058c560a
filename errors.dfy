/** The error values the handlers and services return, and the HTTP responses built from them. */
module Errors {

  datatype ErrorKind =
    | BadRequest          // errors.BadRequestErr: the request body could not be bound
    | Unauthorized        // errors.UnauthorizedErr
    | TokenExpired        // errors.TokenExpiredErr
    | NotFound            // errors.NotFoundErr
    | InternalServer      // errors.InternalServerErr
    | IncorrectUserRole   // services.IncorrectUserRoleErr: the user is not a seller
    | PasswordTooLong     // bcrypt: password length exceeds 72 bytes
    | NoRows              // sql.ErrNoRows from a single-row query
    | UniqueViolation     // the users table already holds this email
    | Database            // any other failure reported by the database driver
    | FileSystem          // a failure of the file system (open, mkdir, create, copy)
}

/** Status codes and bodies of the JSON responses written by the handlers. */
module Http {
  import opened Errors
  import opened Jwt
  import opened Models

  const StatusOK := 200
  const StatusBadRequest := 400
  const StatusUnauthorized := 401
  const StatusInternalServerError := 500

  datatype Body =
    | ErrorBody(error: ErrorKind)
      // routes.TokenResponse
    | TokenResponse(accessToken: TokenString, refreshToken: TokenString)
      // whatever a downstream handler writes
    | Payload(text: string)

  datatype Response = Response(status: int, body: Body)

  function Fail(status: int, error: ErrorKind): Response {
    Response(status, ErrorBody(error))
  }

  /**
   * The parts of an echo.Context the core touches: the request headers (the two the core
   * reads carry tokens), the values set with c.Set, and how often the next handler has run.
   */
  class RequestContext {
    const headers: map<string, TokenString>
    var values: map<string, User>
    var nextCalls: nat

    constructor (headers: map<string, TokenString>)
      ensures this.headers == headers && values == map[] && nextCalls == 0
    {
      this.headers := headers;
      values := map[];
      nextCalls := 0;
    }

    /** Header.Get: an absent header reads as the empty string. */
    function Header(name: string): TokenString {
      if name in headers then headers[name] else Empty
    }
  }
}
