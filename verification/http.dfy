/** The JSON responses the route handlers send: a status and a payload on success,
    a status and a message on failure. */
module Http {

  /** `{ success: false, message }` with an HTTP status. */
  datatype Failure = Failure(status: nat, message: string)

  /** What a handler answers: a success status with its body, or a failure. */
  datatype Reply<+T> = Success(status: nat, body: T) | Fail(failure: Failure)

  const AuthenticationRequired := Failure(401, "Authentication required")
  const InvalidOrExpiredToken := Failure(401, "Invalid or expired token")
  const InsufficientPermissions := Failure(403, "Insufficient permissions")

  /** `handleZodError`: every schema rejection becomes this response. */
  const ValidationFailed := Failure(400, "Validation failed")
}
