/** Types shared by the board service and the JWT layer. */
module Common {

  /** Stands in for a Java reference that may be null, or a java.util.Optional. */
  datatype Option<+T> = None | Some(value: T)

  /** The value a service method returns, or the RestApiException it throws. */
  datatype Result<+T> = Ok(value: T) | Err(error: ErrorType)

  /** UserRoleEnum: the two roles a user may hold. */
  datatype Role = USER | ADMIN

  /** The ErrorType constants the core raises or attaches to a request. */
  datatype ErrorType = NOT_FOUND_WRITING | NOT_WRITER | NOT_VALID_TOKEN | NOT_FOUND_USER

  /** The User entity as far as the core reads it: its login handle and its stored role. */
  datatype User = User(username: string, role: Role)
}
