/** Value types shared by the backend and the frontend models. */
module Common {

  datatype Option<+T> = None | Some(value: T)

  /** A handler's outcome: a value, or the error it raises. */
  datatype Result<+T, +E> = Ok(value: T) | Err(error: E)

  /** A FastAPI `HTTPException`: status code and `detail` message. */
  datatype HttpError = HttpError(status: int, detail: string)

  /** The backend's `UserRole` enum. */
  datatype Role = STUDENT | INSTRUCTOR | ADMIN

  /** The string value of a role, as it travels in tokens and JSON. */
  function RoleName(r: Role): (s: string)
    ensures |s| > 0
  {
    match r
    case STUDENT => "STUDENT"
    case INSTRUCTOR => "INSTRUCTOR"
    case ADMIN => "ADMIN"
  }

  lemma RoleNameInjective(a: Role, b: Role)
    ensures RoleName(a) == RoleName(b) <==> a == b
  {
  }

  /** JavaScript truthiness of an optional string: absent and "" are falsy. */
  predicate Truthy(s: Option<string>) {
    s.Some? && s.value != ""
  }
}
