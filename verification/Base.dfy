/** Names shared by every component. */
module Base {
  datatype Option<+T> = None | Some(value: T)

  /** A row id. A malformed id behaves everywhere like an id that names no row. */
  type Id = nat

  /** The users.role column; `OtherRole` is a role this code does not know. */
  datatype Role = Admin | Adult | Kid | OtherRole

  predicate IsAdultRole(role: Role)
  {
    role.Admin? || role.Adult?
  }
}
