/**
 * The authenticated user: the role enum whose constants are their own
 * authority strings, and the principal built from a token's claims.
 */
module Principals {
  import opened Wrappers

  datatype UserRole = ROLE_USER | ROLE_INSTRUCTOR | ROLE_ADMIN

  /** `getAuthority()`: the constant's name. */
  function Authority(role: UserRole): string {
    match role
    case ROLE_USER => "ROLE_USER"
    case ROLE_INSTRUCTOR => "ROLE_INSTRUCTOR"
    case ROLE_ADMIN => "ROLE_ADMIN"
  }

  /** `UserRole.valueOf(name)`: the constant whose name is exactly `name`
      (case-sensitive, no trimming); `None` where Java throws. */
  function ValueOf(name: string): (r: Option<UserRole>)
    ensures forall role :: r == Some(role) <==> Authority(role) == name
  {
    if name == "ROLE_USER" then Some(ROLE_USER)
    else if name == "ROLE_INSTRUCTOR" then Some(ROLE_INSTRUCTOR)
    else if name == "ROLE_ADMIN" then Some(ROLE_ADMIN)
    else None
  }

  /** Only the exact constant names parse: another case or the bare role
      word does not. */
  lemma ValueOfIsExact()
    ensures ValueOf("role_admin").None? && ValueOf("ADMIN").None? && ValueOf("ROLE_ADMIN ").None?
    ensures ValueOf("ROLE_ADMIN") == Some(ROLE_ADMIN)
  {
    assert Authority(ROLE_ADMIN) == "ROLE_ADMIN";
  }

  /** A principal; `password` is never set from a token. */
  datatype UserPrincipal = UserPrincipal(id: string, username: string, password: Option<string>, email: string, role: UserRole)

  /** The four-argument constructor: id, username and email are stored as
      given and the role is parsed by `valueOf`, whose failure (an
      IllegalArgumentException) escapes. */
  function NewPrincipal(userId: string, username: string, email: string, role: string): (r: Result<UserPrincipal>)
    ensures r.Ok? <==> ValueOf(role).Some?
    ensures r.Ok? ==> r.value.id == userId && r.value.username == username && r.value.email == email
    ensures r.Ok? ==> r.value.password.None? && Authority(r.value.role) == role
    ensures r.Err? ==> r.error == IllegalArgument
  {
    match ValueOf(role)
    case None => Err(IllegalArgument)
    case Some(parsed) => Ok(UserPrincipal(userId, username, None, email, parsed))
  }

  /** `getAuthorities()`: the one-element list holding the role. */
  function Authorities(p: UserPrincipal): (r: seq<UserRole>)
    ensures |r| == 1
    ensures forall role :: role in r <==> role == p.role
  {
    [p.role]
  }

  /** Holding the ADMIN authority is having the ADMIN role. */
  lemma AdminAuthorityIffAdminRole(p: UserPrincipal)
    ensures ROLE_ADMIN in Authorities(p) <==> p.role == ROLE_ADMIN
  {
  }
}
