/**
 * The persisted user record and its role
 * (src/main/kotlin/tripeco/auth/model/User.kt).
 */
module Model {
  import opened Wrappers

  /** `Role`: the closed set {ADMIN, USER}. */
  datatype Role = ADMIN | USER {

    /** `isUser()`. */
    predicate IsUser()
      ensures IsUser() <==> this == USER
    {
      this == USER
    }

    /** `isAdmin()`. */
    predicate IsAdmin()
      ensures IsAdmin() <==> this == ADMIN
    {
      this == ADMIN
    }

    /** The enum constant's `name`, used as the granted authority and as the token's role claim. */
    function Name(): (n: string)
      ensures n == "ADMIN" || n == "USER"
    {
      match this
      case ADMIN => "ADMIN"
      case USER => "USER"
    }
  }

  /** `Role.valueOf`: the role with the given name, if there is one. */
  function RoleValueOf(name: string): (r: Option<Role>)
    ensures r.Some? <==> (name == "ADMIN" || name == "USER")
  {
    if name == "ADMIN" then Some(ADMIN)
    else if name == "USER" then Some(USER)
    else None
  }

  /** Exactly one of `isUser()` and `isAdmin()` holds for every role. */
  lemma ExactlyOneRolePredicate(r: Role)
    ensures r.IsUser() != r.IsAdmin()
  {
  }

  /** A role's name reads back as the same role, so distinct roles have distinct names. */
  lemma RoleNameRoundTrip(r: Role)
    ensures RoleValueOf(r.Name()) == Some(r)
    ensures forall q: Role :: q.Name() == r.Name() ==> q == r
  {
  }

  /**
   * `User`. `id` is `null` until the repository assigns one on the first
   * save, and never changes afterwards; the other fields are `var`s that
   * the service overwrites.
   */
  datatype User = User(
    id: Option<string>,
    firstName: string,
    lastName: string,
    email: string,
    password: string,
    phoneCode: string,
    address: string,
    zipCode: string,
    role: Role)
}
