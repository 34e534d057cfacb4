/**
 * Email / password authentication against the user store
 * (src/main/kotlin/tripeco/auth/config/TripecoAuthenticationManager.kt).
 * The password encoder's `matches` is a parameter: BCrypt is not modelled.
 */
module AuthenticationManager {
  import opened Wrappers
  import opened Text
  import opened Model
  import opened Repository

  /** `AuthUser`: the fields of the stored user the manager works with. */
  datatype AuthUser = AuthUser(id: string, email: string, password: string, role: Role)

  /** `UsernamePasswordAuthenticationToken` as the manager returns it. */
  datatype Authentication = Authentication(principal: string, credentials: string, authorities: seq<string>)

  /**
   * The `AuthenticationException`s the filter distinguishes, each with its
   * (possibly null) message; any other subclass is `OtherAuthException` with
   * its class name.
   */
  datatype AuthException =
    | UsernameNotFound(message: Option<string>)
    | Disabled(message: Option<string>)
    | BadCredentials(message: Option<string>)
    | OtherAuthException(className: string, message: Option<string>)
  {
    /** The exception's fully qualified class name. */
    function ClassName(): string {
      match this
      case UsernameNotFound(_) => "org.springframework.security.core.userdetails.UsernameNotFoundException"
      case Disabled(_) => "org.springframework.security.authentication.DisabledException"
      case BadCredentials(_) => "org.springframework.security.authentication.BadCredentialsException"
      case OtherAuthException(c, _) => c
    }

    /**
     * `Throwable.toString()`: the class name, then ": " and the message if
     * there is one; both can be read back from the result.
     */
    function ToString(): (s: string)
      ensures |s| >= |ClassName()| && s[..|ClassName()|] == ClassName()
      ensures message.None? ==> s == ClassName()
      ensures message.Some? ==> |s| == |ClassName()| + 2 + |message.value|
      ensures message.Some? ==> s[|ClassName()|..|ClassName()| + 2] == ": " && s[|ClassName()| + 2..] == message.value
    {
      match message
      case Some(m) => ClassName() + ": " + m
      case None => ClassName()
    }
  }

  const UnknownEmailPrefix := "User with email="
  const UnknownEmailSuffix := " not found"

  /** What `authenticate` throws for an unknown email: a UsernameNotFound whose message names the email. */
  function UnknownEmail(email: string): (e: AuthException)
    ensures e.UsernameNotFound? && e.message.Some?
    ensures var m := e.message.value;
            |m| == |UnknownEmailPrefix| + |email| + |UnknownEmailSuffix|
            && m[..|UnknownEmailPrefix|] == UnknownEmailPrefix
            && m[|UnknownEmailPrefix|..|UnknownEmailPrefix| + |email|] == email
            && m[|UnknownEmailPrefix| + |email|..] == UnknownEmailSuffix
  {
    UsernameNotFound(Some(UnknownEmailPrefix + email + UnknownEmailSuffix))
  }

  /** What `authenticate` throws for a wrong password: a BadCredentials with a fixed message. */
  function InvalidPassword(): (e: AuthException)
    ensures e.BadCredentials? && e.message == Some("Invalid password")
  {
    BadCredentials(Some("Invalid password"))
  }

  /** The token granted to a stored user: its id, its stored hash, and its role as the one authority. */
  function Granted(u: AuthUser): (a: Authentication)
    ensures a.principal == u.id && a.credentials == u.password && a.authorities == [u.role.Name()]
  {
    Authentication(u.id, u.password, [u.role.Name()])
  }

  /**
   * `authenticate`: look the email up ignoring case; an unknown email throws
   * UsernameNotFound; otherwise the password is checked against the stored
   * hash, and a mismatch throws BadCredentials.
   */
  function Authenticate(store: Store, matches: (string, string) -> bool, email: string, password: string)
    : (r: Result<Authentication, AuthException>)
    requires StoreValid(store)
    ensures !ExistsByEmailIgnoreCase(store, email) ==> r == Failure(UnknownEmail(email))
    ensures forall id :: HasEmail(store, id, email) ==>
              r == if matches(password, store[id].password)
                   then Success(Authentication(id, store[id].password, [store[id].role.Name()]))
                   else Failure(InvalidPassword())
  {
    match FindByEmailIgnoreCase(store, email)
    case None => Failure(UnknownEmail(email))
    case Some(user) =>
      var authUser := AuthUser(user.id.value, user.email, user.password, user.role);
      if matches(password, authUser.password) then Success(Granted(authUser)) else Failure(InvalidPassword())
  }

  /** Success exactly when a stored user has that email ignoring case and the password matches its hash. */
  lemma AuthenticateSucceedsIff(store: Store, matches: (string, string) -> bool, email: string, password: string)
    requires StoreValid(store)
    ensures Authenticate(store, matches, email, password).Success?
            <==> exists id :: HasEmail(store, id, email) && matches(password, store[id].password)
  {
    if !ExistsByEmailIgnoreCase(store, email) {
    } else {
      var id :| HasEmail(store, id, email);
    }
  }

  /**
   * The lookup happens before the password check: for an unknown email the
   * outcome does not depend on the encoder at all, and the two failures are
   * different kinds of exception.
   */
  lemma LookupPrecedesVerification(store: Store, m1: (string, string) -> bool, m2: (string, string) -> bool,
                                   email: string, password: string)
    requires StoreValid(store)
    requires !ExistsByEmailIgnoreCase(store, email)
    ensures Authenticate(store, m1, email, password) == Authenticate(store, m2, email, password)
    ensures Authenticate(store, m1, email, password).error.UsernameNotFound?
    ensures !InvalidPassword().UsernameNotFound?
  {
  }

  /** The email is matched ignoring case: any casing of a stored email authenticates the same way. */
  lemma AuthenticateIgnoresEmailCase(store: Store, matches: (string, string) -> bool, e1: string, e2: string,
                                     password: string)
    requires StoreValid(store)
    requires EqualsIgnoreCase(e1, e2)
    ensures Authenticate(store, matches, e1, password).Success? == Authenticate(store, matches, e2, password).Success?
    ensures Authenticate(store, matches, e1, password).Success? ==>
              Authenticate(store, matches, e1, password) == Authenticate(store, matches, e2, password)
  {
    assert forall id :: HasEmail(store, id, e1) <==> HasEmail(store, id, e2);
    if ExistsByEmailIgnoreCase(store, e1) {
      var id :| HasEmail(store, id, e1);
    }
  }
}
