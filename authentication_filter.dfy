/**
 * The login filter: what it writes into the HTTP response after an
 * authentication attempt
 * (src/main/kotlin/tripeco/auth/config/TripecoAuthenticationFilter.kt).
 * `JwtService.generate` is a parameter `jwt(subject, role)`.
 */
module AuthenticationFilter {
  import opened Wrappers
  import opened Errors
  import opened Model
  import opened Repository
  import opened AuthenticationManager

  const AuthorizationHeader := "Authorization"
  const JsonContentType := "application/json"

  const UserNotFoundMessage := "We couldn't find an user with that email. Please try again."
  const DisabledMessage := "Your account is disabled. Please contact a administrator."
  const BadCredentialsMessage := "The email or password are not valid. Please check and try again."
  const UnexpectedMessage := "Unexpected error. Please try again."

  /** The user-facing message for each kind of authentication failure (the `when` in `unsuccessfulAuthentication`). */
  function FailureMessage(failed: AuthException): (msg: string)
    ensures failed.UsernameNotFound? ==> msg == UserNotFoundMessage
    ensures failed.Disabled? ==> msg == DisabledMessage
    ensures failed.BadCredentials? ==> msg == BadCredentialsMessage
    ensures failed.OtherAuthException? ==> msg == UnexpectedMessage
  {
    match failed
    case UsernameNotFound(_) => UserNotFoundMessage
    case Disabled(_) => DisabledMessage
    case BadCredentials(_) => BadCredentialsMessage
    case OtherAuthException(_, _) => UnexpectedMessage
  }

  /** The four messages differ from one another, so each message names exactly one kind of failure. */
  lemma FailureMessagesDistinct(a: AuthException, b: AuthException)
    ensures FailureMessage(a) == FailureMessage(b)
            <==> (a.UsernameNotFound? == b.UsernameNotFound? && a.Disabled? == b.Disabled?
                  && a.BadCredentials? == b.BadCredentials?)
  {
    if FailureMessage(a) == FailureMessage(b) {
      assert |FailureMessage(a)| == |FailureMessage(b)|;
    }
  }

  /**
   * The body written for a failure: its kind's fixed message, with
   * `failed.toString()` as the developer message, which starts with the
   * exception's class name; ERROR and SNACKBAR as defaults.
   */
  function FailureBody(failed: AuthException): (body: ErrorResponse)
    ensures body.errorMessage == FailureMessage(failed)
    ensures body.developerMessage == Some(failed.ToString())
    ensures |body.developerMessage.value| >= |failed.ClassName()|
            && body.developerMessage.value[..|failed.ClassName()|] == failed.ClassName()
    ensures body.validationType == Some(ERROR) && body.showAs == Some(SNACKBAR)
  {
    NewErrorResponse(FailureMessage(failed), Some(failed.ToString()))
  }

  /** The servlet response, as far as the filter touches it. Bodies are kept as values; JSON serialisation is not modelled. */
  class HttpResponse {
    var headers: seq<(string, string)>
    var status: int
    var contentType: Option<string>
    var written: seq<ErrorResponse>
    var flushed: bool

    constructor ()
      ensures headers == [] && status == 200 && contentType == None && written == [] && !flushed
    {
      headers := [];
      status := 200;
      contentType := None;
      written := [];
      flushed := false;
    }

    /** `addHeader`. */
    method AddHeader(name: string, value: string)
      modifies this`headers
      ensures headers == old(headers) + [(name, value)]
    {
      headers := headers + [(name, value)];
    }

    /** `status = ...`. */
    method SetStatus(code: int)
      modifies this`status
      ensures status == code
    {
      status := code;
    }

    /** `contentType = ...`. */
    method SetContentType(value: string)
      modifies this`contentType
      ensures contentType == Some(value)
    {
      contentType := Some(value);
    }

    /** `writer.write(...)`. */
    method Write(body: ErrorResponse)
      modifies this`written
      ensures written == old(written) + [body]
    {
      written := written + [body];
    }

    /** `flushBuffer()`. */
    method FlushBuffer()
      modifies this`flushed
      ensures flushed
    {
      flushed := true;
    }
  }

  /** `successfulAuthentication`: add the token for the principal and its first authority as the Authorization header. */
  method SuccessfulAuthentication(response: HttpResponse, jwt: (string, string) -> string, authResult: Authentication)
    requires |authResult.authorities| > 0
    modifies response
    ensures response.headers == old(response.headers)
                                + [(AuthorizationHeader, jwt(authResult.principal, authResult.authorities[0]))]
    ensures response.status == old(response.status) && response.contentType == old(response.contentType)
    ensures response.written == old(response.written) && response.flushed == old(response.flushed)
  {
    var token := jwt(authResult.principal, authResult.authorities[0]);
    response.AddHeader(AuthorizationHeader, token);
  }

  /** The response part of `unsuccessfulAuthentication`: status 401, JSON content type, the body written, the buffer flushed. */
  method SendUnauthorized(response: HttpResponse, body: ErrorResponse)
    modifies response
    ensures response.status == Unauthorized.Value()
    ensures response.contentType == Some(JsonContentType)
    ensures response.written == old(response.written) + [body]
    ensures response.flushed
    ensures response.headers == old(response.headers)
  {
    response.SetStatus(Unauthorized.Value());
    response.SetContentType(JsonContentType);
    response.Write(body);
    response.FlushBuffer();
  }

  /** `unsuccessfulAuthentication`: the body for the kind of failure, sent as a 401 JSON response. */
  method UnsuccessfulAuthentication(response: HttpResponse, failed: AuthException)
    modifies response
    ensures response.status == Unauthorized.Value()
    ensures response.contentType == Some(JsonContentType)
    ensures response.written == old(response.written) + [FailureBody(failed)]
    ensures response.flushed
    ensures response.headers == old(response.headers)
  {
    var body := FailureBody(failed);
    SendUnauthorized(response, body);
  }

  /**
   * One login attempt: the credentials taken from the request are handed to
   * the manager, and its outcome goes to the success or the failure hook.
   */
  method AttemptAuthentication(response: HttpResponse, store: Store, matches: (string, string) -> bool,
                               jwt: (string, string) -> string, email: string, password: string)
    requires StoreValid(store)
    modifies response
    ensures var outcome := Authenticate(store, matches, email, password);
            match outcome
            case Success(a) =>
              && |a.authorities| == 1
              && response.headers == old(response.headers) + [(AuthorizationHeader, jwt(a.principal, a.authorities[0]))]
              && response.written == old(response.written) && response.status == old(response.status)
              && response.contentType == old(response.contentType) && response.flushed == old(response.flushed)
            case Failure(failed) =>
              && response.status == Unauthorized.Value() && response.contentType == Some(JsonContentType)
              && response.written == old(response.written) + [FailureBody(failed)]
              && response.headers == old(response.headers) && response.flushed
  {
    var outcome := Authenticate(store, matches, email, password);
    match outcome {
      case Success(a) =>
        assert |a.authorities| == 1 by {
          var id :| HasEmail(store, id, email);
        }
        SuccessfulAuthentication(response, jwt, a);
      case Failure(failed) =>
        UnsuccessfulAuthentication(response, failed);
    }
  }

  /**
   * What a failed login writes, by cause: an unknown email and a wrong
   * password give different exceptions and different user messages, so a
   * caller can tell whether an account exists for an email.
   */
  lemma LoginFailureBodies(store: Store, matches: (string, string) -> bool, email: string, password: string)
    requires StoreValid(store)
    ensures var r := Authenticate(store, matches, email, password);
            !ExistsByEmailIgnoreCase(store, email) ==>
              && r == Failure(UsernameNotFound(Some("User with email=" + email + " not found")))
              && FailureBody(r.error) == NewErrorResponse(UserNotFoundMessage, Some(r.error.ToString()))
    ensures var r := Authenticate(store, matches, email, password);
            (ExistsByEmailIgnoreCase(store, email) && r.Failure?) ==>
              && r.error == BadCredentials(Some("Invalid password"))
              && FailureBody(r.error) == NewErrorResponse(BadCredentialsMessage, Some(r.error.ToString()))
    ensures UserNotFoundMessage != BadCredentialsMessage
  {
    if ExistsByEmailIgnoreCase(store, email) {
      var id :| HasEmail(store, id, email);
    }
    assert |UserNotFoundMessage| != |BadCredentialsMessage|;
  }

  /** On success the token is generated for the user's id and its role name. */
  lemma SuccessTokenSubjectAndRole(store: Store, matches: (string, string) -> bool, email: string, password: string,
                                   id: string)
    requires StoreValid(store)
    requires HasEmail(store, id, email) && matches(password, store[id].password)
    ensures var r := Authenticate(store, matches, email, password);
            r.Success? && |r.value.authorities| > 0
            && r.value.principal == id && r.value.authorities[0] == store[id].role.Name()
            && RoleValueOf(r.value.authorities[0]) == Some(store[id].role)
  {
    RoleNameRoundTrip(store[id].role);
  }
}
