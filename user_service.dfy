/**
 * The user service: registration, queries, profile updates and the two
 * password operations over the user store
 * (src/main/kotlin/tripeco/auth/service/UserService.kt).
 *
 * The store, the log of `newUser` notifications and the number of BCrypt salts
 * drawn so far are the fields of `UserService`. BCrypt is two function
 * values: `encode(password, k)` is the hash made with the k-th salt drawn,
 * and `matches(raw, hash)` is left uninterpreted. The id MongoDB assigns on
 * the first save and the id the `UserIdProvider` reads from the request
 * header are inputs.
 */
module Users {
  import opened Wrappers
  import opened Text
  import opened Errors
  import opened Model
  import opened Passwords
  import opened Repository
  import opened AuthenticationManager

  // ----- Requests, responses and notifications -----

  datatype RegisterUserRequest = RegisterUserRequest(
    firstName: string, lastName: string, email: string,
    phoneCode: string, address: string, zipCode: string, role: Role)

  datatype UserResponse = UserResponse(
    id: string, email: string, firstName: string, lastName: string,
    phoneCode: string, address: string, zipCode: string, role: Role)

  datatype UserCurrent = UserCurrent(id: string, email: string, firstName: string, lastName: string, role: Role)

  /** Every field may be null, meaning "leave as it is". Email and password cannot be updated this way. */
  datatype UpdateUserRequest = UpdateUserRequest(
    firstName: Option<string>, lastName: Option<string>, phoneCode: Option<string>,
    address: Option<string>, zipCode: Option<string>, role: Option<Role>)

  datatype ChangePasswordRequest = ChangePasswordRequest(oldPassword: string, newPassword: string)

  /**
   * A call `emailService.newUser(user, password)`: the saved user and the
   * plaintext password handed to the e-mail service, which decides by its own
   * configuration whether a mail is sent.
   */
  datatype Notification = NewUser(user: User, password: string)

  // ----- The service's exceptions -----

  const UserNotFoundMessage := "User not found. Try again."
  const EmailInUseMessage := "The email is already in use."
  const OldPasswordIncorrectMessage := "Your old password is incorrect."
  const OldPasswordSentMessage := "Old password sent is incorrect."
  const MissingHeaderMessage := "User Id not found in header"
  const UserIdPrefix := "User with id= "
  const EmailPrefix := "User with email="
  const NotFoundSuffix := " not found"
  const AlreadyExistsSuffix := " already exists"

  /** `UserNotFoundException(id)`: a 404 Validation that names the id. */
  function UserNotFound(id: string): (e: TripecoException)
    ensures e.Validation? && e.status == NotFound && e.status.Value() == 404
    ensures e.errorMessage == UserNotFoundMessage && e.developerMessage.Some?
    ensures var d := e.developerMessage.value;
            |d| == |UserIdPrefix| + |id| + |NotFoundSuffix|
            && d[..|UserIdPrefix|] == UserIdPrefix && d[|UserIdPrefix|..|UserIdPrefix| + |id|] == id
            && d[|UserIdPrefix| + |id|..] == NotFoundSuffix
    ensures e.validationType == Some(ERROR) && e.showAs == Some(SNACKBAR)
  {
    NewValidation(NotFound, UserNotFoundMessage, Some(UserIdPrefix + id + NotFoundSuffix))
  }

  /** What `register` throws for an email already in use: a 422 Validation that names the email. */
  function EmailInUse(email: string): (e: TripecoException)
    ensures e.Validation? && e.status == UnprocessableEntity && e.status.Value() == 422
    ensures e.errorMessage == EmailInUseMessage && e.developerMessage.Some?
    ensures var d := e.developerMessage.value;
            |d| == |EmailPrefix| + |email| + |AlreadyExistsSuffix|
            && d[..|EmailPrefix|] == EmailPrefix && d[|EmailPrefix|..|EmailPrefix| + |email|] == email
            && d[|EmailPrefix| + |email|..] == AlreadyExistsSuffix
    ensures e.validationType == Some(ERROR) && e.showAs == Some(SNACKBAR)
  {
    NewValidation(UnprocessableEntity, EmailInUseMessage, Some(EmailPrefix + email + AlreadyExistsSuffix))
  }

  /** What `changePassword` throws when the old password does not match. */
  function OldPasswordIncorrect(): (e: TripecoException)
    ensures e.Validation? && e.status == BadRequest && e.status.Value() == 400
    ensures e.errorMessage == OldPasswordIncorrectMessage && e.developerMessage == Some(OldPasswordSentMessage)
    ensures e.validationType == Some(ERROR) && e.showAs == Some(SNACKBAR)
  {
    NewValidation(BadRequest, OldPasswordIncorrectMessage, Some(OldPasswordSentMessage))
  }

  /** What the user-id provider throws when the request carries no user-id header. */
  function MissingUserId(): (e: TripecoException)
    ensures e.Validation? && e.status == BadRequest && e.errorMessage == GenericErrorMessage
    ensures e.developerMessage == Some(MissingHeaderMessage)
    ensures e.validationType == Some(ERROR) && e.showAs == Some(SNACKBAR)
  {
    NewValidation(BadRequest, GenericErrorMessage, Some(MissingHeaderMessage))
  }

  /**
   * The five exceptions a service call can end in are pairwise
   * distinguishable: all ten pairs differ in status, except the two 400s and
   * the two 422s, which differ in their user message.
   */
  lemma ServiceErrorsDistinct(id: string, email: string)
    ensures UserNotFound(id).status != EmailInUse(email).status
    ensures UserNotFound(id).status != OldPasswordIncorrect().status
    ensures UserNotFound(id).status != MissingUserId().status
    ensures UserNotFound(id).status != PasswordTooWeak().status
    ensures EmailInUse(email).status != OldPasswordIncorrect().status
    ensures EmailInUse(email).status != MissingUserId().status
    ensures OldPasswordIncorrect().status != PasswordTooWeak().status
    ensures MissingUserId().status != PasswordTooWeak().status
    ensures OldPasswordIncorrect().status == MissingUserId().status
    ensures OldPasswordIncorrect().errorMessage != MissingUserId().errorMessage
    ensures PasswordTooWeak().status == EmailInUse(email).status
    ensures PasswordTooWeak().errorMessage != EmailInUse(email).errorMessage
  {
    assert |OldPasswordIncorrectMessage| != |GenericErrorMessage|;
    assert |PasswordTooWeak().errorMessage| != |EmailInUseMessage|;
  }

  /** A Validation as the error handler answers it: its own status and messages, type ERROR, shown as a snackbar. */
  predicate AnsweredAsIs(e: TripecoException)
    requires e.Validation?
  {
    Handle(Tripeco(e))
    == ResponseEntity(ErrorResponse(e.errorMessage, e.developerMessage, Some(ERROR), Some(SNACKBAR)), e.status)
  }

  /** Any Validation that kept its defaults is answered as is. */
  lemma DefaultsAnsweredAsIs(e: TripecoException)
    requires e.Validation? && e.validationType == Some(ERROR) && e.showAs == Some(SNACKBAR)
    ensures AnsweredAsIs(e)
  {
  }

  /** Each exception the service throws reaches the client unchanged, with the Validation defaults. */
  lemma ServiceErrorsReachClient(id: string, email: string)
    ensures AnsweredAsIs(UserNotFound(id)) && AnsweredAsIs(EmailInUse(email))
    ensures AnsweredAsIs(OldPasswordIncorrect()) && AnsweredAsIs(MissingUserId()) && AnsweredAsIs(PasswordTooWeak())
  {
    DefaultsAnsweredAsIs(UserNotFound(id));
    DefaultsAnsweredAsIs(EmailInUse(email));
    DefaultsAnsweredAsIs(OldPasswordIncorrect());
    DefaultsAnsweredAsIs(MissingUserId());
    DefaultsAnsweredAsIs(PasswordTooWeak());
  }

  // ----- Mapping stored users to responses -----

  /**
   * `User.toResponse()`: every field but the password (`id!!` demands a
   * saved user), so the user is recovered from the response and its password.
   */
  function ToResponse(u: User): (r: UserResponse)
    requires u.id.Some?
    ensures User(Some(r.id), r.firstName, r.lastName, r.email, u.password, r.phoneCode, r.address, r.zipCode, r.role) == u
  {
    UserResponse(u.id.value, u.email, u.firstName, u.lastName, u.phoneCode, u.address, u.zipCode, u.role)
  }

  /** `User.toCurrent()`: the response without the phone code, address and zip code. */
  function ToCurrent(u: User): (c: UserCurrent)
    requires u.id.Some?
    ensures var r := ToResponse(u);
            c == UserCurrent(r.id, r.email, r.firstName, r.lastName, r.role)
  {
    UserCurrent(u.id.value, u.email, u.firstName, u.lastName, u.role)
  }

  /**
   * The response carries everything but the password: two saved users have
   * the same response exactly when they differ at most in the password.
   */
  lemma ResponseHidesOnlyPassword(u: User, v: User)
    requires u.id.Some? && v.id.Some?
    ensures ToResponse(u) == ToResponse(v) <==> u.(password := v.password) == v
  {
    if ToResponse(u) == ToResponse(v) {
      assert u.id == v.id;
    }
  }

  /** Users with the same response have the same current-user view: `toCurrent` reveals nothing more. */
  lemma CurrentIsProjectionOfResponse(u: User)
    requires u.id.Some?
    ensures forall v: User :: v.id.Some? && ToResponse(v) == ToResponse(u) ==> ToCurrent(v) == ToCurrent(u)
  {
  }

  // ----- Queries -----

  /** `findById`: the stored user's response, or UserNotFoundException. */
  function FindById(store: Store, id: string): (r: Result<UserResponse, TripecoException>)
    requires IdsMatchKeys(store)
    ensures r.Success? <==> id in store
    ensures r.Success? ==> r.value == ToResponse(store[id]) && r.value.id == id
    ensures r.Failure? ==> r.error == UserNotFound(id)
  {
    match Repository.FindById(store, id)
    case Some(u) => Success(ToResponse(u))
    case None => Failure(UserNotFound(id))
  }

  /** `findAll` (repository order is not modelled, so the list is a set). */
  function FindAll(store: Store): (r: set<UserResponse>)
    requires IdsMatchKeys(store)
    ensures forall x :: x in r <==> x.id in store && x == ToResponse(store[x.id])
  {
    set id | id in store :: ToResponse(store[id])
  }

  /** `findByRole`: the responses of the stored users that have the role. */
  function FindByRole(store: Store, role: Role): (r: set<UserResponse>)
    requires IdsMatchKeys(store)
    ensures forall x :: x in r <==> x.id in store && x == ToResponse(store[x.id]) && store[x.id].role == role
  {
    set id | id in store && store[id].role == role :: ToResponse(store[id])
  }

  /** Every stored user has exactly one of the two roles, so the two role queries split `findAll`. */
  lemma RolesPartitionFindAll(store: Store)
    requires IdsMatchKeys(store)
    ensures FindByRole(store, ADMIN) + FindByRole(store, USER) == FindAll(store)
    ensures FindByRole(store, ADMIN) * FindByRole(store, USER) == {}
  {
    assert forall x :: x in FindAll(store) ==> x.role == ADMIN || x.role == USER;
  }

  /** A successful `findById` is one of the responses of `findAll`, and every response of `findAll` is found by its id. */
  lemma FindByIdAgreesWithFindAll(store: Store, id: string)
    requires IdsMatchKeys(store)
    ensures FindById(store, id).Success? ==> FindById(store, id).value in FindAll(store)
    ensures forall x :: x in FindAll(store) ==> FindById(store, x.id) == Success(x)
  {
  }

  /** `getCurrent`: the user whose id the request header carries. */
  function GetCurrent(store: Store, currentUserId: Option<string>): (r: Result<User, TripecoException>)
    ensures currentUserId.None? ==> r == Failure(MissingUserId())
    ensures currentUserId.Some? && currentUserId.value !in store ==> r == Failure(UserNotFound(currentUserId.value))
    ensures currentUserId.Some? && currentUserId.value in store ==> r == Success(store[currentUserId.value])
  {
    match currentUserId
    case None => Failure(MissingUserId())
    case Some(id) => if id in store then Success(store[id]) else Failure(UserNotFound(id))
  }

  /** `getCurrentResponse`. */
  function GetCurrentResponse(store: Store, currentUserId: Option<string>): (r: Result<UserCurrent, TripecoException>)
    requires IdsMatchKeys(store)
    ensures r.Success? <==> GetCurrent(store, currentUserId).Success?
    ensures r.Success? ==> r.value == ToCurrent(GetCurrent(store, currentUserId).value)
                           && r.value.id == currentUserId.value
    ensures r.Failure? ==> r.error == GetCurrent(store, currentUserId).error
  {
    match GetCurrent(store, currentUserId)
    case Success(u) => Success(ToCurrent(u))
    case Failure(e) => Failure(e)
  }

  // ----- Partial update -----

  /** The user `update` saves: each non-null request field replaces the stored one; id, email and password stay. */
  function Merge(u: User, request: UpdateUserRequest): (m: User)
    ensures m.id == u.id && m.email == u.email && m.password == u.password
  {
    u.(firstName := request.firstName.GetOr(u.firstName),
       lastName := request.lastName.GetOr(u.lastName),
       phoneCode := request.phoneCode.GetOr(u.phoneCode),
       address := request.address.GetOr(u.address),
       zipCode := request.zipCode.GetOr(u.zipCode),
       role := request.role.GetOr(u.role))
  }

  const EmptyUpdate := UpdateUserRequest(None, None, None, None, None, None)

  /** Two requests applied one after the other: the later non-null fields win. */
  function Then(first: UpdateUserRequest, second: UpdateUserRequest): UpdateUserRequest {
    UpdateUserRequest(
      if second.firstName.Some? then second.firstName else first.firstName,
      if second.lastName.Some? then second.lastName else first.lastName,
      if second.phoneCode.Some? then second.phoneCode else first.phoneCode,
      if second.address.Some? then second.address else first.address,
      if second.zipCode.Some? then second.zipCode else first.zipCode,
      if second.role.Some? then second.role else first.role)
  }

  /**
   * What a merge changes: a null field keeps the stored value and a
   * non-null one replaces it.
   */
  lemma MergeFields(u: User, request: UpdateUserRequest)
    ensures var m := Merge(u, request);
            && (request.firstName.None? ==> m.firstName == u.firstName)
            && (request.firstName.Some? ==> m.firstName == request.firstName.value)
            && (request.lastName.None? ==> m.lastName == u.lastName)
            && (request.lastName.Some? ==> m.lastName == request.lastName.value)
            && (request.phoneCode.None? ==> m.phoneCode == u.phoneCode)
            && (request.phoneCode.Some? ==> m.phoneCode == request.phoneCode.value)
            && (request.address.None? ==> m.address == u.address)
            && (request.address.Some? ==> m.address == request.address.value)
            && (request.zipCode.None? ==> m.zipCode == u.zipCode)
            && (request.zipCode.Some? ==> m.zipCode == request.zipCode.value)
            && (request.role.None? ==> m.role == u.role)
            && (request.role.Some? ==> m.role == request.role.value)
  {
  }

  /** An all-null request changes nothing, and applying the same request twice is the same as once. */
  lemma MergeIdentityAndIdempotence(u: User, request: UpdateUserRequest)
    ensures Merge(u, EmptyUpdate) == u
    ensures Merge(Merge(u, request), request) == Merge(u, request)
  {
  }

  /** Two updates in a row are one update with the later request's non-null fields on top. */
  lemma MergeThen(u: User, first: UpdateUserRequest, second: UpdateUserRequest)
    ensures Merge(Merge(u, first), second) == Merge(u, Then(first, second))
  {
  }

  /** A merge keeps the store valid: id and email, the two things the invariant is about, are untouched. */
  lemma MergeKeepsValid(store: Store, id: string, request: UpdateUserRequest)
    requires StoreValid(store) && id in store
    ensures StoreValid(store[id := Merge(store[id], request)])
  {
    ReplaceKeepsValid(store, id, Merge(store[id], request));
  }

  // ----- Register and change-password decisions -----

  /** The user `register` saves: the request's fields, the hash of the generated password, the assigned id. */
  function Registered(request: RegisterUserRequest, id: string, hash: string): (u: User)
    ensures u.id == Some(id) && u.email == request.email && u.password == hash && u.role == request.role
    ensures ToResponse(u) == UserResponse(id, request.email, request.firstName, request.lastName,
                                          request.phoneCode, request.address, request.zipCode, request.role)
  {
    User(Some(id), request.firstName, request.lastName, request.email, hash,
         request.phoneCode, request.address, request.zipCode, request.role)
  }

  /**
   * The first check `changePassword` fails, in its order: the new password's
   * strength, then the user-id header, then the lookup, then the old
   * password against the stored hash; `Pass` when all four hold.
   */
  function ChangePasswordCheck(passwords: PasswordService, matches: (string, string) -> bool, store: Store,
                               currentUserId: Option<string>, request: ChangePasswordRequest)
    : (r: Outcome<TripecoException>)
    ensures r == Pass <==>
              && passwords.passwordRegex(request.newPassword)
              && currentUserId.Some? && currentUserId.value in store
              && matches(request.oldPassword, store[currentUserId.value].password)
  {
    match passwords.Validate(request.newPassword)
    case Fail(e) => Fail(e)
    case Pass =>
      match GetCurrent(store, currentUserId)
      case Failure(e) => Fail(e)
      case Success(user) =>
        if matches(request.oldPassword, user.password) then Pass else Fail(OldPasswordIncorrect())
  }

  /**
   * The strength check comes first: a weak new password is rejected with
   * PasswordTooWeak whatever the store, the header and the old password.
   */
  lemma WeakPasswordRejectedFirst(passwords: PasswordService, matches: (string, string) -> bool, store: Store,
                                  currentUserId: Option<string>, request: ChangePasswordRequest)
    requires !passwords.passwordRegex(request.newPassword)
    ensures ChangePasswordCheck(passwords, matches, store, currentUserId, request) == Fail(PasswordTooWeak())
  {
  }

  /** With a strong new password, the failure is the header's, then the lookup's, then the old password's. */
  lemma ChangePasswordFailureOrder(passwords: PasswordService, matches: (string, string) -> bool, store: Store,
                                   currentUserId: Option<string>, request: ChangePasswordRequest)
    requires passwords.passwordRegex(request.newPassword)
    ensures currentUserId.None? ==>
              ChangePasswordCheck(passwords, matches, store, currentUserId, request) == Fail(MissingUserId())
    ensures currentUserId.Some? && currentUserId.value !in store ==>
              ChangePasswordCheck(passwords, matches, store, currentUserId, request)
              == Fail(UserNotFound(currentUserId.value))
    ensures currentUserId.Some? && currentUserId.value in store
            && !matches(request.oldPassword, store[currentUserId.value].password) ==>
              ChangePasswordCheck(passwords, matches, store, currentUserId, request) == Fail(OldPasswordIncorrect())
  {
  }

  // ----- Hashes and logging in -----

  /** The hashes BCrypt makes are checked by BCrypt: the password hashed with any salt matches its hash. */
  ghost predicate SoundEncoder(encode: (string, nat) -> string, matches: (string, string) -> bool) {
    forall p, k :: matches(p, encode(p, k))
  }

  /**
   * A freshly registered user can log in with the password it was notified of, and the
   * token names the new id and the requested role.
   */
  lemma RegisteredUserCanLogIn(store: Store, matches: (string, string) -> bool, request: RegisterUserRequest,
                               id: string, password: string, hash: string)
    requires StoreValid(store) && id !in store && !ExistsByEmailIgnoreCase(store, request.email)
    requires matches(password, hash)
    ensures StoreValid(store[id := Registered(request, id, hash)])
    ensures Authenticate(store[id := Registered(request, id, hash)], matches, request.email, password)
            == Success(Authentication(id, hash, [request.role.Name()]))
  {
    var s := store[id := Registered(request, id, hash)];
    InsertKeepsValid(store, id, Registered(request, id, hash));
    EqualsIgnoreCaseIsEquivalence(request.email, request.email, request.email);
    assert HasEmail(s, id, request.email);
  }

  /**
   * After a password change the new password logs in; the old one no longer
   * does unless it also matches the new hash.
   */
  lemma ChangedPasswordLogsIn(store: Store, matches: (string, string) -> bool, id: string,
                              oldPassword: string, newPassword: string, hash: string)
    requires StoreValid(store) && id in store
    requires matches(newPassword, hash)
    ensures StoreValid(store[id := store[id].(password := hash)])
    ensures Authenticate(store[id := store[id].(password := hash)], matches, store[id].email, newPassword).Success?
    ensures !matches(oldPassword, hash) ==>
              Authenticate(store[id := store[id].(password := hash)], matches, store[id].email, oldPassword)
              == Failure(InvalidPassword())
  {
    var s := store[id := store[id].(password := hash)];
    ReplaceKeepsValid(store, id, store[id].(password := hash));
    EqualsIgnoreCaseIsEquivalence(store[id].email, store[id].email, store[id].email);
    assert HasEmail(s, id, store[id].email);
  }

  // ----- The service -----

  /** `UserService` with its repository, encoder, e-mail service and password service. */
  class UserService {
    var store: Store
    var notifications: seq<Notification>
    var salts: nat
    const passwords: PasswordService
    const encode: (string, nat) -> string
    const matches: (string, string) -> bool

    ghost predicate Valid()
      reads this
    {
      StoreValid(store)
    }

    constructor (passwords: PasswordService, encode: (string, nat) -> string, matches: (string, string) -> bool,
                 initial: Store)
      requires StoreValid(initial)
      ensures Valid()
      ensures this.passwords == passwords && this.encode == encode && this.matches == matches
      ensures store == initial && notifications == [] && salts == 0
    {
      this.passwords := passwords;
      this.encode := encode;
      this.matches := matches;
      store := initial;
      notifications := [];
      salts := 0;
    }

    /** `encoder.encode(password)`: draws the next salt. */
    method Encode(password: string) returns (hash: string)
      modifies this`salts
      ensures hash == encode(password, old(salts)) && salts == old(salts) + 1
    {
      hash := encode(password, salts);
      salts := salts + 1;
    }

    /**
     * `register`. An email already in use, ignoring case, is rejected and
     * nothing changes. Otherwise the generated password is hashed, the user is
     * saved under the id the database assigns, and the plaintext password is
     * handed to the e-mail service with the saved user.
     */
    method Register(request: RegisterUserRequest, assignedId: string) returns (r: Result<UserResponse, TripecoException>)
      requires Valid() && assignedId !in store
      modifies this
      ensures Valid()
      ensures ExistsByEmailIgnoreCase(old(store), request.email) ==>
                && r == Failure(EmailInUse(request.email))
                && store == old(store) && notifications == old(notifications) && salts == old(salts)
      ensures !ExistsByEmailIgnoreCase(old(store), request.email) ==>
                var u := Registered(request, assignedId, encode(passwords.Generate(), old(salts)));
                && store == old(store)[assignedId := u]
                && notifications == old(notifications) + [NewUser(u, passwords.Generate())]
                && salts == old(salts) + 1
                && r == Success(ToResponse(u))
    {
      if ExistsByEmailIgnoreCase(store, request.email) {
        return Failure(EmailInUse(request.email));
      }
      var password := passwords.Generate();
      var hash := Encode(password);
      var user := Registered(request, assignedId, hash);
      InsertKeepsValid(store, assignedId, user);
      store := store[assignedId := user];
      notifications := notifications + [NewUser(user, password)];
      r := Success(ToResponse(user));
    }

    /** `delete`: removes the id; an absent id is a no-op. */
    method Delete(id: string)
      requires Valid()
      modifies this`store
      ensures Valid()
      ensures store == old(store) - {id}
    {
      RemoveKeepsValid(store, id);
      store := store - {id};
    }

    /** `update`: the stored user with the request's non-null fields written over it, saved, as a response. */
    method Update(id: string, request: UpdateUserRequest) returns (r: Result<UserResponse, TripecoException>)
      requires Valid()
      modifies this`store
      ensures Valid()
      ensures id !in old(store) ==> r == Failure(UserNotFound(id)) && store == old(store)
      ensures id in old(store) ==>
                && store == old(store)[id := Merge(old(store)[id], request)]
                && r == Success(ToResponse(store[id]))
    {
      if id !in store {
        return Failure(UserNotFound(id));
      }
      var user := store[id];
      if request.firstName.Some? { user := user.(firstName := request.firstName.value); }
      if request.lastName.Some? { user := user.(lastName := request.lastName.value); }
      if request.phoneCode.Some? { user := user.(phoneCode := request.phoneCode.value); }
      if request.address.Some? { user := user.(address := request.address.value); }
      if request.zipCode.Some? { user := user.(zipCode := request.zipCode.value); }
      if request.role.Some? { user := user.(role := request.role.value); }
      assert user == Merge(store[id], request);
      MergeKeepsValid(store, id, request);
      store := store[id := user];
      r := Success(ToResponse(user));
    }

    /**
     * `changePassword` for the user the header names: on `Pass` only that
     * user's password changes, to the hash of the new password; on any
     * failure nothing changes and no salt is drawn.
     */
    method ChangePassword(currentUserId: Option<string>, request: ChangePasswordRequest)
      returns (r: Outcome<TripecoException>)
      requires Valid()
      modifies this`store, this`salts
      ensures Valid()
      ensures r == ChangePasswordCheck(passwords, matches, old(store), currentUserId, request)
      ensures r != Pass ==> store == old(store) && salts == old(salts)
      ensures r == Pass ==>
                var id := currentUserId.value;
                && store == old(store)[id := old(store)[id].(password := encode(request.newPassword, old(salts)))]
                && salts == old(salts) + 1
    {
      var validated := passwords.Validate(request.newPassword);
      if validated.Fail? {
        return validated;
      }
      var current := GetCurrent(store, currentUserId);
      if current.Failure? {
        return Fail(current.error);
      }
      var id := currentUserId.value;
      var user := current.value;
      if !matches(request.oldPassword, user.password) {
        return Fail(OldPasswordIncorrect());
      }
      var hash := Encode(request.newPassword);
      user := user.(password := hash);
      ReplaceKeepsValid(store, id, user);
      store := store[id := user];
      r := Pass;
    }

    /**
     * `resendPassword`: a new generated password, hashed and saved, and handed
     * to the e-mail service with the user; an absent id throws UserNotFound
     * with nothing saved or notified.
     */
    method ResendPassword(id: string) returns (r: Outcome<TripecoException>)
      requires Valid()
      modifies this
      ensures Valid()
      ensures id !in old(store) ==>
                && r == Fail(UserNotFound(id))
                && store == old(store) && notifications == old(notifications) && salts == old(salts)
      ensures id in old(store) ==>
                var u := old(store)[id].(password := encode(passwords.Generate(), old(salts)));
                && r == Pass
                && store == old(store)[id := u]
                && notifications == old(notifications) + [NewUser(u, passwords.Generate())]
                && salts == old(salts) + 1
    {
      if id !in store {
        return Fail(UserNotFound(id));
      }
      var user := store[id];
      var password := passwords.Generate();
      var hash := Encode(password);
      user := user.(password := hash);
      ReplaceKeepsValid(store, id, user);
      store := store[id := user];
      notifications := notifications + [NewUser(user, password)];
      r := Pass;
    }
  }

  /**
   * A client's first steps: registering a fresh email lets its owner log in
   * with the password it was notified of, and a second registration of the
   * same email in any casing is then rejected without saving or notifying.
   */
  method RegisterTwice(svc: UserService, request: RegisterUserRequest, again: RegisterUserRequest,
                       id1: string, id2: string)
      returns (first: Result<UserResponse, TripecoException>, second: Result<UserResponse, TripecoException>)
    requires svc.Valid() && id1 !in svc.store && id2 !in svc.store && id1 != id2
    requires !ExistsByEmailIgnoreCase(svc.store, request.email)
    requires EqualsIgnoreCase(request.email, again.email)
    requires SoundEncoder(svc.encode, svc.matches)
    modifies svc
    ensures svc.Valid()
    ensures first.Success? && first.value.id == id1
    ensures Authenticate(svc.store, svc.matches, request.email, svc.passwords.Generate()).Success?
    ensures second == Failure(EmailInUse(again.email))
    ensures |svc.store| == |old(svc.store)| + 1 && |svc.notifications| == |old(svc.notifications)| + 1
  {
    first := svc.Register(request, id1);
    var u := svc.store[id1];
    RegisteredUserCanLogIn(old(svc.store), svc.matches, request, id1, svc.passwords.Generate(), u.password);
    assert HasEmail(svc.store, id1, again.email) by {
      EqualsIgnoreCaseIsEquivalence(u.email, request.email, again.email);
    }
    second := svc.Register(again, id2);
  }
}
