# tripeco-auth credential lifecycle, modelled in Dafny

tripeco-auth is a Spring/Kotlin identity service. It covers:

- registering users and handing their generated password to the e-mail service;
- looking users up, updating their profiles, changing and resending passwords;
- logging users in with email and password, answered with a JWT in the `Authorization` header;
- turning every exception into a JSON error response.

This project models that core as Dafny values and a single-threaded state
machine, and proves what each operation promises.

- `UserService` is a class. Its fields are the user store (a
  `map<string, User>` keyed by id), the log of `newUser` notifications, and the
  number of BCrypt salts drawn so far.
- It keeps the store invariant `StoreValid`:
  - every user is stored under its own id;
  - no two users share an email, ignoring ASCII case.
- Every state change states the complete new state:
  - a failure leaves everything unchanged;
  - a success changes the store only at the user concerned, appends the
    notification the source sends, and uses one salt per hash.
- The authentication manager, the password service, the role enum and the
  error handler's three constructors are pure functions.
- The login filter writes into an `HttpResponse` object.
- The error handler collects field errors into a map with a loop, like the source.

Inputs the model does not compute:

- BCrypt is two function values:
  - `encode(password, k)` is the hash made with the k-th salt drawn;
  - `matches(raw, hash)` is uninterpreted.
- `JwtService.generate` is a function value `jwt(subject, role)`.
- `register` takes the id MongoDB assigns on the first save as a fresh input.
- The user id the `UserIdProvider` reads from the request header is an
  `Option<string>`; `None` is a missing header.
- The configured password regex is the set of strings it matches in full
  (`string -> bool`). The regex the repository's tests configure,
  `^(?=.*?[A-Z])(?=.*?[a-z])(?=.*?[^\w\s]).{8,}$`, is written out as the
  predicate `Passwords.TestRegex` with `java.util.regex` semantics: `.` does
  not match line terminators, `\w` is `[a-zA-Z_0-9]`, and `\s` is `[ \t\n\x0B\f\r]`.

Files, one module each: `wrappers.dfy` (Option/Result/Outcome), `text.dfy`
(ASCII lower case, for the repository's case-insensitive email queries), `errors.dfy`, `model.dfy`,
`passwords.dfy`, `repository.dfy`, `authentication_manager.dfy`,
`authentication_filter.dfy` and `user_service.dfy`.

In production `generate` returns the fixed placeholder
`"CHANGE THIS TO RAMDOM STRING REGEX"` (PasswordService.kt:16). The
placeholder's own text, and the constant `PASSWORD_LENGTH = 8`
(PasswordService.kt:8) that nothing uses, suggest a random password was
intended. The model follows the code.
`Passwords.GeneratedPasswordsAreWeak` shows that neither value `generate` can
return passes the test regex.

## Model

| member | source | states |
|---|---|---|
| Text.LowerChar | src/main/kotlin/tripeco/auth/repository/UserRepository.kt:9-11 | ASCII lower case of one character: upper-case letters move up by 32 code points, every other character is unchanged, and no upper-case letter remains |
| Text.Lower | src/main/kotlin/tripeco/auth/repository/UserRepository.kt:9-11 | lower-cases a string character by character: same length, no upper-case letter left, other characters kept |
| Text.LowerIdempotent | src/main/kotlin/tripeco/auth/repository/UserRepository.kt:9-11 | lower-casing twice is lower-casing once |
| Text.EqualsIgnoreCaseLower | src/main/kotlin/tripeco/auth/repository/UserRepository.kt:9-11 | a string equals its lower-cased form, ignoring case |
| Text.EqualsIgnoreCaseIsEquivalence | src/main/kotlin/tripeco/auth/repository/UserRepository.kt:9-11 | comparison ignoring case is reflexive, symmetric and transitive |
| Text.MixedCaseEmailsAreEqual | src/main/kotlin/tripeco/auth/repository/UserRepository.kt:9-11 | "Ab@c" and "aB@C" are the same email ignoring case; "ab@c" and "ab@d" are not |
| Errors.HttpStatus.Value | src/main/kotlin/tripeco/auth/error/ErrorHandler.kt:21-33 | every status the core uses is an error code 400..599, and only INTERNAL_SERVER_ERROR is 5xx |
| Errors.NewValidation | src/main/kotlin/tripeco/auth/error/ErrorHandler.kt:56-61 | a `Validation` built without the optional arguments has no developer message, type ERROR and showAs SNACKBAR |
| Errors.NewErrorResponse | src/main/kotlin/tripeco/auth/error/ErrorHandler.kt:69-74 | an `ErrorResponse` built with two arguments has type ERROR and showAs SNACKBAR |
| Errors.HandleValidationException | src/main/kotlin/tripeco/auth/error/ErrorHandler.kt:21-23 | the response copies the exception's status, both messages, type and showAs |
| Errors.HandleUnexpectedException | src/main/kotlin/tripeco/auth/error/ErrorHandler.kt:25-27 | the response keeps the exception's status and message, with the cause's string as developer message |
| Errors.HandleGenericException | src/main/kotlin/tripeco/auth/error/ErrorHandler.kt:29-33 | any other exception gives 500 with "Unable to process your request, please try again." and its string as developer message |
| Errors.Handle | src/main/kotlin/tripeco/auth/error/ErrorHandler.kt:21-51 | dispatch to the most specific handler: a Tripeco Validation keeps its status, both messages, type and showAs; a Tripeco Unexpected keeps status and message, with its cause as developer message and ERROR/SNACKBAR; a `MethodArgumentNotValidException` gets 422, the generic message, the rendered field errors and ERROR/SNACKBAR; any other `RuntimeException` gets 500, the generic message, its `toString()` and ERROR/SNACKBAR |
| Errors.ValidationDefaultsReachResponse | src/main/kotlin/tripeco/auth/error/ErrorHandler.kt:21-23 | a default-built Validation reaches the client with a null developer message, ERROR and SNACKBAR |
| Errors.LastMessages | src/main/kotlin/tripeco/auth/error/ErrorHandler.kt:39-44 | the map of field messages has exactly one key per distinct field that has an error |
| Errors.LastMessagesMeaning | src/main/kotlin/tripeco/auth/error/ErrorHandler.kt:39-44 | each value of the collected map is the message of the last error for its field |
| Errors.CollectFieldErrors | src/main/kotlin/tripeco/auth/error/ErrorHandler.kt:39-44 | the `forEach` loop that fills the map computes exactly that last-message-per-field map |
| Errors.RenderEntry | src/main/kotlin/tripeco/auth/error/ErrorHandler.kt:45 | " key: value " with a null message rendered as "null"; key and message can be read back at fixed positions |
| Errors.JoinToString | src/main/kotlin/tripeco/auth/error/ErrorHandler.kt:45 | `joinToString()`: empty for no parts, the part itself for one, otherwise starts with the first part and ends with the last |
| Errors.JoinAppend | src/main/kotlin/tripeco/auth/error/ErrorHandler.kt:45 | appending a part appends ", " and the part; with the empty and one-part cases this determines the join completely |
| Errors.JoinLength | src/main/kotlin/tripeco/auth/error/ErrorHandler.kt:45 | the join is exactly as long as its parts plus two characters per ", " separator |
| Errors.JoinContainsParts | src/main/kotlin/tripeco/auth/error/ErrorHandler.kt:45 | `joinToString` keeps every part, unaltered, as a substring of the result |
| Errors.JoinContainsAll | src/main/kotlin/tripeco/auth/error/ErrorHandler.kt:45 | every part at once is a substring of the joined string |
| Errors.Entries | src/main/kotlin/tripeco/auth/error/ErrorHandler.kt:45 | one rendered " key: value " entry per key, in the map's iteration order |
| Errors.FieldErrorsMessage | src/main/kotlin/tripeco/auth/error/ErrorHandler.kt:45 | the developer message is the rendered entries in iteration order joined by ", ", and nothing else: its length is the entries' lengths plus two per separator; it mentions each field with its message as " field: message ", and is empty exactly when there are no field errors |
| Errors.HandleValidationExceptions | src/main/kotlin/tripeco/auth/error/ErrorHandler.kt:36-51 | field errors give 422 with the generic message; the developer message is the rendered last-message map, joined in the map's iteration order; the loop-built response is the one `Handle` gives |
| Errors.LaterFieldErrorWins | src/main/kotlin/tripeco/auth/error/ErrorHandler.kt:41-43 | two errors on the same field leave one entry, holding the later message |
| Model.Role.IsUser | src/main/kotlin/tripeco/auth/model/User.kt:22 | `isUser()` holds exactly for USER |
| Model.Role.IsAdmin | src/main/kotlin/tripeco/auth/model/User.kt:24 | `isAdmin()` holds exactly for ADMIN |
| Model.Role.Name | src/main/kotlin/tripeco/auth/model/User.kt:19-20 | a role's name is "ADMIN" or "USER" |
| Model.RoleValueOf | src/main/kotlin/tripeco/auth/model/User.kt:19-20 | `valueOf` knows exactly the two names |
| Model.ExactlyOneRolePredicate | src/main/kotlin/tripeco/auth/model/User.kt:19-26 | the enum is closed: exactly one of `isUser()` and `isAdmin()` holds |
| Model.RoleNameRoundTrip | src/main/kotlin/tripeco/auth/model/User.kt:19-20 | a role's name reads back as that role, so distinct roles have distinct names |
| Passwords.PasswordTooWeak | src/main/kotlin/tripeco/auth/service/PasswordService.kt:26-28 | a 422 Validation with the two fixed messages and the defaults |
| Passwords.PasswordService.Generate | src/main/kotlin/tripeco/auth/service/PasswordService.kt:9-19 | "12345678" outside production; in production a fixed value different from it |
| Passwords.PasswordService.Validate | src/main/kotlin/tripeco/auth/service/PasswordService.kt:21-23 | passes exactly when the whole password matches the regex, otherwise fails with PasswordTooWeak |
| Passwords.GenerateIgnoresRegex | src/main/kotlin/tripeco/auth/service/PasswordService.kt:15-19 | two services with the same production flag generate the same password, whatever their regexes |
| Passwords.TestRegex | src/test/kotlin/tripeco/auth/service/PasswordServiceTest.kt:7 | the strings the tests' regex matches in full: at least 8 characters, no line terminator, and an upper-case letter, a lower-case letter and a symbol |
| Passwords.TestPolicy | src/main/kotlin/tripeco/auth/service/PasswordService.kt:12-13 | the service configured with the tests' regex accepts exactly the strings of `TestRegex` |
| Passwords.TestRegexExamples | src/main/kotlin/tripeco/auth/service/PasswordService.kt:21-23 | with the tests' regex, "PassWord$" passes and "password" fails with PasswordTooWeak |
| Passwords.WholeStringMustMatch | src/main/kotlin/tripeco/auth/service/PasswordService.kt:21-23 | `matchEntire`: "PassWord$" followed by a line break contains a matching prefix but is rejected |
| Passwords.GeneratedPasswordsAreWeak | src/main/kotlin/tripeco/auth/service/PasswordService.kt:15-19 | under the tests' regex, both values `generate` can return fail validation |
| Repository.FindByEmailIgnoreCase | src/main/kotlin/tripeco/auth/repository/UserRepository.kt:9 | with unique emails: null exactly when no user has the email ignoring case, and otherwise that user |
| Repository.FindById | src/main/kotlin/tripeco/auth/repository/UserRepository.kt:8 | present exactly when the id is stored, holding the stored user |
| Repository.ExistsByEmailIgnoreCase | src/main/kotlin/tripeco/auth/repository/UserRepository.kt:11 | true exactly when some stored user has the email, ignoring case |
| Repository.InsertKeepsValid | src/main/kotlin/tripeco/auth/model/User.kt:8-11 | saving a user under a fresh id whose email nobody has, ignoring case, keeps the store invariant |
| Repository.ReplaceKeepsValid | src/main/kotlin/tripeco/auth/model/User.kt:8-11 | overwriting a user but keeping its id and email keeps the invariant |
| Repository.RemoveKeepsValid | src/main/kotlin/tripeco/auth/model/User.kt:8-11 | deleting keeps the invariant |
| AuthenticationManager.Granted | src/main/kotlin/tripeco/auth/config/TripecoAuthenticationManager.kt:25 | the token's principal is the user id, its credentials the stored hash, and its one authority the role name |
| AuthenticationManager.AuthException.ToString | src/main/kotlin/tripeco/auth/config/TripecoAuthenticationFilter.kt:48-56 | `Throwable.toString()`: starts with the class name; with a message, then exactly ": " and the message; without one, the class name alone |
| AuthenticationManager.UnknownEmail | src/main/kotlin/tripeco/auth/config/TripecoAuthenticationManager.kt:22 | a UsernameNotFound whose message is "User with email=" followed by the email and " not found" |
| AuthenticationManager.InvalidPassword | src/main/kotlin/tripeco/auth/config/TripecoAuthenticationManager.kt:27 | a BadCredentials with the message "Invalid password" |
| AuthenticationManager.Authenticate | src/main/kotlin/tripeco/auth/config/TripecoAuthenticationManager.kt:18-29 | an unknown email fails with UsernameNotFound "User with email=... not found"; a known one succeeds with (id, stored hash, [role name]) when `matches` holds, and otherwise fails with BadCredentials "Invalid password" |
| AuthenticationManager.AuthenticateSucceedsIff | src/main/kotlin/tripeco/auth/config/TripecoAuthenticationManager.kt:21-25 | success exactly when some stored user has the email ignoring case and the password matches its hash |
| AuthenticationManager.LookupPrecedesVerification | src/main/kotlin/tripeco/auth/config/TripecoAuthenticationManager.kt:21-27 | for an unknown email the outcome does not depend on `matches`; it is UsernameNotFound, a different kind from the wrong-password failure |
| AuthenticationManager.AuthenticateIgnoresEmailCase | src/main/kotlin/tripeco/auth/config/TripecoAuthenticationManager.kt:21 | emails that are equal ignoring case succeed or fail alike, and on success give the same token |
| AuthenticationFilter.FailureMessage | src/main/kotlin/tripeco/auth/config/TripecoAuthenticationFilter.kt:48-56 | the fixed user message for each kind of failure: unknown user, disabled, bad credentials, anything else |
| AuthenticationFilter.FailureMessagesDistinct | src/main/kotlin/tripeco/auth/config/TripecoAuthenticationFilter.kt:48-56 | two failures get the same message exactly when they are of the same kind (all "other" kinds share one) |
| AuthenticationFilter.FailureBody | src/main/kotlin/tripeco/auth/config/TripecoAuthenticationFilter.kt:48-56 | the body for a failure: the kind's message and `failed.toString()`, which starts with the exception's class name, with ERROR and SNACKBAR |
| AuthenticationFilter.HttpResponse.AddHeader | src/main/kotlin/tripeco/auth/config/TripecoAuthenticationFilter.kt:41 | appends one header |
| AuthenticationFilter.HttpResponse.SetStatus | src/main/kotlin/tripeco/auth/config/TripecoAuthenticationFilter.kt:57 | sets the status |
| AuthenticationFilter.HttpResponse.SetContentType | src/main/kotlin/tripeco/auth/config/TripecoAuthenticationFilter.kt:58 | sets the content type |
| AuthenticationFilter.HttpResponse.Write | src/main/kotlin/tripeco/auth/config/TripecoAuthenticationFilter.kt:59 | appends one body |
| AuthenticationFilter.HttpResponse.FlushBuffer | src/main/kotlin/tripeco/auth/config/TripecoAuthenticationFilter.kt:60 | marks the response as flushed |
| AuthenticationFilter.SuccessfulAuthentication | src/main/kotlin/tripeco/auth/config/TripecoAuthenticationFilter.kt:36-42 | adds exactly one header, Authorization = jwt(principal, first authority), and changes nothing else |
| AuthenticationFilter.SendUnauthorized | src/main/kotlin/tripeco/auth/config/TripecoAuthenticationFilter.kt:57-60 | status 401, content type application/json, the body written once, the buffer flushed, headers untouched |
| AuthenticationFilter.UnsuccessfulAuthentication | src/main/kotlin/tripeco/auth/config/TripecoAuthenticationFilter.kt:44-61 | every failure is answered 401 as JSON with the kind's message and `failed.toString()` as developer message |
| AuthenticationFilter.AttemptAuthentication | src/main/kotlin/tripeco/auth/config/TripecoAuthenticationFilter.kt:30-61 | a login either adds the Authorization header for the user's id and role and leaves body, status, content type and flush untouched, or writes the 401 JSON failure body, flushes and adds no header |
| AuthenticationFilter.LoginFailureBodies | src/main/kotlin/tripeco/auth/config/TripecoAuthenticationFilter.kt:48-54 | an unknown email and a wrong password produce different exceptions and different user messages |
| AuthenticationFilter.SuccessTokenSubjectAndRole | src/main/kotlin/tripeco/auth/config/TripecoAuthenticationFilter.kt:40 | on success the token's subject is the user's id and its role claim is a role name that reads back as the user's role |
| Users.UserNotFound | src/main/kotlin/tripeco/auth/service/UserService.kt:130-134 | a 404 Validation with "User not found. Try again." and a developer message "User with id= " followed by the id and " not found", with the defaults |
| Users.EmailInUse | src/main/kotlin/tripeco/auth/service/UserService.kt:27-30 | a 422 Validation with "The email is already in use." and a developer message "User with email=" followed by the email and " already exists" |
| Users.OldPasswordIncorrect | src/main/kotlin/tripeco/auth/service/UserService.kt:86-89 | a 400 Validation with "Your old password is incorrect." and "Old password sent is incorrect." |
| Users.MissingUserId | src/main/kotlin/tripeco/auth/controller/provider/HttpRequestUserIdProvider.kt:14-17 | a 400 Validation with the generic message and "User Id not found in header" |
| Users.ServiceErrorsDistinct | src/main/kotlin/tripeco/auth/service/UserService.kt:26-134 | all ten pairs of the five service exceptions are told apart: by status, except the two 400s (old password, missing header) and the two 422s (weak password, email in use), which differ in their user message |
| Users.DefaultsAnsweredAsIs | src/main/kotlin/tripeco/auth/error/ErrorHandler.kt:21-23 | a Validation that kept its defaults reaches the client unchanged |
| Users.ServiceErrorsReachClient | src/main/kotlin/tripeco/auth/error/ErrorHandler.kt:21-23 | each exception the service throws reaches the client with its own status and messages, ERROR and SNACKBAR |
| Users.ToResponse | src/main/kotlin/tripeco/auth/service/UserService.kt:102-105 | the response drops only the password: the user is exactly the response's fields plus its password |
| Users.ToCurrent | src/main/kotlin/tripeco/auth/service/UserService.kt:107 | the current-user view is the response without phone code, address and zip code |
| Users.ResponseHidesOnlyPassword | src/main/kotlin/tripeco/auth/service/UserService.kt:102-105 | `toResponse` drops only the password: two saved users have the same response exactly when they differ at most in the password |
| Users.CurrentIsProjectionOfResponse | src/main/kotlin/tripeco/auth/service/UserService.kt:102-107 | users with the same response have the same current-user view |
| Users.FindById | src/main/kotlin/tripeco/auth/service/UserService.kt:49-50 | the stored user's response when the id is stored, and UserNotFound(id) otherwise |
| Users.FindAll | src/main/kotlin/tripeco/auth/service/UserService.kt:52 | exactly the responses of the stored users |
| Users.FindByRole | src/main/kotlin/tripeco/auth/service/UserService.kt:54 | exactly the responses of the stored users with that role |
| Users.RolesPartitionFindAll | src/main/kotlin/tripeco/auth/service/UserService.kt:52-54 | the ADMIN and USER queries are disjoint and together give `findAll` |
| Users.FindByIdAgreesWithFindAll | src/main/kotlin/tripeco/auth/service/UserService.kt:49-52 | what `findById` finds is in `findAll`, and every response of `findAll` is found by its id |
| Users.GetCurrent | src/main/kotlin/tripeco/auth/service/UserService.kt:56-60 | a missing header fails with the header error, an unknown id with UserNotFound(id), and otherwise the result is the stored user |
| Users.GetCurrentResponse | src/main/kotlin/tripeco/auth/service/UserService.kt:62 | `getCurrent` mapped through `toCurrent`, with the same failures |
| Users.Merge | src/main/kotlin/tripeco/auth/service/UserService.kt:69-75 | an update never changes id, email or password |
| Users.MergeFields | src/main/kotlin/tripeco/auth/service/UserService.kt:70-75 | each null request field keeps the stored value and each non-null one replaces it |
| Users.MergeIdentityAndIdempotence | src/main/kotlin/tripeco/auth/service/UserService.kt:70-75 | an all-null request changes nothing, and applying a request twice equals applying it once |
| Users.MergeThen | src/main/kotlin/tripeco/auth/service/UserService.kt:70-75 | two updates equal one update carrying the later request's non-null fields on top of the earlier one's |
| Users.MergeKeepsValid | src/main/kotlin/tripeco/auth/service/UserService.kt:68-77 | an update keeps the store invariant |
| Users.Registered | src/main/kotlin/tripeco/auth/service/UserService.kt:33-44 | the saved user has the assigned id, the request's email, role and profile fields, and the given hash; its response is the request's fields under the id |
| Users.ChangePasswordCheck | src/main/kotlin/tripeco/auth/service/UserService.kt:79-89 | the change passes exactly when the new password is strong, the header names a stored user, and the old password matches that user's hash |
| Users.WeakPasswordRejectedFirst | src/main/kotlin/tripeco/auth/service/UserService.kt:80-82 | a weak new password fails with PasswordTooWeak whatever the store, the header and the old password |
| Users.ChangePasswordFailureOrder | src/main/kotlin/tripeco/auth/service/UserService.kt:81-89 | with a strong password: no header fails with the header error, then an unknown id with UserNotFound, then a wrong old password with the 400 error |
| Users.RegisteredUserCanLogIn | src/main/kotlin/tripeco/auth/service/UserService.kt:32-46 | after registration the store stays valid and the generated password handed to `newUser` logs in whenever it matches the stored hash, with the new id and the requested role |
| Users.ChangedPasswordLogsIn | src/main/kotlin/tripeco/auth/service/UserService.kt:83-85 | after a change the new password logs in, and the old one fails with BadCredentials unless it also matches the new hash |
| Users.UserService.constructor | src/main/kotlin/tripeco/auth/service/UserService.kt:15-21 | a service over a valid store, with no notification recorded and no salt drawn |
| Users.UserService.Encode | src/main/kotlin/tripeco/auth/service/UserService.kt:38 | the hash with the next salt; one salt is drawn |
| Users.UserService.Register | src/main/kotlin/tripeco/auth/service/UserService.kt:25-47 | an email in use ignoring case fails with 422 and changes nothing; otherwise exactly one user is added under the new id with the hash of the generated password, a `newUser` notification with the saved user and the plaintext is recorded, and its response is returned |
| Users.UserService.Delete | src/main/kotlin/tripeco/auth/service/UserService.kt:64-66 | removes exactly that id; the store stays valid |
| Users.UserService.Update | src/main/kotlin/tripeco/auth/service/UserService.kt:68-77 | an unknown id fails with UserNotFound and saves nothing; otherwise the stored user becomes the merge and its response is returned |
| Users.UserService.ChangePassword | src/main/kotlin/tripeco/auth/service/UserService.kt:79-90 | the outcome is the first failing check in source order; on failure nothing changes and no salt is drawn; on success only the current user's password changes, to the hash of the new password |
| Users.UserService.ResendPassword | src/main/kotlin/tripeco/auth/service/UserService.kt:92-98 | an unknown id fails with UserNotFound, with nothing saved or notified; otherwise the password becomes the hash of a generated one, and a `newUser` notification with the saved user and the plaintext is recorded |
| Users.RegisterTwice | src/main/kotlin/tripeco/auth/service/UserService.kt:25-47 | after registering a fresh email its owner can log in with the notified password; registering the same email in another casing is then rejected, leaving one new user and one notification |

## Left out

- JwtService (token signing, parsing, expiry): JwtService is not part of this model. `jwt` is a function parameter.
- BCrypt: salted hashing is foreign code, so it is abstracted into `encode` (indexed by salt draws) and `matches` (uninterpreted). `SoundEncoder` is the assumption "a hash matches its own password", taken as a hypothesis where it is needed.
- EmailService: the `@Async` mail and its templates are I/O, and whether a mail is actually sent (only in production, or to an address containing a fixed test address; otherwise a warning is logged) is the e-mail service's decision. Each `newUser` call is an entry of `notifications`; the model does not say a mail was delivered.
- MongoDB: the assigned id is an input that must be fresh, and query result order is not modelled, so `findAll`/`findByRole` return sets. The unique index on `email` is case-sensitive. The model's invariant is the stronger case-insensitive one that `register` maintains, and an initial store must satisfy it.
- Repository.FindByEmailIgnoreCase: requires unique emails ignoring case. Without that, Spring Data's single-result query would throw, and the model does not represent that.
- Text.Lower: ASCII case folding only. The `...IgnoreCase` queries are derived queries that the database runs as a case-insensitive match, which also folds non-ASCII letters.
- AuthenticationFilter.AttemptAuthentication: does not model the Jackson parsing of the login body. Email and password are parameters.
- The response's `timestamp` (`Instant.now()`) and JSON serialisation: clock and formatting. Bodies are kept as `ErrorResponse` values.
- Model.RoleValueOf: `Role.valueOf` throws IllegalArgumentException for an unknown name; the model answers `None`. It is reached only from JwtService, which is not part of this model.
- Errors.HandleValidationExceptions: the HashMap iteration order used for joining is a parameter `order` that lists each key once. The cast of each `ObjectError` to `FieldError` is assumed to succeed: every error is a `FieldError`.
- Errors.HandleGenericException: the exception is represented only by its `toString()`.
- Errors.Handle: covers only the service's exceptions, `MethodArgumentNotValidException` and other `RuntimeException`s. A checked exception cannot bind to `handleGenericException(e: RuntimeException)`; Spring's default resolvers answer it, and the model does not represent that.
- Users.ToResponse and Users.ToCurrent: `id!!` is a precondition (the user is saved) rather than a modelled NullPointerException.
- Users.UserService.Update: the in-place assignment of the fetched object's `var` fields is modelled on an immutable `User` value written back to the store. Aliasing of the fetched object is not modelled; the repository returns a fresh copy.
- Logging (`logger.error` in `getCurrent`), controller routing, security, mail and JWT configuration: framework plumbing with no effect on the modelled state.
- AuthenticationFilter.LoginFailureBodies: states the developer message as `failed.toString()` of the exact exception value, not as the fully spelled-out string.
