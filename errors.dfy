/**
 * The service's exception taxonomy and the controller advice that turns an
 * exception into an HTTP response (src/main/kotlin/tripeco/auth/error/ErrorHandler.kt).
 */
module Errors {
  import opened Wrappers

  /** The HTTP statuses the core uses. */
  datatype HttpStatus = BadRequest | Unauthorized | NotFound | UnprocessableEntity | InternalServerError {

    /** The numeric status code, `HttpStatus.value()`. */
    function Value(): (code: int)
      ensures 400 <= code < 600
      ensures code < 500 <==> !InternalServerError?
    {
      match this
      case BadRequest => 400
      case Unauthorized => 401
      case NotFound => 404
      case UnprocessableEntity => 422
      case InternalServerError => 500
    }
  }

  /** `ValidationType` and `ValidationShowAs`: single-value enums. */
  datatype ValidationType = ERROR
  datatype ValidationShowAs = SNACKBAR

  /**
   * `TripecoException`. `Unexpected` keeps its cause only as the cause's
   * `toString()`, which is all the handler uses of it.
   */
  datatype TripecoException =
    | Validation(status: HttpStatus, errorMessage: string, developerMessage: Option<string>,
                 validationType: Option<ValidationType>, showAs: Option<ValidationShowAs>)
    | Unexpected(status: HttpStatus, errorMessage: string, cause: string)

  /** The `Validation` constructor with its default arguments for `type` and `showAs`. */
  function NewValidation(status: HttpStatus, errorMessage: string, developerMessage: Option<string> := None)
    : (e: TripecoException)
    ensures e.Validation? && e.status == status && e.errorMessage == errorMessage
    ensures e.developerMessage == developerMessage
    ensures e.validationType == Some(ERROR) && e.showAs == Some(SNACKBAR)
  {
    Validation(status, errorMessage, developerMessage, Some(ERROR), Some(SNACKBAR))
  }

  /** The response body; the `timestamp` field (`Instant.now()`) is not modelled. */
  datatype ErrorResponse = ErrorResponse(errorMessage: string, developerMessage: Option<string>,
                                         validationType: Option<ValidationType>, showAs: Option<ValidationShowAs>)

  /** The `ErrorResponse` constructor with its default arguments for `type` and `showAs`. */
  function NewErrorResponse(errorMessage: string, developerMessage: Option<string>): (r: ErrorResponse)
    ensures r.errorMessage == errorMessage && r.developerMessage == developerMessage
    ensures r.validationType == Some(ERROR) && r.showAs == Some(SNACKBAR)
  {
    ErrorResponse(errorMessage, developerMessage, Some(ERROR), Some(SNACKBAR))
  }

  /** `ResponseEntity<ErrorResponse>`: a body and a status. */
  datatype ResponseEntity = ResponseEntity(body: ErrorResponse, status: HttpStatus)

  const GenericErrorMessage := "Unable to process your request, please try again."

  /** `handleValidationException`: the exception's own messages, type, display and status, unchanged. */
  function HandleValidationException(e: TripecoException): (r: ResponseEntity)
    requires e.Validation?
    ensures r.status == e.status
    ensures r.body == ErrorResponse(e.errorMessage, e.developerMessage, e.validationType, e.showAs)
  {
    ResponseEntity(ErrorResponse(e.errorMessage, e.developerMessage, e.validationType, e.showAs), e.status)
  }

  /** `handleUnexpectedException`: its message, its cause as the developer message, its own status. */
  function HandleUnexpectedException(e: TripecoException): (r: ResponseEntity)
    requires e.Unexpected?
    ensures r.status == e.status
    ensures r.body == NewErrorResponse(e.errorMessage, Some(e.cause))
  {
    ResponseEntity(NewErrorResponse(e.errorMessage, Some(e.cause)), e.status)
  }

  /** `handleGenericException`: any other exception is a 500 with the fixed message. */
  function HandleGenericException(description: string): (r: ResponseEntity)
    ensures r.status == InternalServerError && r.status.Value() == 500
    ensures r.body == NewErrorResponse(GenericErrorMessage, Some(description))
  {
    ResponseEntity(NewErrorResponse(GenericErrorMessage, Some(description)), InternalServerError)
  }

  /**
   * What can reach the advice: one of the service's own exceptions, a
   * `MethodArgumentNotValidException` (its field errors, with the iteration
   * order of the map they are collected into), or any other `RuntimeException`
   * (its `toString()`).
   */
  datatype RaisedException =
    | Tripeco(exception: TripecoException)
    | FieldValidation(errors: seq<FieldError>, order: seq<string>)
    | OtherRuntime(description: string)

  /** The handler Spring picks for the exception: the most specific one declared. */
  function Handle(e: RaisedException): (r: ResponseEntity)
    requires e.FieldValidation? ==> Enumerates(e.order, FieldsOf(e.errors))
    ensures e.Tripeco? ==> r.status == e.exception.status && r.body.errorMessage == e.exception.errorMessage
    ensures e.Tripeco? && e.exception.Validation? ==>
              && r.body.developerMessage == e.exception.developerMessage
              && r.body.validationType == e.exception.validationType && r.body.showAs == e.exception.showAs
    ensures e.Tripeco? && e.exception.Unexpected? ==>
              r.body == NewErrorResponse(e.exception.errorMessage, Some(e.exception.cause))
    ensures e.FieldValidation? ==> r.status == UnprocessableEntity && r.body.errorMessage == GenericErrorMessage
    ensures e.FieldValidation? ==>
              r.body.developerMessage == Some(FieldErrorsMessage(LastMessages(e.errors), e.order))
    ensures e.FieldValidation? ==> r.body.validationType == Some(ERROR) && r.body.showAs == Some(SNACKBAR)
    ensures e.OtherRuntime? ==> r.status == InternalServerError && r.body == NewErrorResponse(GenericErrorMessage, Some(e.description))
  {
    match e
    case Tripeco(t) => if t.Validation? then HandleValidationException(t) else HandleUnexpectedException(t)
    case FieldValidation(errors, order) =>
      ResponseEntity(NewErrorResponse(GenericErrorMessage, Some(FieldErrorsMessage(LastMessages(errors), order))),
                     UnprocessableEntity)
    case OtherRuntime(d) => HandleGenericException(d)
  }

  /** A Validation exception built with only its status and message keeps the defaults all the way to the response. */
  lemma ValidationDefaultsReachResponse(status: HttpStatus, errorMessage: string)
    ensures HandleValidationException(NewValidation(status, errorMessage))
            == ResponseEntity(NewErrorResponse(errorMessage, None), status)
  {
  }

  // ----- Field-validation errors (`handleValidationExceptions`) -----

  /** A `FieldError`: the field it is about and its default message (which may be null). */
  datatype FieldError = FieldError(field: string, defaultMessage: Option<string>)

  /** The distinct fields that have errors. */
  function FieldsOf(errors: seq<FieldError>): set<string> {
    set i | 0 <= i < |errors| :: errors[i].field
  }

  /** The fields of a non-empty list are those of all but its last error, and the last error's. */
  lemma FieldsOfLast(errors: seq<FieldError>)
    requires errors != []
    ensures FieldsOf(errors) == FieldsOf(errors[..|errors| - 1]) + {errors[|errors| - 1].field}
  {
    var n := |errors| - 1;
    var init := errors[..n];
    forall f | f in FieldsOf(errors) ensures f in FieldsOf(init) + {errors[n].field} {
      var i :| 0 <= i < |errors| && errors[i].field == f;
      if i < n { assert init[i] == errors[i]; }
    }
    forall f | f in FieldsOf(init) ensures f in FieldsOf(errors) {
      var i :| 0 <= i < |init| && init[i].field == f;
      assert errors[i] == init[i];
    }
  }

  /**
   * The map the loop builds from a prefix of the errors: each field's
   * message, a later one replacing an earlier one. It has one key per
   * distinct field.
   */
  function LastMessages(errors: seq<FieldError>): (m: map<string, Option<string>>)
    ensures m.Keys == FieldsOf(errors)
  {
    if errors == [] then map[]
    else
      var last := errors[|errors| - 1];
      FieldsOfLast(errors);
      LastMessages(errors[..|errors| - 1])[last.field := last.defaultMessage]
  }

  /** `v` is the message of the last error in `errors` about field `f`. */
  ghost predicate IsLastMessage(errors: seq<FieldError>, f: string, v: Option<string>) {
    exists j :: 0 <= j < |errors| && errors[j].field == f && errors[j].defaultMessage == v
                && forall k :: j < k < |errors| ==> errors[k].field != f
  }

  /**
   * Each entry of the collected map is the message of the last error about
   * its field.
   */
  lemma {:induction false} LastMessagesMeaning(errors: seq<FieldError>)
    ensures forall f :: f in LastMessages(errors) ==> IsLastMessage(errors, f, LastMessages(errors)[f])
  {
    if errors != [] {
      var n := |errors| - 1;
      var init := errors[..n];
      LastMessagesMeaning(init);
      var m := LastMessages(errors);
      forall f | f in m ensures IsLastMessage(errors, f, m[f]) {
        if f == errors[n].field {
          assert errors[n].defaultMessage == m[f];
        } else {
          var mi := LastMessages(init);
          assert f in mi && m[f] == mi[f];
          var j :| 0 <= j < |init| && init[j].field == f && init[j].defaultMessage == mi[f]
                   && forall k :: j < k < |init| ==> init[k].field != f;
          assert errors[j] == init[j];
          forall k | j < k < |errors| ensures errors[k].field != f {
            if k < n { assert errors[k] == init[k]; }
          }
        }
      }
    }
  }

  /** The `forEach` loop that fills the `HashMap` of field errors. */
  method CollectFieldErrors(errors: seq<FieldError>) returns (m: map<string, Option<string>>)
    ensures m == LastMessages(errors)
  {
    m := map[];
    var i := 0;
    while i < |errors|
      invariant 0 <= i <= |errors|
      invariant m == LastMessages(errors[..i])
    {
      assert errors[..i + 1][..i] == errors[..i];
      m := m[errors[i].field := errors[i].defaultMessage];
      i := i + 1;
    }
    assert errors[..i] == errors;
  }

  /** Kotlin's string template on a `String?`: `null` renders as "null". */
  function Render(v: Option<string>): string {
    match v
    case Some(s) => s
    case None => "null"
  }

  /**
   * One map entry as the handler renders it: " key: value ". The key and the
   * rendered value can be read back at fixed positions.
   */
  function RenderEntry(key: string, value: Option<string>): (r: string)
    ensures |r| == |key| + |Render(value)| + 4
    ensures r[0] == ' ' && r[1..|key| + 1] == key && r[|key| + 1] == ':' && r[|key| + 2] == ' '
    ensures r[|key| + 3..|r| - 1] == Render(value) && r[|r| - 1] == ' '
  {
    " " + key + ": " + Render(value) + " "
  }

  /** `joinToString()` with its default separator ", ": empty for no parts, else from the first part to the last. */
  function JoinToString(parts: seq<string>): (r: string)
    ensures |parts| == 0 ==> r == ""
    ensures |parts| == 1 ==> r == parts[0]
    ensures |parts| > 0 ==> |r| >= |parts[0]| && r[..|parts[0]|] == parts[0]
    ensures |parts| > 0 ==> |r| >= |parts[|parts| - 1]| && r[|r| - |parts[|parts| - 1]|..] == parts[|parts| - 1]
  {
    if |parts| == 0 then ""
    else if |parts| == 1 then parts[0]
    else parts[0] + ", " + JoinToString(parts[1..])
  }

  /** The total length of the parts. */
  function SumLen(parts: seq<string>): nat {
    if |parts| == 0 then 0 else |parts[0]| + SumLen(parts[1..])
  }

  /** Appending a part appends ", " and the part: with the one-part case, this pins the join down. */
  lemma {:induction false} JoinAppend(parts: seq<string>, p: string)
    requires parts != []
    ensures JoinToString(parts + [p]) == JoinToString(parts) + ", " + p
  {
    assert (parts + [p])[0] == parts[0];
    assert (parts + [p])[1..] == parts[1..] + [p];
    if |parts| > 1 {
      JoinAppend(parts[1..], p);
    } else {
      assert parts[1..] + [p] == [p];
    }
  }

  /** The join is as long as its parts plus two characters per separator. */
  lemma {:induction false} JoinLength(parts: seq<string>)
    ensures parts != [] ==> |JoinToString(parts)| == SumLen(parts) + 2 * (|parts| - 1)
  {
    if |parts| > 1 {
      JoinLength(parts[1..]);
    }
  }

  /** `a` occurs in `b` starting at position `i`. */
  ghost predicate OccursAt(a: string, b: string, i: int) {
    0 <= i <= |b| - |a| && b[i..i + |a|] == a
  }

  ghost predicate IsSubstring(a: string, b: string) {
    exists i :: OccursAt(a, b, i)
  }

  /** Every part appears, unaltered, in the joined string. */
  lemma {:induction false} JoinContainsParts(parts: seq<string>, k: nat)
    requires k < |parts|
    ensures IsSubstring(parts[k], JoinToString(parts))
  {
    var joined := JoinToString(parts);
    if |parts| == 1 {
      assert OccursAt(parts[0], joined, 0);
    } else if k == 0 {
      assert joined == parts[0] + (", " + JoinToString(parts[1..]));
      assert OccursAt(parts[0], joined, 0);
    } else {
      JoinContainsParts(parts[1..], k - 1);
      var rest := JoinToString(parts[1..]);
      assert parts[1..][k - 1] == parts[k];
      var i :| OccursAt(parts[k], rest, i);
      var offset := |parts[0]| + 2;
      assert joined == (parts[0] + ", ") + rest;
      assert joined[offset + i..offset + i + |parts[k]|] == rest[i..i + |parts[k]|];
      assert OccursAt(parts[k], joined, offset + i);
    }
  }

  /** `order` lists each key of the map exactly once: the map's iteration order. */
  predicate Enumerates(order: seq<string>, keys: set<string>) {
    && (forall i :: 0 <= i < |order| ==> order[i] in keys)
    && (forall k :: k in keys ==> k in order)
    && (forall i, j :: 0 <= i < j < |order| ==> order[i] != order[j])
  }

  /** Every part appears in the joined string. */
  lemma JoinContainsAll(parts: seq<string>)
    ensures forall k :: 0 <= k < |parts| ==> IsSubstring(parts[k], JoinToString(parts))
  {
    forall k | 0 <= k < |parts| ensures IsSubstring(parts[k], JoinToString(parts)) {
      JoinContainsParts(parts, k);
    }
  }

  /** The map's entries in iteration order, each rendered. */
  function Entries(m: map<string, Option<string>>, order: seq<string>): (parts: seq<string>)
    requires Enumerates(order, m.Keys)
    ensures |parts| == |order|
    ensures forall i :: 0 <= i < |order| ==> parts[i] == RenderEntry(order[i], m[order[i]])
  {
    seq(|order|, i requires 0 <= i < |order| => RenderEntry(order[i], m[order[i]]))
  }

  /**
   * The developer message: the entries in iteration order, rendered and
   * joined by ", ". It mentions every field with its message, has no other
   * text than the entries and their separators, and is empty exactly when
   * there are no field errors.
   */
  function FieldErrorsMessage(m: map<string, Option<string>>, order: seq<string>): (s: string)
    requires Enumerates(order, m.Keys)
    ensures s == JoinToString(Entries(m, order))
    ensures m != map[] ==> |s| == SumLen(Entries(m, order)) + 2 * (|order| - 1)
    ensures forall f :: f in m ==> IsSubstring(RenderEntry(f, m[f]), s)
    ensures s == "" <==> m == map[]
  {
    var parts := Entries(m, order);
    JoinContainsAll(parts);
    JoinLength(parts);
    assert forall f :: f in m ==> exists k :: 0 <= k < |order| && order[k] == f && parts[k] == RenderEntry(f, m[f]);
    assert m != map[] ==> |order| > 0 by {
      if m != map[] {
        var f :| f in m;
        assert f in order;
      }
    }
    JoinToString(parts)
  }

  /**
   * `handleValidationExceptions`: 422 with the generic message; the developer
   * message lists the last message of each distinct field, in the given
   * iteration order of the map.
   */
  method HandleValidationExceptions(errors: seq<FieldError>, order: seq<string>) returns (r: ResponseEntity)
    requires Enumerates(order, FieldsOf(errors))
    ensures r.status == UnprocessableEntity
    ensures r.body == NewErrorResponse(GenericErrorMessage, Some(FieldErrorsMessage(LastMessages(errors), order)))
    ensures r == Handle(FieldValidation(errors, order))
  {
    var collected := CollectFieldErrors(errors);
    var rendered := FieldErrorsMessage(collected, order);
    r := ResponseEntity(NewErrorResponse(GenericErrorMessage, Some(rendered)), UnprocessableEntity);
  }

  /** Two errors on the same field leave one entry, the later message. */
  lemma LaterFieldErrorWins()
    ensures LastMessages([FieldError("email", Some("must not be blank")), FieldError("email", Some("invalid"))])
            == map["email" := Some("invalid")]
  {
  }
}
