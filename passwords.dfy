/**
 * Password generation and the strength rule
 * (src/main/kotlin/tripeco/auth/service/PasswordService.kt).
 */
module Passwords {
  import opened Wrappers
  import opened Errors
  import opened Text

  /** `TEST_PASSWORD`: what `generate` returns outside production. */
  const TestPassword := "12345678"

  /** The fixed placeholder `generate` returns in production. */
  const ProductionPassword := "CHANGE THIS TO RAMDOM STRING REGEX"

  const PasswordTooWeakMessage := "New password should have at least 8 characters and uppercase, lowercase and symbol."
  const PasswordRulesMessage := "Password doesn't meet password rules."

  /** `PasswordTooWeakException`: a 422 Validation with two fixed messages. */
  function PasswordTooWeak(): (e: TripecoException)
    ensures e.Validation? && e.status == UnprocessableEntity && e.status.Value() == 422
    ensures e.errorMessage == PasswordTooWeakMessage && e.developerMessage == Some(PasswordRulesMessage)
    ensures e.validationType == Some(ERROR) && e.showAs == Some(SNACKBAR)
  {
    NewValidation(UnprocessableEntity, PasswordTooWeakMessage, Some(PasswordRulesMessage))
  }

  /**
   * `PasswordService`, configured by the `production` flag and the password
   * regex. The regex is represented by the set of strings it matches in
   * full (`passwordRegex(s)` is `regex.matchEntire(s) != null`).
   */
  datatype PasswordService = PasswordService(production: bool, passwordRegex: string -> bool) {

    /** `generate()`: a constant chosen by the production flag. */
    function Generate(): (p: string)
      ensures !production ==> p == TestPassword
      ensures production ==> p == ProductionPassword && p != TestPassword
    {
      if production then ProductionPassword else TestPassword
    }

    /** `validate(requestPassword)`: completes iff the whole password matches the regex, else throws PasswordTooWeak. */
    function Validate(requestPassword: string): (r: Outcome<TripecoException>)
      ensures r == Pass <==> passwordRegex(requestPassword)
      ensures r != Pass ==> r == Fail(PasswordTooWeak())
    {
      if passwordRegex(requestPassword) then Pass else Fail(PasswordTooWeak())
    }
  }

  /** `generate` reads only the production flag, never the regex. */
  lemma GenerateIgnoresRegex(a: PasswordService, b: PasswordService)
    requires a.production == b.production
    ensures a.Generate() == b.Generate()
  {
  }

  // ----- The regex the repository's tests configure -----
  // ^(?=.*?[A-Z])(?=.*?[a-z])(?=.*?[^\w\s]).{8,}$ under java.util.regex, matched in full.

  /** Java's line terminators, which `.` does not match. */
  predicate IsLineTerminator(c: char) {
    c == '\n' || c == '\r' || c == '\U{0085}' || c == '\U{2028}' || c == '\U{2029}'
  }

  /** `\w`: [a-zA-Z_0-9]. */
  predicate IsWordChar(c: char) {
    IsAsciiLower(c) || IsAsciiUpper(c) || '0' <= c <= '9' || c == '_'
  }

  /** `\s`: [ \t\n\x0B\f\r]. */
  predicate IsRegexSpace(c: char) {
    c == ' ' || c == '\t' || c == '\n' || c == '\U{000B}' || c == '\U{000C}' || c == '\r'
  }

  /** `[^\w\s]`: a symbol. */
  predicate IsSymbol(c: char) {
    !IsWordChar(c) && !IsRegexSpace(c)
  }

  /** Some character of `s` satisfies `p`. */
  predicate HasCharWhere(s: string, p: char -> bool) {
    exists i :: 0 <= i < |s| && p(s[i])
  }

  /**
   * The strings the test regex matches in full: at least 8 characters, no
   * line terminator (`.{8,}` spans the whole string), and an upper-case
   * letter, a lower-case letter and a symbol somewhere (the three lookaheads).
   */
  predicate TestRegex(s: string) {
    && |s| >= 8
    && (forall i :: 0 <= i < |s| ==> !IsLineTerminator(s[i]))
    && HasCharWhere(s, IsAsciiUpper)
    && HasCharWhere(s, IsAsciiLower)
    && HasCharWhere(s, IsSymbol)
  }

  /** The service as the tests configure it. */
  function TestPolicy(production: bool): (ps: PasswordService)
    ensures ps.production == production
    ensures forall s :: ps.passwordRegex(s) == TestRegex(s)
  {
    PasswordService(production, TestRegex)
  }

  /** The tests' examples: "PassWord$" is accepted, "password" is rejected with PasswordTooWeak. */
  lemma TestRegexExamples()
    ensures TestPolicy(false).Validate("PassWord$") == Pass
    ensures TestPolicy(false).Validate("password") == Fail(PasswordTooWeak())
  {
    var good := "PassWord$";
    assert IsAsciiUpper(good[0]) && IsAsciiLower(good[1]) && IsSymbol(good[8]);
    var bad := "password";
    assert !HasCharWhere(bad, IsAsciiUpper) by {
      forall i | 0 <= i < |bad| ensures !IsAsciiUpper(bad[i]) {
        assert IsAsciiLower(bad[i]);
      }
    }
  }

  /**
   * The match is on the whole string, not a part of it: "PassWord$" followed
   * by a line break contains a matching part but is itself rejected.
   */
  lemma WholeStringMustMatch()
    ensures TestRegex("PassWord$\n"[..9])
    ensures TestPolicy(false).Validate("PassWord$\n") == Fail(PasswordTooWeak())
  {
    TestRegexExamples();
    assert "PassWord$\n"[..9] == "PassWord$";
    assert IsLineTerminator("PassWord$\n"[9]);
  }

  /**
   * Neither value `generate` can return satisfies the test regex: the test
   * password has no letter, the production placeholder has no lower-case
   * letter and no symbol.
   */
  lemma GeneratedPasswordsAreWeak(production: bool)
    ensures TestPolicy(production).Validate(TestPolicy(production).Generate()) == Fail(PasswordTooWeak())
  {
    var p := TestPolicy(production).Generate();
    assert !HasCharWhere(p, IsAsciiLower) by {
      forall i | 0 <= i < |p| ensures !IsAsciiLower(p[i]) {
        assert IsAsciiUpper(p[i]) || p[i] == ' ' || '0' <= p[i] <= '9';
      }
    }
  }
}
