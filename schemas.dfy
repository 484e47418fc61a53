/**
 * The zod rules of the sign-up form: `usernameValidation` and the password rule of `signUpSchema`.
 * zod runs every check of a string schema and reports the message of each failed one, in the
 * order the checks are declared; `min` and `max` count UTF-16 code units.
 */
module SignUpSchema {
  import opened Text

  const UsernameTooShort := "Username must be at least 2 characters long"
  const UsernameTooLong := "Username must be at most 20 characters long"
  const UsernameBadChars := "Username can only contain letters, numbers, and underscores"

  /** One character of `[a-zA-Z0-9_]`. */
  predicate IsUsernameChar(c: char) {
    ('a' <= c <= 'z') || ('A' <= c <= 'Z') || ('0' <= c <= '9') || c == '_'
  }

  /** `/^[a-zA-Z0-9_]*$/`. */
  predicate UsernamePattern(s: string) {
    forall i :: 0 <= i < |s| ==> IsUsernameChar(s[i])
  }

  /** The messages of the checks a username fails, in declaration order. */
  function UsernameIssues(s: string): seq<string> {
    (if Utf16Len(s) < 2 then [UsernameTooShort] else []) +
    (if Utf16Len(s) > 20 then [UsernameTooLong] else []) +
    (if !UsernamePattern(s) then [UsernameBadChars] else [])
  }

  predicate UsernameValid(s: string) {
    UsernameIssues(s) == []
  }

  /** A username is accepted exactly when it has 2 to 20 characters, each an ASCII letter, a digit
      or an underscore. */
  lemma UsernameRule(s: string)
    ensures UsernameValid(s) <==> 2 <= |s| <= 20 && UsernamePattern(s)
  {
    if UsernamePattern(s) {
      Utf16LenOfBmp(s);
    }
  }

  /** An accepted username contains no whitespace, so the schema's `trim` leaves it as it is. */
  lemma ValidUsernameIsTrimmed(s: string)
    requires UsernameValid(s)
    ensures Trim(s) == s
  {
    TrimWithoutWhitespace(s);
  }

  /** A failing username is reported with at least one message, and never with both length messages. */
  lemma UsernameIssuesReported(s: string)
    ensures !UsernameValid(s) ==> 1 <= |UsernameIssues(s)| <= 2
    ensures UsernameTooShort in UsernameIssues(s) <==> Utf16Len(s) < 2
    ensures UsernameTooLong in UsernameIssues(s) <==> Utf16Len(s) > 20
    ensures UsernameBadChars in UsernameIssues(s) <==> !UsernamePattern(s)
  {
  }

  const PasswordTooShort := "Password must be at least 8 characters long"
  const PasswordTooLong := "Password must be at most 20 characters long"
  const PasswordTooWeak := "Password must contain at least one uppercase letter, one lowercase letter, one number, and one special character(@, $, %, *, ?, &, _)."

  predicate IsLower(c: char) { 'a' <= c <= 'z' }
  predicate IsUpper(c: char) { 'A' <= c <= 'Z' }
  predicate IsSpecial(c: char) { c in "@$!%*?&_" }

  /** One character of `[A-Za-z\d@$!%*?&_]`. */
  predicate IsPasswordChar(c: char) {
    IsLower(c) || IsUpper(c) || IsDigit(c) || IsSpecial(c)
  }

  predicate HasSome(p: string, kind: char -> bool) {
    exists i :: 0 <= i < |p| && kind(p[i])
  }

  /** `/^(?=.*[a-z])(?=.*[A-Z])(?=.*\d)(?=.*[@$!%*?&_])[A-Za-z\d@$!%*?&_]{8,20}$/`: the four
      look-aheads, then 8 to 20 characters of the class (each of them one code unit). */
  predicate PasswordPattern(p: string) {
    && HasSome(p, IsLower) && HasSome(p, IsUpper) && HasSome(p, IsDigit) && HasSome(p, IsSpecial)
    && (forall i :: 0 <= i < |p| ==> IsPasswordChar(p[i]))
    && 8 <= |p| <= 20
  }

  /** The messages of the checks a password fails, in declaration order. */
  function PasswordIssues(p: string): seq<string> {
    (if Utf16Len(p) < 8 then [PasswordTooShort] else []) +
    (if Utf16Len(p) > 20 then [PasswordTooLong] else []) +
    (if !PasswordPattern(p) then [PasswordTooWeak] else [])
  }

  predicate PasswordValid(p: string) {
    PasswordIssues(p) == []
  }

  /** The `{8,20}` of the pattern agrees with `min(8)` and `max(20)`: a password the pattern
      accepts passes both length checks, so the pattern alone decides. */
  lemma PatternImpliesLength(p: string)
    requires PasswordPattern(p)
    ensures 8 <= Utf16Len(p) <= 20
    ensures PasswordValid(p)
  {
    Utf16LenOfBmp(p);
  }

  /** A password is accepted exactly when it has 8 to 20 characters, all from A-Z, a-z, the digits
      and `@$!%*?&_`, with at least one lower-case letter, one upper-case letter, one digit and one
      of the special characters. */
  lemma PasswordRule(p: string)
    ensures PasswordValid(p) <==>
      && 8 <= |p| <= 20
      && (forall i :: 0 <= i < |p| ==> IsPasswordChar(p[i]))
      && HasSome(p, IsLower) && HasSome(p, IsUpper) && HasSome(p, IsDigit) && HasSome(p, IsSpecial)
  {
    if PasswordPattern(p) {
      PatternImpliesLength(p);
    }
  }
}

/** The zod rule of the message form: `messageSchema`'s content length. */
module MessageSchema {
  import opened Text

  const ContentEmpty := "Message cannot be empty"
  const ContentTooLong := "Message cannot be longer than 200 characters"

  /** The messages of the checks a message content fails. */
  function ContentIssues(content: string): seq<string> {
    (if Utf16Len(content) < 1 then [ContentEmpty] else []) +
    (if Utf16Len(content) > 200 then [ContentTooLong] else [])
  }

  predicate ContentValid(content: string) {
    ContentIssues(content) == []
  }

  /** Empty content fails with exactly the "empty" message; content longer than 200 code units
      fails with exactly the "too long" message; every length from 1 to 200 passes. */
  lemma ContentRule(content: string)
    ensures content == [] ==> ContentIssues(content) == [ContentEmpty]
    ensures Utf16Len(content) > 200 ==> ContentIssues(content) == [ContentTooLong]
    ensures ContentValid(content) <==> 1 <= Utf16Len(content) <= 200
    ensures ContentValid(content) <==> content != [] && Utf16Len(content) <= 200
  {
  }

  /** Only the length counts: two contents of the same length get the same verdict and messages,
      whatever their characters. */
  lemma OnlyLengthMatters(a: string, b: string)
    requires Utf16Len(a) == Utf16Len(b)
    ensures ContentIssues(a) == ContentIssues(b)
  {
  }

  /** For text without supplementary-plane characters the limit is 200 characters. */
  lemma BmpContentRule(content: string)
    requires forall i :: 0 <= i < |content| ==> content[i] as int < 0x1_0000
    ensures ContentValid(content) <==> 1 <= |content| <= 200
  {
    Utf16LenOfBmp(content);
  }
}
