/**
 * The Credentials record and its construction-time validation: the e-mail
 * must match EMAIL_PATTERN and the password must have at least
 * MIN_PASSWORD_LENGTH characters, checked in that order.
 *
 * EMAIL_PATTERN is `^[a-zA-Z0-9._%+-]+@[a-zA-Z0-9.-]+\.[a-zA-Z]{2,}$` used
 * with `re.match`. Its meaning is stated twice: as the regular expression
 * reads (PatternMatches, an existential over where the `@` and the final dot
 * sit, with Python's `$` also matching before one final newline) and as a
 * deterministic check (EmailPatternMatch); EmailPatternMatchIff proves them equal.
 */
module UserCredentials {
  import opened Wrappers
  import opened Text

  const MIN_PASSWORD_LENGTH: nat := 8

  predicate IsLocalChar(c: char) {
    IsLetter(c) || IsDigit(c) || c == '.' || c == '_' || c == '%' || c == '+' || c == '-'
  }

  predicate IsDomainChar(c: char) {
    IsLetter(c) || IsDigit(c) || c == '.' || c == '-'
  }

  predicate AllLocal(s: string) { forall k :: 0 <= k < |s| ==> IsLocalChar(s[k]) }

  predicate AllDomain(s: string) { forall k :: 0 <= k < |s| ==> IsDomainChar(s[k]) }

  predicate AllLetters(s: string) { forall k :: 0 <= k < |s| ==> IsLetter(s[k]) }

  // ---------------------------------------------------------------------
  // The pattern as the regular expression reads
  // ---------------------------------------------------------------------

  /** `[a-zA-Z0-9.-]+\.[a-zA-Z]{2,}` matches all of `r`, with the `\.` at `j`. */
  ghost predicate DomainShape(r: string, j: nat) {
    0 < j && j + 2 < |r| && r[j] == '.' && AllDomain(r[..j]) && AllLetters(r[j + 1..])
  }

  /** `[a-zA-Z0-9._%+-]+@` then the domain matches all of `t`, with the `@` at `i`. */
  ghost predicate AddressShape(t: string, i: nat) {
    0 < i < |t| && t[i] == '@' && AllLocal(t[..i]) && DomainMatches(t[i + 1..])
  }

  ghost predicate DomainMatches(r: string) {
    exists j: nat :: DomainShape(r, j)
  }

  ghost predicate FullMatch(t: string) {
    exists i: nat :: AddressShape(t, i)
  }

  /** `re.match` succeeds: the body matches the whole string, or all of it but one final newline. */
  ghost predicate PatternMatches(s: string) {
    FullMatch(s) || (|s| > 0 && s[|s| - 1] == '\n' && FullMatch(s[..|s| - 1]))
  }

  // ---------------------------------------------------------------------
  // The pattern as a deterministic check
  // ---------------------------------------------------------------------

  function MatchesDomain(r: string): bool {
    var j := RFind(r, '.');
    0 < j && j + 2 < |r| && AllDomain(r[..j]) && AllLetters(r[j + 1..])
  }

  function MatchesAddress(t: string): bool {
    var i := IndexOf(t, '@');
    0 < i && AllLocal(t[..i]) && MatchesDomain(t[i + 1..])
  }

  /** `EMAIL_PATTERN.match(s)` succeeds. */
  predicate EmailPatternMatch(s: string) {
    if |s| > 0 && s[|s| - 1] == '\n' then MatchesAddress(s[..|s| - 1]) else MatchesAddress(s)
  }

  lemma MatchesDomainIff(r: string)
    ensures MatchesDomain(r) <==> DomainMatches(r)
  {
    if MatchesDomain(r) {
      assert DomainShape(r, RFind(r, '.'));
    }
    if j: nat :| DomainShape(r, j) {
      // No letter is a dot, so the dot at j is the last one.
      forall k | j < k < |r| ensures r[k] != '.' {
        assert r[j + 1..][k - j - 1] == r[k];
      }
      assert RFind(r, '.') == j;
    }
  }

  lemma MatchesAddressIff(t: string)
    ensures MatchesAddress(t) <==> FullMatch(t)
  {
    var i := IndexOf(t, '@');
    if MatchesAddress(t) {
      MatchesDomainIff(t[i + 1..]);
      assert AddressShape(t, i);
    }
    if i': nat :| AddressShape(t, i') {
      // No local character is an `@`, so the `@` at i' is the first one.
      forall k | 0 <= k < i' ensures t[k] != '@' {
        assert t[..i'][k] == t[k];
      }
      IndexOfFirst(t, '@');
      assert i == i';
      MatchesDomainIff(t[i + 1..]);
    }
  }

  /** A string the pattern body matches ends in a letter. */
  lemma FullMatchEndsInLetter(t: string)
    requires FullMatch(t)
    ensures |t| > 0 && IsLetter(t[|t| - 1])
  {
    var i: nat :| AddressShape(t, i);
    var r := t[i + 1..];
    var j: nat :| DomainShape(r, j);
    assert r[j + 1..][|r| - j - 2] == t[|t| - 1];
  }

  /** The deterministic check is exactly the regular expression. */
  lemma EmailPatternMatchIff(s: string)
    ensures EmailPatternMatch(s) <==> PatternMatches(s)
  {
    if |s| > 0 && s[|s| - 1] == '\n' {
      MatchesAddressIff(s[..|s| - 1]);
      if FullMatch(s) { FullMatchEndsInLetter(s); }
    } else {
      MatchesAddressIff(s);
    }
  }

  /**
   * An accepted address: exactly one `@`, a non-empty local part over
   * `[A-Za-z0-9._%+-]`, and after it a domain over `[A-Za-z0-9.-]` whose last
   * dot has at least one character before it and two or more letters after.
   */
  lemma AcceptedEmailShape(s: string)
    requires EmailPatternMatch(s)
    ensures exists i, e :: AcceptedAt(s, i, e)
  {
    var t := if |s| > 0 && s[|s| - 1] == '\n' then s[..|s| - 1] else s;
    assert MatchesAddress(t);
    var i := SingleAt(t);
    MatchesDomainIff(t[i + 1..]);
    var e := |t|;
    assert s[..e] == t;
    assert s[..i] == t[..i] && s[i + 1..e] == t[i + 1..];
    forall k | 0 <= k < |s| && k != i ensures s[k] != '@' {
      if k < e { assert s[k] == t[k]; }
    }
    assert AcceptedAt(s, i, e);
  }

  /**
   * The parts of an accepted address: its only `@` at `i`, after a valid
   * local part, then a domain matching `[a-zA-Z0-9.-]+\.[a-zA-Z]{2,}` up to
   * `e`, which is the end or the position of one final newline.
   */
  ghost predicate AcceptedAt(s: string, i: nat, e: nat) {
    && 0 < i < e <= |s| && s[i] == '@' && AllLocal(s[..i])
    && (forall k :: 0 <= k < |s| && k != i ==> s[k] != '@')
    && (e == |s| || (e == |s| - 1 && s[e] == '\n'))
    && DomainMatches(s[i + 1..e])
  }

  /** The `@` of an address the scan accepts is its only one, after a valid local part. */
  lemma SingleAt(t: string) returns (i: nat)
    requires MatchesAddress(t)
    ensures 0 < i < |t| && t[i] == '@' && AllLocal(t[..i]) && MatchesDomain(t[i + 1..])
    ensures forall k :: 0 <= k < |t| && k != i ==> t[k] != '@'
  {
    IndexOfFirst(t, '@');
    i := IndexOf(t, '@');
    DomainHasNoAt(t[i + 1..]);
    forall k | 0 <= k < |t| && k != i ensures t[k] != '@' {
      if k > i { assert t[i + 1..][k - i - 1] == t[k]; }
    }
  }

  /** A domain the scan accepts holds no `@`. */
  lemma DomainHasNoAt(r: string)
    requires MatchesDomain(r)
    ensures forall k :: 0 <= k < |r| ==> r[k] != '@'
  {
    var j := RFind(r, '.');
    forall k | 0 <= k < |r| ensures r[k] != '@' {
      if k < j {
        assert r[..j][k] == r[k];
      } else if k > j {
        assert r[j + 1..][k - j - 1] == r[k];
      }
    }
  }

  lemma EmailPatternAccepts()
    ensures EmailPatternMatch("a@b.co")
  {
    var t := "a@b.co";
    assert IndexOf(t, '@') == 1 by { assert t[0] != '@' && t[1] == '@'; }
    assert t[..1] == "a" && t[2..] == "b.co";
    var r := "b.co";
    assert RFind(r, '.') == 1 by { assert r[1] == '.' && r[2] != '.' && r[3] != '.'; }
    assert r[..1] == "b" && r[2..] == "co";
    assert AllLocal("a") && AllDomain("b") && AllLetters("co");
  }

  lemma EmailPatternRejects()
    ensures !EmailPatternMatch("not-an-email")
  {
    var e := "not-an-email";
    assert IndexOf(e, '@') == -1 by { assert forall k :: 0 <= k < |e| ==> e[k] != '@'; }
  }

  /** Python's `$` also matches before a final newline, so the pattern accepts it. */
  lemma EmailPatternTrailingNewline()
    ensures EmailPatternMatch("a@b.co\n")
  {
    var s := "a@b.co\n";
    assert s[..|s| - 1] == "a@b.co";
    EmailPatternAccepts();
  }

  // ---------------------------------------------------------------------
  // Credentials
  // ---------------------------------------------------------------------

  datatype Credentials = Credentials(email: string, password: string, username: Option<string>)

  datatype ValidationError = ValidationError(message: string)

  const INVALID_EMAIL: string := "Invalid email format"

  function PasswordTooShort(): string {
    "Password must be at least " + IntToString(MIN_PASSWORD_LENGTH) + " characters long"
  }

  /** _validate_email: an empty or non-matching address is refused. */
  function CheckEmail(email: string): (r: Option<ValidationError>)
    ensures r == None <==> EmailPatternMatch(email)
    ensures r != None ==> r == Some(ValidationError(INVALID_EMAIL))
  {
    if email == "" || !EmailPatternMatch(email) then Some(ValidationError(INVALID_EMAIL)) else None
  }

  /** _validate_password: an empty password or one shorter than the minimum is refused. */
  function CheckPassword(password: string): (r: Option<ValidationError>)
    ensures r == None <==> |password| >= MIN_PASSWORD_LENGTH
    ensures r != None ==> r == Some(ValidationError(PasswordTooShort()))
  {
    if password == "" || |password| < MIN_PASSWORD_LENGTH then Some(ValidationError(PasswordTooShort())) else None
  }

  /** validate: the e-mail first, then the password; the first failure is the one raised. */
  function Validate(c: Credentials): (r: Option<ValidationError>)
    ensures r == None <==> EmailPatternMatch(c.email) && |c.password| >= MIN_PASSWORD_LENGTH
    ensures !EmailPatternMatch(c.email) ==> r == Some(ValidationError(INVALID_EMAIL))
  {
    match CheckEmail(c.email)
    case Some(e) => Some(e)
    case None => CheckPassword(c.password)
  }

  predicate Valid(c: Credentials) { Validate(c) == None }

  /** Construction: the dataclass's `__post_init__` runs validate on every new value. */
  function NewCredentials(email: string, password: string, username: Option<string> := None): (r: Result<Credentials, ValidationError>)
    ensures r.Ok? <==> EmailPatternMatch(email) && |password| >= MIN_PASSWORD_LENGTH
    ensures r.Ok? ==> r.value == Credentials(email, password, username) && Valid(r.value)
    ensures !EmailPatternMatch(email) ==> r == Err(ValidationError(INVALID_EMAIL))
    ensures EmailPatternMatch(email) && |password| < MIN_PASSWORD_LENGTH ==> r == Err(ValidationError(PasswordTooShort()))
  {
    var c := Credentials(email, password, username);
    match Validate(c)
    case Some(e) => Err(e)
    case None => Ok(c)
  }

  /** Empty fields never pass; the length bound sits exactly at eight characters. */
  lemma ConstructionBounds(email: string, username: Option<string>)
    ensures NewCredentials("", "12345678", username).Err?
    ensures NewCredentials(email, "", username).Err?
    ensures EmailPatternMatch(email) ==> NewCredentials(email, "12345678", username).Ok?
    ensures NewCredentials(email, "1234567", username).Err?
  {
    assert !MatchesAddress("") by { assert IndexOf("", '@') == -1; }
  }

  lemma PasswordTooShortText()
    ensures PasswordTooShort() == "Password must be at least 8 characters long"
  {
    assert IntToString(8) == "8";
  }

  lemma ConstructionExamples()
    ensures NewCredentials("a@b.co", "12345678").Ok?
    ensures NewCredentials("not-an-email", "12345678") == Err(ValidationError(INVALID_EMAIL))
    ensures NewCredentials("a@b.co", "short") == Err(ValidationError(PasswordTooShort()))
  {
    EmailPatternAccepts();
    EmailPatternRejects();
  }

  function RenderOptional(s: Option<string>): string {
    match s
    case None => "None"
    case Some(v) => v
  }

  /** __str__: the e-mail and username, with the password always shown as four stars. */
  function ToString(c: Credentials): (r: string)
    ensures EndsWith(r, "password='****')")
  {
    "Credentials(email='" + c.email + "', username='" + RenderOptional(c.username) + "', password='****')"
  }

  /** The rendering does not depend on the password. */
  lemma ToStringHidesPassword(c: Credentials, other: string)
    ensures ToString(c) == ToString(c.(password := other))
  {
  }
}
