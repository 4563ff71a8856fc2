/**
 * CredentialsValidator of credentials_validator.py: the bounded retry loop
 * of authenticate. Each call of _try_authentication is an outcome the
 * caller supplies, `outcomes(attempt)` for attempt 1, 2, ...; the browser
 * interaction behind it is not modelled, only the test on the URL it ends
 * on. Sleeps between attempts are counted rather than performed.
 */
module Authentication {
  import opened Wrappers
  import opened Text
  import opened UserCredentials
  import Security
  import AppState

  /** How one _try_authentication call ends: on a page, or with an exception. */
  datatype TryOutcome =
    | Landed(url: string)
    | ElementNotFound(message: string)
    | Unexpected(message: string)

  /** The success test of _try_authentication: the URL reached does not contain "sign_in". */
  predicate Succeeds(o: TryOutcome) {
    o.Landed? && !Contains(o.url, "sign_in")
  }

  /** AuthenticationError, or the masking error raised before any attempt. */
  datatype AuthError = AuthenticationError(message: string) | MaskingFailed(error: Security.MaskError)

  function FailureMessage(maxAttempts: int): string {
    "Authentication failed after " + IntToString(maxAttempts) + " attempts"
  }

  /** Some attempt among 1..maxAttempts succeeds. */
  predicate SomeAttemptSucceeds(outcomes: nat -> TryOutcome, maxAttempts: int) {
    exists a: nat :: 1 <= a <= maxAttempts && Succeeds(outcomes(a))
  }

  class CredentialsValidator {
    const webDriver: AppState.Driver
    const maxAttempts: int
    const delay: int

    constructor (webDriver: AppState.Driver, maxAttempts: int := 3, delay: int := 1)
      ensures this.webDriver == webDriver && this.maxAttempts == maxAttempts && this.delay == delay
    {
      this.webDriver := webDriver;
      this.maxAttempts := maxAttempts;
      this.delay := delay;
    }

    /**
     * authenticate: the credentials are masked first (`loggedEmail` is the
     * only form of the address that is logged); then the attempts run.
     */
    method Authenticate(credentials: Credentials, outcomes: nat -> TryOutcome)
      returns (result: Result<bool, AuthError>, tries: nat, sleeps: nat, loggedEmail: Option<string>)
      ensures Security.MaskCredentials(credentials.email, credentials.password).Err? ==>
        && result == Err(MaskingFailed(Security.MaskCredentials(credentials.email, credentials.password).error))
        && tries == 0 && sleeps == 0 && loggedEmail == None
      ensures Security.MaskCredentials(credentials.email, credentials.password).Ok? ==>
        && loggedEmail == Some(Security.MaskEmail(credentials.email).value)
        && (result == Ok(true) <==> SomeAttemptSucceeds(outcomes, maxAttempts))
        && (result.Ok? ==> result.value && 1 <= tries && Succeeds(outcomes(tries)))
        && (forall a :: 1 <= a < tries ==> !Succeeds(outcomes(a)))
        && (result.Err? ==> result == Err(AuthenticationError(FailureMessage(maxAttempts))))
        && (result.Err? ==> tries == if maxAttempts <= 0 then 0 else maxAttempts)
        && sleeps == if tries == 0 then 0 else tries - 1
    {
      var masked := Security.MaskCredentials(credentials.email, credentials.password);
      if masked.Err? {
        return Err(MaskingFailed(masked.error)), 0, 0, None;
      }
      loggedEmail := Some(masked.value.0);
      var succeeded;
      succeeded, tries, sleeps := Attempts(outcomes);
      if succeeded {
        result := Ok(true);
      } else {
        result := Err(AuthenticationError(FailureMessage(maxAttempts)));
      }
    }

    /**
     * The `while attempt <= self.max_attempts` loop: it stops at the first
     * success; a failed test and a raised exception both count as a failed
     * attempt; a sleep comes before each retry and none after the last attempt.
     */
    method Attempts(outcomes: nat -> TryOutcome) returns (succeeded: bool, tries: nat, sleeps: nat)
      ensures succeeded <==> SomeAttemptSucceeds(outcomes, maxAttempts)
      ensures succeeded ==> 1 <= tries <= maxAttempts && Succeeds(outcomes(tries))
      ensures forall a :: 1 <= a < tries ==> !Succeeds(outcomes(a))
      ensures !succeeded ==> tries == if maxAttempts <= 0 then 0 else maxAttempts
      ensures sleeps == if tries == 0 then 0 else tries - 1
    {
      tries, sleeps := 0, 0;
      var attempt := 1;
      while attempt <= maxAttempts
        invariant 1 <= attempt && (maxAttempts >= 1 ==> attempt <= maxAttempts + 1)
        invariant maxAttempts < 1 ==> attempt == 1
        invariant tries == attempt - 1
        invariant sleeps == if attempt == 1 then 0 else if attempt <= maxAttempts then attempt - 1 else attempt - 2
        invariant forall a :: 1 <= a < attempt ==> !Succeeds(outcomes(a))
        decreases maxAttempts - attempt
      {
        tries := tries + 1;
        if Succeeds(outcomes(attempt)) {
          return true, tries, sleeps;
        }
        attempt := attempt + 1;
        if attempt <= maxAttempts {
          sleeps := sleeps + 1;
        }
      }
      succeeded := false;
    }
  }

  /** Credentials that passed construction always mask: their address has exactly one "@". */
  lemma ValidCredentialsMask(c: Credentials)
    requires Valid(c)
    ensures Security.MaskCredentials(c.email, c.password).Ok?
  {
    AcceptedEmailShape(c.email);
    var i: nat, e: nat :| AcceptedAt(c.email, i, e);
    Security.MaskEmailSingleAt(c.email, i);
  }

  lemma FailureMessageDefault()
    ensures FailureMessage(3) == "Authentication failed after 3 attempts"
  {
    assert IntToString(3) == "3";
  }
}
