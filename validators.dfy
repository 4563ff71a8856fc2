/**
 * CredentialsValidator of validators.py: static checks over a configuration
 * dictionary. Each raising check returns a Result whose error is the
 * CredentialsValidationError it raises; validate_credentials turns that
 * into the `(success, message)` pair and never fails.
 *
 * The e-mail pattern written out in validate_email is the same regular
 * expression as Credentials.EMAIL_PATTERN, so it is UserCredentials.EmailPatternMatch.
 */
module Validators {
  import opened Wrappers
  import opened Text
  import opened EnvVars
  import Security
  import UserCredentials

  const MIN_PASSWORD_LENGTH: nat := 8

  const REQUIRED_ENV_VARS: seq<string> := ["MAIL_ADDRESS", "PASSWORD", "USERNAME", "LOCAL_REPO_PATH", "KATA_FILE_NAME"]

  datatype CredentialsValidationError = CredentialsValidationError(message: string)

  const INVALID_EMAIL: string := "Invalid email format"

  function PasswordTooShort(): string {
    "Password must be at least " + IntToString(MIN_PASSWORD_LENGTH) + " characters long"
  }

  /** validate_email: True for a matching address, the error otherwise. */
  function ValidateEmail(email: string): (r: Result<bool, CredentialsValidationError>)
    ensures r.Ok? <==> UserCredentials.EmailPatternMatch(email)
    ensures r.Ok? ==> r.value
    ensures r.Err? ==> r.error.message == INVALID_EMAIL
  {
    if email == "" || !UserCredentials.EmailPatternMatch(email) then Err(CredentialsValidationError(INVALID_EMAIL))
    else Ok(true)
  }

  /** validate_password: True when the password has at least eight characters. */
  function ValidatePassword(password: string): (r: Result<bool, CredentialsValidationError>)
    ensures r.Ok? <==> |password| >= MIN_PASSWORD_LENGTH
    ensures r.Ok? ==> r.value
    ensures r.Err? ==> r.error.message == PasswordTooShort()
  {
    if password == "" || |password| < MIN_PASSWORD_LENGTH then Err(CredentialsValidationError(PasswordTooShort()))
    else Ok(true)
  }

  function MissingVarsMessage(missing: seq<string>): string {
    "Missing required environment variables: " + Join(missing, ", ")
  }

  /**
   * validate_env_vars: every required key must hold a non-empty value;
   * only then are the address and the password checked, in that order.
   */
  function ValidateEnvVars(config: Env): (r: Result<bool, CredentialsValidationError>)
    ensures r.Ok? <==>
      && (forall k :: k in REQUIRED_ENV_VARS ==> Present(config, k))
      && UserCredentials.EmailPatternMatch(ValueOf(config, "MAIL_ADDRESS"))
      && |ValueOf(config, "PASSWORD")| >= MIN_PASSWORD_LENGTH
    ensures r.Ok? ==> r.value
    ensures MissingKeys(config, REQUIRED_ENV_VARS) != [] ==>
      r == Err(CredentialsValidationError(MissingVarsMessage(MissingKeys(config, REQUIRED_ENV_VARS))))
    ensures MissingKeys(config, REQUIRED_ENV_VARS) == [] && !UserCredentials.EmailPatternMatch(ValueOf(config, "MAIL_ADDRESS")) ==>
      r == Err(CredentialsValidationError(INVALID_EMAIL))
    ensures && MissingKeys(config, REQUIRED_ENV_VARS) == []
            && UserCredentials.EmailPatternMatch(ValueOf(config, "MAIL_ADDRESS"))
            && |ValueOf(config, "PASSWORD")| < MIN_PASSWORD_LENGTH
            ==> r == Err(CredentialsValidationError(PasswordTooShort()))
  {
    var missing := MissingKeys(config, REQUIRED_ENV_VARS);
    if missing != [] then
      assert missing[0] in missing;
      Err(CredentialsValidationError(MissingVarsMessage(missing)))
    else
      assert "MAIL_ADDRESS" in REQUIRED_ENV_VARS && "PASSWORD" in REQUIRED_ENV_VARS;
      match ValidateEmail(config["MAIL_ADDRESS"].value)
      case Err(e) => Err(e)
      case Ok(_) =>
        match ValidatePassword(config["PASSWORD"].value)
        case Err(e) => Err(e)
        case Ok(_) => Ok(true)
  }

  /** mask_sensitive_data: first and last two characters kept, stars between; four or fewer all stars. */
  function MaskSensitiveData(data: string): (r: string)
    ensures |r| == |data|
    ensures |data| <= 4 ==> forall k :: 0 <= k < |r| ==> r[k] == '*'
    ensures |data| > 4 ==>
      && r[..2] == data[..2]
      && r[|r| - 2..] == data[|data| - 2..]
      && forall k :: 2 <= k < |data| - 2 ==> r[k] == '*'
  {
    if data == "" then ""
    else if |data| > 4 then PySlice(data, 0, 2) + Stars(|data| - 4) + PySlice(data, -2, |data|)
    else Stars(|data|)
  }

  /** The two maskers agree: mask_sensitive_data is mask_password with two visible characters. */
  lemma MaskSensitiveDataIsMaskPassword(data: string)
    ensures MaskSensitiveData(data) == Security.MaskPassword(data, 2)
  {
  }

  /** validate_credentials: `(True, None)` exactly when validate_env_vars succeeds, else `(False, message)`. */
  function ValidateCredentials(config: Env): (r: (bool, Option<string>))
    ensures r.0 <==> ValidateEnvVars(config).Ok?
    ensures r.0 ==> r.1 == None
    ensures !r.0 ==> r.1 == Some("Credentials validation failed: " + ValidateEnvVars(config).error.message)
  {
    match ValidateEnvVars(config)
    case Ok(_) => (true, None)
    case Err(e) => (false, Some("Credentials validation failed: " + e.message))
  }

  /** A configuration with every key present still fails on a bad address before the password is looked at. */
  lemma EmailCheckedBeforePassword(config: Env)
    requires forall k :: k in REQUIRED_ENV_VARS ==> Present(config, k)
    requires !UserCredentials.EmailPatternMatch(ValueOf(config, "MAIL_ADDRESS"))
    ensures ValidateCredentials(config) == (false, Some("Credentials validation failed: " + INVALID_EMAIL))
  {
    NoneMissing(config, REQUIRED_ENV_VARS);
  }
}
