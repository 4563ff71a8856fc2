/**
 * Configuration of configuration.py once its dictionary is loaded: the
 * environment file loader's map (given, not read) is validated once at
 * construction and then only looked up. A key may be absent, present
 * without a value (`None`) or present with a string.
 */
module Configuration {
  import opened Wrappers
  import opened Text
  import opened EnvVars

  const REQUIRED_VARS: seq<string> := ["MAIL_ADDRESS", "PASSWORD", "USERNAME", "LOCAL_REPO_PATH", "KATA_FILE_NAME"]

  datatype ConfigurationError = ConfigurationError(message: string)

  /** What `int(self.get('PUSH_STEP', '5'))` can raise. */
  datatype PushStepError =
    | NotAString            // TypeError: the key is there without a value
    | InvalidLiteral(text: string)  // ValueError: the text is not a base-ten integer

  /** A Configuration object: its `_config` dictionary. */
  datatype Configuration = Configuration(values: Env)

  /** Every required key holds a non-empty string: what construction guarantees. */
  predicate Validated(c: Configuration) {
    forall k :: k in REQUIRED_VARS ==> Present(c.values, k)
  }

  function MissingVarsMessage(missing: seq<string>): string {
    "Missing required environment variables: " + Join(missing, ", ")
  }

  /**
   * `__init__` over a loaded dictionary: _validate_configuration raises
   * ConfigurationError naming the required keys whose value is absent,
   * None or empty, in the order of REQUIRED_VARS.
   */
  function NewConfiguration(values: Env): (r: Result<Configuration, ConfigurationError>)
    ensures r.Ok? <==> forall k :: k in REQUIRED_VARS ==> Present(values, k)
    ensures r.Ok? ==> r.value.values == values && Validated(r.value)
    ensures r.Err? ==> r.error == ConfigurationError(MissingVarsMessage(MissingKeys(values, REQUIRED_VARS)))
  {
    NoneMissing(values, REQUIRED_VARS);
    var missing := MissingKeys(values, REQUIRED_VARS);
    if missing != [] then Err(ConfigurationError(MissingVarsMessage(missing)))
    else Ok(Configuration(values))
  }

  /** `get(key, default)`: the default exactly when the key is absent, else what is stored (possibly None). */
  function Get(c: Configuration, key: string, default: Option<string>): (r: Option<string>)
    ensures key !in c.values ==> r == default
    ensures key in c.values ==> r == c.values[key]
  {
    if key in c.values then c.values[key] else default
  }

  /** `__getitem__`: ConfigurationError for an absent key, else the stored value. */
  function Lookup(c: Configuration, key: string): (r: Result<Option<string>, ConfigurationError>)
    ensures r.Err? <==> key !in c.values
    ensures r.Err? ==> r.error == ConfigurationError("Configuration key not found: " + key)
    ensures r.Ok? ==> forall d :: r.value == Get(c, key, d)
  {
    if key !in c.values then Err(ConfigurationError("Configuration key not found: " + key))
    else Ok(c.values[key])
  }

  /** A required key of a validated configuration is found, with a non-empty string. */
  lemma LookupRequired(c: Configuration, key: string)
    requires Validated(c) && key in REQUIRED_VARS
    ensures Lookup(c, key).Ok? && Lookup(c, key).value.Some? && Lookup(c, key).value.value != ""
    ensures Lookup(c, key).value == Some(ValueOf(c.values, key))
  {
  }

  function MailAddress(c: Configuration): (r: Result<Option<string>, ConfigurationError>)
    ensures Validated(c) ==> r == Ok(Some(ValueOf(c.values, "MAIL_ADDRESS"))) && ValueOf(c.values, "MAIL_ADDRESS") != ""
    ensures r.Err? <==> "MAIL_ADDRESS" !in c.values
  {
    LookupRequiredWhenValidated(c, "MAIL_ADDRESS");
    Lookup(c, "MAIL_ADDRESS")
  }

  function Password(c: Configuration): (r: Result<Option<string>, ConfigurationError>)
    ensures Validated(c) ==> r == Ok(Some(ValueOf(c.values, "PASSWORD"))) && ValueOf(c.values, "PASSWORD") != ""
    ensures r.Err? <==> "PASSWORD" !in c.values
  {
    LookupRequiredWhenValidated(c, "PASSWORD");
    Lookup(c, "PASSWORD")
  }

  function Username(c: Configuration): (r: Result<Option<string>, ConfigurationError>)
    ensures Validated(c) ==> r == Ok(Some(ValueOf(c.values, "USERNAME"))) && ValueOf(c.values, "USERNAME") != ""
    ensures r.Err? <==> "USERNAME" !in c.values
  {
    LookupRequiredWhenValidated(c, "USERNAME");
    Lookup(c, "USERNAME")
  }

  function LocalRepoPath(c: Configuration): (r: Result<Option<string>, ConfigurationError>)
    ensures Validated(c) ==> r == Ok(Some(ValueOf(c.values, "LOCAL_REPO_PATH"))) && ValueOf(c.values, "LOCAL_REPO_PATH") != ""
    ensures r.Err? <==> "LOCAL_REPO_PATH" !in c.values
  {
    LookupRequiredWhenValidated(c, "LOCAL_REPO_PATH");
    Lookup(c, "LOCAL_REPO_PATH")
  }

  function KataFileName(c: Configuration): (r: Result<Option<string>, ConfigurationError>)
    ensures Validated(c) ==> r == Ok(Some(ValueOf(c.values, "KATA_FILE_NAME"))) && ValueOf(c.values, "KATA_FILE_NAME") != ""
    ensures r.Err? <==> "KATA_FILE_NAME" !in c.values
  {
    LookupRequiredWhenValidated(c, "KATA_FILE_NAME");
    Lookup(c, "KATA_FILE_NAME")
  }

  lemma LookupRequiredWhenValidated(c: Configuration, key: string)
    requires key in REQUIRED_VARS
    ensures Validated(c) ==> Lookup(c, key) == Ok(Some(ValueOf(c.values, key))) && ValueOf(c.values, key) != ""
  {
    if Validated(c) {
      LookupRequired(c, key);
    }
  }

  /**
   * push_step: `int(self.get('PUSH_STEP', '5'))`, so 5 when the key is
   * absent, a TypeError when it is there without a value, and the parse of
   * the stored text otherwise.
   */
  function PushStep(c: Configuration): (r: Result<int, PushStepError>)
    ensures "PUSH_STEP" !in c.values ==> r == Ok(5)
    ensures "PUSH_STEP" in c.values && c.values["PUSH_STEP"].None? ==> r == Err(NotAString)
    ensures "PUSH_STEP" in c.values && c.values["PUSH_STEP"].Some? ==>
      match ParseInt(c.values["PUSH_STEP"].value)
      case Some(n) => r == Ok(n)
      case None => r == Err(InvalidLiteral(c.values["PUSH_STEP"].value))
  {
    assert ParseInt("5") == Some(5) by {
      assert IntToString(5) == "5";
      ParseIntOfIntToString(5);
    }
    match Get(c, "PUSH_STEP", Some("5"))
    case None => Err(NotAString)
    case Some(text) =>
      match ParseInt(text)
      case None => Err(InvalidLiteral(text))
      case Some(n) => Ok(n)
  }

  /** A push step written as `str(n)` is read back as `n`. */
  lemma PushStepRoundTrip(c: Configuration, n: int)
    requires "PUSH_STEP" in c.values && c.values["PUSH_STEP"] == Some(IntToString(n))
    ensures PushStep(c) == Ok(n)
  {
    ParseIntOfIntToString(n);
  }

  /** Text that starts with a letter once stripped ("five") is a ValueError. */
  lemma PushStepRejectsWord(c: Configuration, text: string)
    requires "PUSH_STEP" in c.values && c.values["PUSH_STEP"] == Some(text)
    requires Trimmed(text) && |text| > 0 && IsLetter(text[0])
    ensures PushStep(c) == Err(InvalidLiteral(text))
  {
    IntStripUnpadded(text);
  }
}
