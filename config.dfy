/**
 `Settings.__init__`: the program's configuration read from the process
 environment. Two API keys are required, looked up in a fixed order; the model
 name and the default headline limit fall back to built-in defaults.
 */
module Config {
  import opened Wrappers
  import opened Text

  /** The process environment after the `.env` file has been loaded into it. */
  type Environment = map<string, string>

  datatype Settings = Settings(
    firecrawlApiKey: string,
    geminiApiKey: string,
    geminiModel: string,
    defaultLimit: int)

  datatype ConfigError =
    /** The `RuntimeError` for a required variable that is not set, naming it. */
    | MissingVariable(name: string)
    /** The `ValueError` of `int()` for a `DEFAULT_LIMIT` that is not an integer. */
    | InvalidLimit(text: string)

  const FirecrawlKeyName: string := "FIRECRAWL_API_KEY"
  const GeminiKeyName: string := "GEMINI_API_KEY"
  const ModelName: string := "GEMINI_MODEL"
  const LimitName: string := "DEFAULT_LIMIT"

  const DefaultModel: string := "gemini-2.5-flash-preview-04-17"
  const DefaultLimitText: string := "5"

  /** `os.environ.get(key, default)`. */
  function Get(env: Environment, key: string, default: string): (v: string)
    ensures key in env ==> v == env[key]
    ensures key !in env ==> v == default
  {
    if key in env then env[key] else default
  }

  /** The steps of `Settings.__init__`, in the order the constructor takes them. */
  function LoadSettings(env: Environment): (r: Result<Settings, ConfigError>)
    ensures FirecrawlKeyName !in env ==> r == Err(MissingVariable(FirecrawlKeyName))
    ensures FirecrawlKeyName in env && GeminiKeyName !in env ==> r == Err(MissingVariable(GeminiKeyName))
    ensures r.Ok? <==>
      FirecrawlKeyName in env && GeminiKeyName in env &&
      (LimitName in env ==> ParseInt(env[LimitName]).Some?)
    ensures r.Ok? ==>
      && r.value.firecrawlApiKey == env[FirecrawlKeyName]
      && r.value.geminiApiKey == env[GeminiKeyName]
    ensures r.Ok? ==>
      r.value.geminiModel == if ModelName in env then env[ModelName] else DefaultModel
    ensures r.Ok? && LimitName !in env ==> r.value.defaultLimit == 5
    ensures r.Ok? && LimitName in env ==> ParseInt(env[LimitName]) == Some(r.value.defaultLimit)
    ensures r.Err? && r.error.InvalidLimit? ==> LimitName in env && r.error.text == env[LimitName]
  {
    assert ParseInt(DefaultLimitText) == Some(5) by {
      assert DefaultLimitText[..0] == [];
    }
    if FirecrawlKeyName !in env then Err(MissingVariable(FirecrawlKeyName))
    else if GeminiKeyName !in env then Err(MissingVariable(GeminiKeyName))
    else
      var firecrawlApiKey := env[FirecrawlKeyName];
      var geminiApiKey := env[GeminiKeyName];
      var geminiModel := Get(env, ModelName, DefaultModel);
      var limitText := Get(env, LimitName, DefaultLimitText);
      match ParseInt(limitText)
      case None => Err(InvalidLimit(limitText))
      case Some(n) => Ok(Settings(firecrawlApiKey, geminiApiKey, geminiModel, n))
  }

  /**
   The required keys are looked at before the optional ones: while a required
   key is missing, nothing the optional keys hold changes the outcome.
   */
  lemma RequiredBeforeOptional(env: Environment, key: string, value: string)
    requires FirecrawlKeyName !in env || GeminiKeyName !in env
    requires key == ModelName || key == LimitName
    ensures LoadSettings(env[key := value]) == LoadSettings(env)
    ensures LoadSettings(env).Err? && LoadSettings(env).error.MissingVariable?
  {
    var env' := env[key := value];
    assert FirecrawlKeyName in env' <==> FirecrawlKeyName in env;
    assert GeminiKeyName in env' <==> GeminiKeyName in env;
  }

  /** A `DEFAULT_LIMIT` written as `str(n)` configures the limit `n`. */
  lemma DefaultLimitFromDecimal(env: Environment, n: int)
    requires FirecrawlKeyName in env && GeminiKeyName in env
    requires LimitName in env && env[LimitName] == Decimal(n)
    ensures LoadSettings(env).Ok? && LoadSettings(env).value.defaultLimit == n
  {
    DecimalRoundTrip(n);
  }
}
