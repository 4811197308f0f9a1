/**
 * Application settings read from the environment when the `Config` class is
 * loaded, and the checks `Config.validate` makes on them.
 */
module Config {
  import opened Wrappers
  import opened Text
  import AIService

  /** The process environment: variable names to values. */
  type Env = map<string, string>

  /** `os.getenv(name)`: the value, or None when the variable is unset. */
  function Lookup(env: Env, name: string): (r: Option<string>)
    ensures r.Some? <==> name in env
    ensures r.Some? ==> r.value == env[name]
  {
    if name in env then Some(env[name]) else None
  }

  /** `os.getenv(name, default)`. */
  function GetEnv(env: Env, name: string, default: string): (r: string)
    ensures name !in env ==> r == default
    ensures name in env ==> r == env[name]
  {
    Lookup(env, name).GetOr(default)
  }

  /** Truthiness does not care whether an unset variable reads as None or as "". */
  lemma UnsetIsFalsy(env: Env, name: string)
    ensures Truthy(Lookup(env, name)) <==> GetEnv(env, name, "") != ""
  {
  }

  /** The class attributes of `Config`. */
  datatype Settings = Settings(
    githubToken: string,
    webhookSecret: string,
    aiProvider: string,
    geminiKey: Option<string>,
    openaiKey: Option<string>,
    openaiModel: string,
    geminiModel: string,
    resendKey: Option<string>,
    ownerEmail: Option<string>,
    logLevel: string,
    flaskEnv: string,
    port: int)

  /** The attributes once PORT has been read as `port`. */
  function Read(env: Env, port: int): Settings {
    Settings(
      githubToken := GetEnv(env, "GITHUB_TOKEN", ""),
      webhookSecret := GetEnv(env, "GITHUB_WEBHOOK_SECRET", ""),
      aiProvider := Lower(GetEnv(env, "AI_PROVIDER", DefaultProvider)),
      geminiKey := Lookup(env, "GEMINI_API_KEY"),
      openaiKey := Lookup(env, "OPENAI_API_KEY"),
      openaiModel := GetEnv(env, "OPENAI_MODEL", "gpt-3.5-turbo"),
      geminiModel := GetEnv(env, "GEMINI_MODEL", "gemini-pro"),
      resendKey := Lookup(env, "RESEND_API_KEY"),
      ownerEmail := Lookup(env, "OWNER_EMAIL"),
      logLevel := GetEnv(env, "LOG_LEVEL", "INFO"),
      flaskEnv := GetEnv(env, "FLASK_ENV", "production"),
      port := port)
  }

  const DefaultProvider: string := "gemini"

  /**
   * Loading the class: every attribute from its variable or its default, the
   * provider lowered. `int(PORT)` raising makes the load fail (None).
   */
  function Load(env: Env): (r: Option<Settings>)
    ensures r.Some? <==> ParseInt(GetEnv(env, "PORT", "5000")).Some?
    ensures r.Some? ==> r.value == Read(env, ParseInt(GetEnv(env, "PORT", "5000")).value)
  {
    match ParseInt(GetEnv(env, "PORT", "5000"))
    case None => None
    case Some(port) => Some(Read(env, port))
  }

  /** With PORT unset the settings always load, on port 5000. */
  lemma DefaultPortLoads(env: Env)
    requires "PORT" !in env
    ensures Load(env).Some? && Load(env).value.port == 5000
  {
    ParseIntOfIntToString(5000);
    assert IntToString(5000) == "5000";
  }

  /** A PORT holding an integer's decimal text loads on exactly that port. */
  lemma LoadPortRoundTrip(env: Env, n: int)
    requires "PORT" in env && env["PORT"] == IntToString(n)
    ensures Load(env).Some? && Load(env).value.port == n
  {
    ParseIntOfIntToString(n);
  }

  /** With no AI_PROVIDER set, the provider is Gemini. */
  lemma DefaultProviderIsGemini(env: Env, port: int)
    requires "AI_PROVIDER" !in env
    ensures AIService.SelectProvider(Read(env, port).aiProvider) == Success(AIService.Gemini)
  {
    LowerOfLowercase(DefaultProvider);
  }

  /** The errors `validate` can report. */
  datatype ConfigError =
    | MissingToken
    | MissingSecret
    | UnknownProvider
    | MissingGeminiKey
    | MissingOpenAIKey
    | UnlistedOpenAIModel
    | UnlistedGeminiModel

  /** The allow-lists `validate` checks the model names against. */
  const OpenAIModels: seq<string> := ["gpt-3.5-turbo", "gpt-4", "gpt-4-turbo", "gpt-4o", "gpt-4o-mini"]
  const GeminiModels: seq<string> := ["gemini-pro", "gemini-1.5-pro", "gemini-1.5-flash"]

  /** The text `validate` appends for each error. */
  function Message(e: ConfigError): string {
    match e
    case MissingToken => "GITHUB_TOKEN is required"
    case MissingSecret => "GITHUB_WEBHOOK_SECRET is required"
    case UnknownProvider => "AI_PROVIDER must be either 'gemini' or 'openai'"
    case MissingGeminiKey => "GEMINI_API_KEY is required when AI_PROVIDER is 'gemini'"
    case MissingOpenAIKey => "OPENAI_API_KEY is required when AI_PROVIDER is 'openai'"
    case UnlistedOpenAIModel => "OPENAI_MODEL must be one of: " + Join(OpenAIModels, ", ")
    case UnlistedGeminiModel => "GEMINI_MODEL must be one of: " + Join(GeminiModels, ", ")
  }

  /** The error list when `cond` holds: one error, or none. */
  function When(cond: bool, e: ConfigError): (r: seq<ConfigError>)
    ensures e in r <==> cond
    ensures |r| <= 1 && forall x :: x in r ==> x == e
  {
    if cond then [e] else []
  }

  /** The errors that concern the AI settings, in the order they are appended. */
  function AIErrors(s: Settings): (r: seq<ConfigError>)
    ensures MissingToken !in r && MissingSecret !in r
    ensures UnknownProvider in r <==> s.aiProvider != "gemini" && s.aiProvider != "openai"
    ensures MissingGeminiKey in r <==> s.aiProvider == "gemini" && !Truthy(s.geminiKey)
    ensures MissingOpenAIKey in r <==> s.aiProvider == "openai" && !Truthy(s.openaiKey)
    ensures UnlistedOpenAIModel in r <==> s.aiProvider == "openai" && s.openaiModel !in OpenAIModels
    ensures UnlistedGeminiModel in r <==> s.aiProvider == "gemini" && s.geminiModel !in GeminiModels
    ensures UnknownProvider in r ==> r == [UnknownProvider]
  {
    if s.aiProvider != "gemini" && s.aiProvider != "openai" then [UnknownProvider]
    else if s.aiProvider == "gemini" then
      When(!Truthy(s.geminiKey), MissingGeminiKey) + When(s.geminiModel !in GeminiModels, UnlistedGeminiModel)
    else
      When(!Truthy(s.openaiKey), MissingOpenAIKey) + When(s.openaiModel !in OpenAIModels, UnlistedOpenAIModel)
  }

  /**
   * `Config.validate`: the errors in the order the checks append them, and
   * whether there were none. The messages are `Message` of each.
   */
  function Validate(s: Settings): (r: (bool, seq<ConfigError>))
    ensures r.0 <==> r.1 == []
    ensures MissingToken in r.1 <==> s.githubToken == ""
    ensures MissingSecret in r.1 <==> s.webhookSecret == ""
    ensures UnknownProvider in r.1 <==> s.aiProvider != "gemini" && s.aiProvider != "openai"
    ensures MissingGeminiKey in r.1 <==> s.aiProvider == "gemini" && !Truthy(s.geminiKey)
    ensures MissingOpenAIKey in r.1 <==> s.aiProvider == "openai" && !Truthy(s.openaiKey)
    ensures UnlistedOpenAIModel in r.1 <==> s.aiProvider == "openai" && s.openaiModel !in OpenAIModels
    ensures UnlistedGeminiModel in r.1 <==> s.aiProvider == "gemini" && s.geminiModel !in GeminiModels
  {
    var errors := When(s.githubToken == "", MissingToken) + When(s.webhookSecret == "", MissingSecret) + AIErrors(s);
    (|errors| == 0, errors)
  }

  /** The messages of a list of errors, as `validate` returns them. */
  function Messages(errors: seq<ConfigError>): (r: seq<string>)
    ensures |r| == |errors|
    ensures forall i :: 0 <= i < |errors| ==> r[i] == Message(errors[i])
  {
    seq(|errors|, i requires 0 <= i < |errors| => Message(errors[i]))
  }

  /**
   * A provider that is neither Gemini nor OpenAI adds the provider error and
   * no key or model error: the only errors are the missing token and secret
   * and the provider itself, in that order.
   */
  lemma UnknownProviderErrors(s: Settings)
    requires s.aiProvider != "gemini" && s.aiProvider != "openai"
    ensures Validate(s).1 ==
      When(s.githubToken == "", MissingToken) + When(s.webhookSecret == "", MissingSecret) + [UnknownProvider]
  {
  }

  /** Each missing credential adds exactly one error, ahead of the AI errors. */
  lemma MissingCredentialsComeFirst(s: Settings)
    requires s.githubToken == "" && s.webhookSecret == ""
    ensures Validate(s).1[..2] == [MissingToken, MissingSecret]
    ensures MissingToken !in Validate(s).1[1..] && MissingSecret !in Validate(s).1[2..]
  {
    assert Validate(s).1 == [MissingToken, MissingSecret] + AIErrors(s);
    assert Validate(s).1[2..] == AIErrors(s);
  }

  /** At most four errors: the provider error excludes every key and model error. */
  lemma AtMostFourErrors(s: Settings)
    ensures |Validate(s).1| <= 4
  {
  }

  /**
   * A configuration that validates names a provider the AI service accepts,
   * and carries that provider's key.
   */
  lemma ValidSelectsProvider(s: Settings)
    requires Validate(s).0
    ensures AIService.SelectProvider(s.aiProvider).Success?
    ensures AIService.SelectProvider(s.aiProvider) == Success(AIService.Gemini) ==> Truthy(s.geminiKey)
    ensures AIService.SelectProvider(s.aiProvider) == Success(AIService.OpenAI) ==> Truthy(s.openaiKey)
  {
    assert UnknownProvider !in Validate(s).1;
    assert MissingGeminiKey !in Validate(s).1;
    assert MissingOpenAIKey !in Validate(s).1;
  }

  /**
   * The provider is lowered at load, so two environments that differ only in
   * the case of AI_PROVIDER load the same settings and so validate alike.
   */
  lemma ProviderCaseInsensitive(env: Env, env': Env, port: int)
    requires forall name :: name != "AI_PROVIDER" ==> Lookup(env, name) == Lookup(env', name)
    requires ("AI_PROVIDER" in env) == ("AI_PROVIDER" in env')
    requires "AI_PROVIDER" in env ==> Lower(env["AI_PROVIDER"]) == Lower(env'["AI_PROVIDER"])
    ensures Read(env, port) == Read(env', port)
  {
    assert Lookup(env, "GITHUB_TOKEN") == Lookup(env', "GITHUB_TOKEN");
    assert Lookup(env, "GITHUB_WEBHOOK_SECRET") == Lookup(env', "GITHUB_WEBHOOK_SECRET");
    assert Lookup(env, "GEMINI_API_KEY") == Lookup(env', "GEMINI_API_KEY");
    assert Lookup(env, "OPENAI_API_KEY") == Lookup(env', "OPENAI_API_KEY");
    assert Lookup(env, "OPENAI_MODEL") == Lookup(env', "OPENAI_MODEL");
    assert Lookup(env, "GEMINI_MODEL") == Lookup(env', "GEMINI_MODEL");
    assert Lookup(env, "RESEND_API_KEY") == Lookup(env', "RESEND_API_KEY");
    assert Lookup(env, "OWNER_EMAIL") == Lookup(env', "OWNER_EMAIL");
    assert Lookup(env, "LOG_LEVEL") == Lookup(env', "LOG_LEVEL");
    assert Lookup(env, "FLASK_ENV") == Lookup(env', "FLASK_ENV");
  }

  /** A provider name in capitals selects the same provider as the lower-case one. */
  lemma ShoutedProviderIsOpenAI(env: Env, port: int)
    requires "AI_PROVIDER" in env && env["AI_PROVIDER"] == "OpenAI"
    ensures AIService.SelectProvider(Read(env, port).aiProvider) == Success(AIService.OpenAI)
  {
    var p := env["AI_PROVIDER"];
    assert Lower(p)[0] == 'o' && Lower(p)[1] == 'p' && Lower(p)[2] == 'e';
    assert Lower(p)[3] == 'n' && Lower(p)[4] == 'a' && Lower(p)[5] == 'i';
    assert Lower(p) == "openai";
  }

  /** `has_email_configured`: `bool(RESEND_API_KEY and OWNER_EMAIL)`. */
  function HasEmailConfigured(s: Settings): (r: bool)
    ensures r <==> Truthy(s.resendKey) && Truthy(s.ownerEmail)
  {
    var conjunction := if !Truthy(s.resendKey) then s.resendKey else s.ownerEmail;
    Truthy(conjunction)
  }

  /** `get_valid_openai_models`: the list written out a second time. */
  function GetValidOpenAIModels(): (r: seq<string>)
    ensures "gpt-3.5-turbo" in r
  {
    ["gpt-3.5-turbo", "gpt-4", "gpt-4-turbo", "gpt-4o", "gpt-4o-mini"]
  }

  /** `get_valid_gemini_models`. */
  function GetValidGeminiModels(): (r: seq<string>)
    ensures "gemini-pro" in r
  {
    ["gemini-pro", "gemini-1.5-pro", "gemini-1.5-flash"]
  }

  /**
   * The lists the getters return are the ones `validate` checks: for the
   * selected provider, the model error appears exactly when the model is not
   * in the getter's list.
   */
  lemma ModelListsAgree(s: Settings)
    ensures s.aiProvider == "openai" ==>
      (UnlistedOpenAIModel in Validate(s).1 <==> s.openaiModel !in GetValidOpenAIModels())
    ensures s.aiProvider == "gemini" ==>
      (UnlistedGeminiModel in Validate(s).1 <==> s.geminiModel !in GetValidGeminiModels())
  {
    assert GetValidOpenAIModels() == OpenAIModels;
    assert GetValidGeminiModels() == GeminiModels;
  }

  /** The default models pass their allow-lists. */
  lemma DefaultModelsValid(env: Env, port: int)
    requires "OPENAI_MODEL" !in env && "GEMINI_MODEL" !in env
    ensures UnlistedOpenAIModel !in Validate(Read(env, port)).1
    ensures UnlistedGeminiModel !in Validate(Read(env, port)).1
  {
    assert OpenAIModels[0] == "gpt-3.5-turbo";
    assert GeminiModels[0] == "gemini-pro";
  }
}
