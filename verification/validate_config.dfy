/**
 * The deployment check script: four sections over the environment, each a
 * pass/fail verdict, and an exit code. The status lines the script prints
 * are not modelled; the advisory checks that only print are kept as
 * predicates so that their irrelevance to the verdict can be stated.
 */
module ValidateConfig {
  import opened Wrappers
  import opened Text
  import Config

  type Env = Config.Env

  function Var(env: Env, name: string, default: string): string {
    Config.GetEnv(env, name, default)
  }

  /** The variables the GitHub section requires. */
  const GitHubVariables: seq<string> := ["GITHUB_TOKEN", "GITHUB_REPO", "GITHUB_WEBHOOK_SECRET"]

  /** `validate_github_config`: token, repository and secret are all set. */
  function ValidateGitHub(env: Env): (r: bool)
    ensures r <==> forall k :: 0 <= k < |GitHubVariables| ==> Var(env, GitHubVariables[k], "") != ""
  {
    var hasToken := Var(env, GitHubVariables[0], "") != "";
    var hasRepo := Var(env, GitHubVariables[1], "") != "";
    var hasSecret := Var(env, GitHubVariables[2], "") != "";
    hasToken && hasRepo && hasSecret
  }

  /** The advisory checks the GitHub section prints. */
  predicate TokenFormatOk(env: Env) {
    StartsWith(Var(env, "GITHUB_TOKEN", ""), "ghp_")
  }

  predicate RepoFormatOk(env: Env) {
    ContainsChar(Var(env, "GITHUB_REPO", ""), '/')
  }

  predicate SecretLengthOk(env: Env) {
    |Var(env, "GITHUB_WEBHOOK_SECRET", "")| >= 32
  }

  /**
   * Replacing a set GitHub variable by any other non-empty value (which may
   * flip its format or length check) leaves the verdict unchanged.
   */
  lemma GitHubAdvisoryOnly(env: Env, name: string, value: string)
    requires name in GitHubVariables
    requires Var(env, name, "") != "" && value != ""
    ensures ValidateGitHub(env[name := value]) == ValidateGitHub(env)
  {
    var env' := env[name := value];
    forall k | 0 <= k < |GitHubVariables|
      ensures (Var(env', GitHubVariables[k], "") != "") == (Var(env, GitHubVariables[k], "") != "")
    {
    }
  }

  /** A short token without the `ghp_` prefix fails its format check and still passes. */
  lemma BadTokenFormatStillPasses(env: Env)
    requires Var(env, "GITHUB_REPO", "") != "" && Var(env, "GITHUB_WEBHOOK_SECRET", "") != ""
    ensures !TokenFormatOk(env["GITHUB_TOKEN" := "abc"])
    ensures ValidateGitHub(env["GITHUB_TOKEN" := "abc"])
  {
    var env' := env["GITHUB_TOKEN" := "abc"];
    assert Var(env', "GITHUB_TOKEN", "") == "abc";
    assert Var(env', "GITHUB_TOKEN", "")[0] == 'a';
  }

  /**
   * `validate_ai_config`: the lowered provider (unset reads as "") selects the
   * key that must be set; any other provider fails.
   */
  function ValidateAI(env: Env): (r: bool)
    ensures r <==>
      (Lower(Var(env, "AI_PROVIDER", "")) == "gemini" && Var(env, "GEMINI_API_KEY", "") != "")
      || (Lower(Var(env, "AI_PROVIDER", "")) == "openai" && Var(env, "OPENAI_API_KEY", "") != "")
  {
    var provider := Lower(Var(env, "AI_PROVIDER", ""));
    var validProvider := provider in ["gemini", "openai"];
    if provider == "gemini" then validProvider && Var(env, "GEMINI_API_KEY", "") != ""
    else if provider == "openai" then validProvider && Var(env, "OPENAI_API_KEY", "") != ""
    else false
  }

  /** The advisory OpenAI key check. */
  predicate OpenAIKeyFormatOk(env: Env) {
    StartsWith(Var(env, "OPENAI_API_KEY", ""), "sk-")
  }

  /** Any non-empty OpenAI key does, whatever its prefix. */
  lemma OpenAIKeyFormatAdvisory(env: Env, key: string)
    requires Var(env, "OPENAI_API_KEY", "") != "" && key != ""
    ensures ValidateAI(env["OPENAI_API_KEY" := key]) == ValidateAI(env)
  {
    var env' := env["OPENAI_API_KEY" := key];
    assert Var(env', "AI_PROVIDER", "") == Var(env, "AI_PROVIDER", "");
    assert Var(env', "GEMINI_API_KEY", "") == Var(env, "GEMINI_API_KEY", "");
  }

  /**
   * Where AI_PROVIDER is set, the script's AI verdict is exactly the absence
   * of provider and key errors from `Config.validate` on the same environment.
   */
  lemma AIAgreesWithConfig(env: Env, port: int)
    requires "AI_PROVIDER" in env
    ensures ValidateAI(env) <==>
      var errors := Config.Validate(Config.Read(env, port)).1;
      Config.UnknownProvider !in errors && Config.MissingGeminiKey !in errors && Config.MissingOpenAIKey !in errors
  {
    Config.UnsetIsFalsy(env, "GEMINI_API_KEY");
    Config.UnsetIsFalsy(env, "OPENAI_API_KEY");
  }

  /**
   * Where AI_PROVIDER is unset the two disagree: the application falls back
   * to Gemini, the script reads the empty provider and fails the section.
   */
  lemma UnsetProviderDisagrees(env: Env, port: int)
    requires "AI_PROVIDER" !in env
    ensures !ValidateAI(env)
    ensures Config.Read(env, port).aiProvider == "gemini"
  {
    Config.DefaultProviderIsGemini(env, port);
  }

  /** `validate_email_config`: email is optional, so the section always passes. */
  function ValidateEmail(env: Env): (r: bool)
    ensures r
  {
    var hasResend := Var(env, "RESEND_API_KEY", "") != "";
    var hasEmail := Var(env, "OWNER_EMAIL", "") != "";
    if !hasResend && !hasEmail then true
    else true
  }

  const LogLevels: seq<string> := ["DEBUG", "INFO", "WARNING", "ERROR", "CRITICAL"]

  /** A port number in the range a TCP port can take. */
  predicate PortInRange(n: int) {
    1 <= n <= 65535
  }

  /**
   * `validate_app_config`: the upper-cased log level is one of five, and
   * PORT is an integer `int()` accepts and in range; a ValueError fails.
   */
  function ValidateApp(env: Env): (r: bool)
    ensures r <==>
      Upper(Var(env, "LOG_LEVEL", "INFO")) in LogLevels
      && ParseInt(Var(env, "PORT", "5000")).Some?
      && PortInRange(ParseInt(Var(env, "PORT", "5000")).value)
  {
    var validLog := Upper(Var(env, "LOG_LEVEL", "INFO")) in LogLevels;
    var validPort :=
      match ParseInt(Var(env, "PORT", "5000"))
      case None => false
      case Some(n) => 1 <= n <= 65535;
    validLog && validPort
  }

  /** The log level is compared case-insensitively. */
  lemma LogLevelCaseInsensitive(env: Env, level: string)
    requires "LOG_LEVEL" in env
    requires Upper(level) == Upper(env["LOG_LEVEL"])
    ensures ValidateApp(env["LOG_LEVEL" := level]) == ValidateApp(env)
  {
    var env' := env["LOG_LEVEL" := level];
    assert Var(env', "PORT", "5000") == Var(env, "PORT", "5000");
  }

  /** `int("5000")`, the default port. */
  lemma DefaultPortParses()
    ensures ParseInt("5000") == Some(5000)
  {
    assert Strip("5000") == "5000" by {
      StripOfUnpadded("5000");
    }
    assert WellFormedDigits("5000");
    var s := "5000";
    assert s[..3] == "500" && "500"[..2] == "50" && "50"[..1] == "5";
    assert DigitsValue("5") == 5;
    assert DigitsValue("50") == 50;
    assert DigitsValue("500") == 500;
    assert DigitsValue("5000") == 5000;
  }

  /** With neither LOG_LEVEL nor PORT set, the defaults pass the section. */
  lemma DefaultAppPasses(env: Env)
    requires "LOG_LEVEL" !in env && "PORT" !in env
    ensures ValidateApp(env)
  {
    DefaultPortParses();
    assert Upper("INFO") == "INFO";
    assert LogLevels[1] == "INFO";
  }

  /** A port of 0, or of 65536, is out of range and fails the section. */
  lemma PortBounds(env: Env, n: int)
    requires "PORT" in env && ParseInt(env["PORT"]) == Some(n)
    ensures !PortInRange(n) ==> !ValidateApp(env)
    ensures PortInRange(n) ==> (ValidateApp(env) <==> Upper(Var(env, "LOG_LEVEL", "INFO")) in LogLevels)
  {
  }

  /** `main`: exit code 0 when every section passes, 1 otherwise. */
  function Main(env: Env): (code: int)
    ensures code == 0 || code == 1
    ensures code == 0 <==> ValidateGitHub(env) && ValidateAI(env) && ValidateApp(env)
  {
    var githubValid := ValidateGitHub(env);
    var aiValid := ValidateAI(env);
    var emailValid := ValidateEmail(env);
    var appValid := ValidateApp(env);
    if githubValid && aiValid && emailValid && appValid then 0 else 1
  }

  /** The email settings never decide the exit code. */
  lemma EmailNeverDecides(env: Env, env': Env)
    requires forall name :: name != "RESEND_API_KEY" && name != "OWNER_EMAIL" ==>
      Config.Lookup(env, name) == Config.Lookup(env', name)
    ensures Main(env') == Main(env)
  {
    assert Config.Lookup(env, "GITHUB_TOKEN") == Config.Lookup(env', "GITHUB_TOKEN");
    assert Config.Lookup(env, "GITHUB_REPO") == Config.Lookup(env', "GITHUB_REPO");
    assert Config.Lookup(env, "GITHUB_WEBHOOK_SECRET") == Config.Lookup(env', "GITHUB_WEBHOOK_SECRET");
    assert Config.Lookup(env, "AI_PROVIDER") == Config.Lookup(env', "AI_PROVIDER");
    assert Config.Lookup(env, "GEMINI_API_KEY") == Config.Lookup(env', "GEMINI_API_KEY");
    assert Config.Lookup(env, "OPENAI_API_KEY") == Config.Lookup(env', "OPENAI_API_KEY");
    assert Config.Lookup(env, "LOG_LEVEL") == Config.Lookup(env', "LOG_LEVEL");
    assert Config.Lookup(env, "PORT") == Config.Lookup(env', "PORT");
  }
}
