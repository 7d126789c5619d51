/** The client configuration of config.go: its defaults, the environment
    overlay of `NewConfigFromEnv`, the ordered checks of `Validate` and the
    User-Agent. Durations are whole nanoseconds, as Go's `time.Duration`. */
module Configuration {
  import opened Wrappers
  import opened Errors

  const Second: int := 1_000_000_000

  const DefaultBaseURL := "https://api.usepoodle.com"
  const DefaultTimeout: int := 30 * Second
  const DefaultConnectTimeout: int := 10 * Second
  const SDKVersion := "1.0.0"
  /** The User-Agent of every request: the library's name and version. */
  const UserAgent := "poodle-go/" + SDKVersion

  const ApiKeyVar := "POODLE_API_KEY"
  const BaseURLVar := "POODLE_BASE_URL"
  const TimeoutVar := "POODLE_TIMEOUT"
  const ConnectTimeoutVar := "POODLE_CONNECT_TIMEOUT"
  const DebugVar := "POODLE_DEBUG"

  const ApiKeyRequired := "API key is required"
  const BaseURLRequired := "Base URL is required"
  const TimeoutPositive := "Timeout must be greater than 0"
  const ConnectTimeoutPositive := "Connect timeout must be greater than 0"

  /** The message `Validate` reports under each of its four keys. */
  function FailureMessage(key: string): string {
    if key == "api_key" then ApiKeyRequired
    else if key == "base_url" then BaseURLRequired
    else if key == "timeout" then TimeoutPositive
    else ConnectTimeoutPositive
  }

  /** The value of a `Config`. */
  datatype Settings = Settings(
    apiKey: string,
    baseURL: string,
    timeout: int,
    connectTimeout: int,
    debug: bool)
  {
    /** The keys of the conditions this configuration breaks, in the order
        `Validate` checks them. */
    function Failures(): seq<string> {
      (if apiKey == "" then ["api_key"] else [])
      + (if baseURL == "" then ["base_url"] else [])
      + (if timeout <= 0 then ["timeout"] else [])
      + (if connectTimeout <= 0 then ["connect_timeout"] else [])
    }

    /** `Validate`: the first broken condition, as a `ValidationError` built
        as a literal (no status code, no context map) whose field errors
        hold that condition's key alone. */
    function Validate(): (r: Option<PoodleError>)
      ensures r.None? <==> apiKey != "" && baseURL != "" && timeout > 0 && connectTimeout > 0
      ensures r.Some? ==> && r.value.code == 0 && r.value.contextMap.None?
                          && r.value.kind.ValidationKind?
                          && |r.value.kind.errors| == 1
    {
      if apiKey == "" then Some(Rejection("api_key"))
      else if baseURL == "" then Some(Rejection("base_url"))
      else if timeout <= 0 then Some(Rejection("timeout"))
      else if connectTimeout <= 0 then Some(Rejection("connect_timeout"))
      else None
    }
  }

  /** The error `Validate` returns for the broken condition `key`. */
  function Rejection(key: string): PoodleError {
    PoodleError(FailureMessage(key), 0, None, ValidationKind(map[key := [FailureMessage(key)]]))
  }

  /** `Validate` reports exactly the first broken condition: nothing when
      none is broken, otherwise the first key of `Failures` with its
      message, both as the error's text and as its only field error. */
  lemma ValidateReportsFirstFailure(s: Settings)
    ensures s.Validate().None? <==> s.Failures() == []
    ensures s.Validate().Some? ==>
      var key := s.Failures()[0];
      && s.Validate().value.kind.errors == map[key := [FailureMessage(key)]]
      && s.Validate().value.Error() == FailureMessage(key)
  {
  }

  /** `NewConfig`: the library's defaults, no API key and debugging off. */
  function Defaults(): (s: Settings)
    ensures s.apiKey == "" && !s.debug
    ensures s.baseURL == "https://api.usepoodle.com"
    ensures s.timeout == 30 * 1_000_000_000 && s.connectTimeout == 10 * 1_000_000_000
  {
    Settings("", DefaultBaseURL, DefaultTimeout, DefaultConnectTimeout, false)
  }

  /** The defaults lack only an API key: `Validate` rejects them for that
      reason alone, and accepts them once a key is set. */
  lemma DefaultsNeedOnlyKey(apiKey: string)
    ensures Defaults().Failures() == ["api_key"]
    ensures Defaults().(apiKey := apiKey).Validate().None? <==> apiKey != ""
  {
  }

  /** `os.Getenv`: an unset variable reads as the empty string. */
  function Getenv(env: map<string, string>, name: string): string {
    if name in env then env[name] else ""
  }

  /** `strconv.ParseBool`. */
  function ParseBool(s: string): (r: Option<bool>)
    ensures r == Some(true) <==> s in {"1", "t", "T", "TRUE", "true", "True"}
    ensures r == Some(false) <==> s in {"0", "f", "F", "FALSE", "false", "False"}
  {
    if s == "1" || s == "t" || s == "T" || s == "TRUE" || s == "true" || s == "True" then Some(true)
    else if s == "0" || s == "f" || s == "F" || s == "FALSE" || s == "false" || s == "False" then Some(false)
    else None
  }

  /** A text variable: its value when it is set and not empty. */
  function TextOverride(value: string, default: string): string {
    if value != "" then value else default
  }

  /** A parsed variable: its parsed value when it is set, not empty and
      parses. */
  function ParsedOverride<T>(value: string, parse: string -> Option<T>, default: T): T {
    if value != "" && parse(value).Some? then parse(value).value else default
  }

  /** The configuration `NewConfigFromEnv` builds from the environment
      `env`; `parseDuration` stands for `time.ParseDuration`. */
  function FromEnvironment(env: map<string, string>, parseDuration: string -> Option<int>): (r: Settings)
    ensures r.apiKey != "" <==> Getenv(env, ApiKeyVar) != ""
    ensures r.baseURL != ""
  {
    var d := Defaults();
    Settings(
      TextOverride(Getenv(env, ApiKeyVar), d.apiKey),
      TextOverride(Getenv(env, BaseURLVar), d.baseURL),
      ParsedOverride(Getenv(env, TimeoutVar), parseDuration, d.timeout),
      ParsedOverride(Getenv(env, ConnectTimeoutVar), parseDuration, d.connectTimeout),
      ParsedOverride(Getenv(env, DebugVar), ParseBool, d.debug))
  }

  /** With none of the five variables set, the environment gives the
      defaults. */
  lemma EmptyEnvironment(env: map<string, string>, parseDuration: string -> Option<int>)
    requires ApiKeyVar !in env && BaseURLVar !in env && TimeoutVar !in env
    requires ConnectTimeoutVar !in env && DebugVar !in env
    ensures FromEnvironment(env, parseDuration) == Defaults()
  {
  }

  /** Each variable replaces its default exactly when it is set, not empty
      and, for durations and the debug flag, parses; otherwise the default
      stays. */
  lemma EnvironmentOverrides(env: map<string, string>, parseDuration: string -> Option<int>)
    ensures var s, d := FromEnvironment(env, parseDuration), Defaults();
      && (Getenv(env, ApiKeyVar) != "" ==> s.apiKey == env[ApiKeyVar])
      && (Getenv(env, ApiKeyVar) == "" ==> s.apiKey == d.apiKey)
      && (Getenv(env, BaseURLVar) != "" ==> s.baseURL == env[BaseURLVar])
      && (Getenv(env, BaseURLVar) == "" ==> s.baseURL == d.baseURL)
      && (var t := Getenv(env, TimeoutVar);
          (t != "" && parseDuration(t).Some? ==> s.timeout == parseDuration(t).value)
          && (t == "" || parseDuration(t).None? ==> s.timeout == d.timeout))
      && (var c := Getenv(env, ConnectTimeoutVar);
          (c != "" && parseDuration(c).Some? ==> s.connectTimeout == parseDuration(c).value)
          && (c == "" || parseDuration(c).None? ==> s.connectTimeout == d.connectTimeout))
      && (DebugVar in env && ParseBool(env[DebugVar]).Some? ==> s.debug == ParseBool(env[DebugVar]).value)
      && (DebugVar !in env || ParseBool(env[DebugVar]).None? ==> s.debug == d.debug)
  {
  }

  /** Setting one variable changes at most its own field. */
  lemma OverrideOnlyOwnField(env: map<string, string>, name: string, value: string,
                             parseDuration: string -> Option<int>)
    ensures var before, after := FromEnvironment(env, parseDuration), FromEnvironment(env[name := value], parseDuration);
      && (name != ApiKeyVar ==> after.apiKey == before.apiKey)
      && (name != BaseURLVar ==> after.baseURL == before.baseURL)
      && (name != TimeoutVar ==> after.timeout == before.timeout)
      && (name != ConnectTimeoutVar ==> after.connectTimeout == before.connectTimeout)
      && (name != DebugVar ==> after.debug == before.debug)
  {
    var env2 := env[name := value];
    assert name != ApiKeyVar ==> Getenv(env2, ApiKeyVar) == Getenv(env, ApiKeyVar);
    assert name != BaseURLVar ==> Getenv(env2, BaseURLVar) == Getenv(env, BaseURLVar);
    assert name != TimeoutVar ==> Getenv(env2, TimeoutVar) == Getenv(env, TimeoutVar);
    assert name != ConnectTimeoutVar ==> Getenv(env2, ConnectTimeoutVar) == Getenv(env, ConnectTimeoutVar);
    assert name != DebugVar ==> Getenv(env2, DebugVar) == Getenv(env, DebugVar);
  }

  /** The environment of the library's `NewClientFromEnv` test: key, base
      URL and `POODLE_DEBUG=true` are taken, the timeouts keep their
      defaults. */
  lemma EnvironmentExample(env: map<string, string>, key: string, url: string,
                           parseDuration: string -> Option<int>)
    requires key == "env_test_api_key_123" && url == "https://test.api.usepoodle.com"
    requires env == map[ApiKeyVar := key, BaseURLVar := url, DebugVar := "true"]
    ensures FromEnvironment(env, parseDuration) == Defaults().(apiKey := key, baseURL := url, debug := true)
  {
    assert TimeoutVar !in env && ConnectTimeoutVar !in env;
    assert ParseBool("true") == Some(true);
  }

  /** `*Config`: a configuration object the client and its HTTP client share. */
  class Config {
    var apiKey: string
    var baseURL: string
    var timeout: int
    var connectTimeout: int
    var debug: bool

    function Value(): Settings
      reads this
    {
      Settings(apiKey, baseURL, timeout, connectTimeout, debug)
    }

    /** `NewConfig` */
    constructor ()
      ensures Value() == Defaults()
    {
      apiKey, baseURL, timeout, connectTimeout, debug :=
        "", DefaultBaseURL, DefaultTimeout, DefaultConnectTimeout, false;
    }

    /** A `&Config{...}` literal with the given fields. */
    constructor FromSettings(s: Settings)
      ensures Value() == s
    {
      apiKey, baseURL, timeout, connectTimeout, debug :=
        s.apiKey, s.baseURL, s.timeout, s.connectTimeout, s.debug;
    }

    /** `NewConfigFromEnv`: the defaults, then each variable in turn. */
    static method FromEnv(env: map<string, string>, parseDuration: string -> Option<int>)
      returns (config: Config)
      ensures fresh(config) && config.Value() == FromEnvironment(env, parseDuration)
    {
      config := new Config();
      var apiKey := Getenv(env, ApiKeyVar);
      if apiKey != "" {
        config.apiKey := apiKey;
      }
      var baseURL := Getenv(env, BaseURLVar);
      if baseURL != "" {
        config.baseURL := baseURL;
      }
      var timeoutStr := Getenv(env, TimeoutVar);
      if timeoutStr != "" {
        var timeout := parseDuration(timeoutStr);
        if timeout.Some? {
          config.timeout := timeout.value;
        }
      }
      var connectTimeoutStr := Getenv(env, ConnectTimeoutVar);
      if connectTimeoutStr != "" {
        var connectTimeout := parseDuration(connectTimeoutStr);
        if connectTimeout.Some? {
          config.connectTimeout := connectTimeout.value;
        }
      }
      var debugStr := Getenv(env, DebugVar);
      if debugStr != "" {
        var debug := ParseBool(debugStr);
        if debug.Some? {
          config.debug := debug.value;
        }
      }
    }

    /** `GetUserAgent`: it reads no field, so every configuration gives the
        same one. */
    function GetUserAgent(): (ua: string)
      ensures ua == "poodle-go/1.0.0"
    {
      UserAgent
    }
  }
}
