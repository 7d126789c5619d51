/** The public client of client.go: its constructors, which refuse an
    invalid configuration, the send shortcuts built on `Send`, the copy
    that `GetConfig` hands out and the debug switch. The read-write lock
    that guards each call is not modelled: each call here is one atomic
    step. */
module Facade {
  import opened Wrappers
  import opened Errors
  import opened Responses
  import opened Emails
  import opened Configuration
  import opened Transport

  /** `*Client`: the configuration and the HTTP client built on it. */
  class Client {
    var config: Config
    var httpClient: HTTPClient

    /** The client and its HTTP client share one configuration object, so a
        change through the client is seen by every later request. */
    predicate Valid()
      reads this, httpClient
    {
      httpClient.config == config
    }

    /** `NewClientWithConfig`: the library panics on a configuration that
        does not validate, so only a valid one may be passed. The object
        itself is kept, not copied. */
    constructor WithConfig(config: Config, network: Network)
      requires config.Value().Validate().None?
      ensures Valid() && this.config == config && httpClient.network == network
      ensures fresh(httpClient)
    {
      this.config := config;
      httpClient := new HTTPClient(config, network);
    }

    /** `NewClient`: the defaults with `apiKey`; the defaults validate once
        a key is set, so a non-empty key is all the library demands. */
    constructor (apiKey: string, network: Network)
      requires apiKey != ""
      ensures Valid() && config.Value() == Defaults().(apiKey := apiKey)
      ensures config.Value().Validate().None? && httpClient.network == network
      ensures fresh(config) && fresh(httpClient)
    {
      var c := new Config();
      c.apiKey := apiKey;
      DefaultsNeedOnlyKey(apiKey);
      config := c;
      httpClient := new HTTPClient(c, network);
    }

    /** `NewClientFromEnv`: the configuration read from the environment,
        which must validate for the library not to panic. */
    constructor FromEnv(env: map<string, string>, parseDuration: string -> Option<int>, network: Network)
      requires FromEnvironment(env, parseDuration).Validate().None?
      ensures Valid() && config.Value() == FromEnvironment(env, parseDuration)
      ensures httpClient.network == network
      ensures fresh(config) && fresh(httpClient)
    {
      var c := Config.FromEnv(env, parseDuration);
      config := c;
      httpClient := new HTTPClient(c, network);
    }

    /** `Send`: the outcome of sending the email's current fields under the
        client's current configuration. */
    method Send(email: Email) returns (r: Result<EmailResponse, PoodleError>)
      requires Valid()
      ensures r == SendOutcome(email.Value(), config.Value(), httpClient.network)
    {
      r := httpClient.SendEmail(email);
    }

    /** `SendHTML`: sending a fresh HTML email. */
    method SendHTML(from: string, to: string, subject: string, html: string)
      returns (r: Result<EmailResponse, PoodleError>)
      requires Valid()
      ensures r == SendOutcome(Message(from, to, subject, html, ""), config.Value(), httpClient.network)
    {
      var email := new Email.WithHTML(from, to, subject, html);
      r := Send(email);
    }

    /** `SendText`: sending a fresh plain-text email. */
    method SendText(from: string, to: string, subject: string, text: string)
      returns (r: Result<EmailResponse, PoodleError>)
      requires Valid()
      ensures r == SendOutcome(Message(from, to, subject, "", text), config.Value(), httpClient.network)
    {
      var email := new Email.WithText(from, to, subject, text);
      r := Send(email);
    }

    /** `SendWithBoth`: sending a fresh email with both bodies. */
    method SendWithBoth(from: string, to: string, subject: string, html: string, text: string)
      returns (r: Result<EmailResponse, PoodleError>)
      requires Valid()
      ensures r == SendOutcome(Message(from, to, subject, html, text), config.Value(), httpClient.network)
    {
      var email := new Email.WithBoth(from, to, subject, html, text);
      r := Send(email);
    }

    /** `GetConfig`: a new object holding the same values, so that changing
        it leaves the client alone. */
    method GetConfig() returns (copy: Config)
      ensures fresh(copy) && copy.Value() == config.Value()
    {
      copy := new Config.FromSettings(config.Value());
    }

    /** `SetDebug`: only the debug flag of the shared configuration
        changes. */
    method SetDebug(debug: bool)
      requires Valid()
      modifies config
      ensures Valid() && config.Value() == old(config.Value()).(debug := debug)
    {
      config.debug := debug;
    }

    /** `IsDebug` */
    method IsDebug() returns (debug: bool)
      ensures debug == config.Value().debug
    {
      debug := config.debug;
    }
  }

  /** The debug test of the library: a new client is not in debug mode, and
      each `SetDebug` is read back by `IsDebug` and reaches the HTTP
      client's configuration. */
  method DebugSequence(apiKey: string, network: Network) returns (initial: bool, afterOn: bool, afterOff: bool)
    requires apiKey != ""
    ensures !initial && afterOn && !afterOff
  {
    var client := new Client(apiKey, network);
    initial := client.IsDebug();
    client.SetDebug(true);
    afterOn := client.IsDebug();
    assert client.httpClient.config.debug;
    client.SetDebug(false);
    afterOff := client.IsDebug();
  }

  /** Two `GetConfig` calls give two distinct objects with the same values,
      and changing one of them changes neither the other nor the client. */
  method CopiesAreIsolated(client: Client, apiKey: string) returns (first: Config, second: Config)
    ensures first != second && first.apiKey == apiKey
    ensures second.Value() == client.config.Value() == old(client.config.Value())
  {
    first := client.GetConfig();
    second := client.GetConfig();
    first.apiKey := apiKey;
  }
}
