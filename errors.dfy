/** The error taxonomy: one error value with a message, a status code and a
    context map, and a kind that carries the fields particular to each Go
    error type (`ValidationError`, `AuthenticationError`, ...). */
module Errors {
  import opened Wrappers
  import Decimal

  /** The values the Go context maps hold (`interface{}`), as far as the
      library ever puts them there. */
  datatype ContextValue =
    | Str(s: string)
    | Int(n: int)
    | FieldErrors(errors: map<string, seq<string>>)

  /** What distinguishes the Go error types; each arm holds that type's own
      fields. A connection timeout is a `NetworkError` too. */
  datatype Kind =
    | ValidationKind(errors: map<string, seq<string>>)
    | AuthenticationKind
    | AccountSuspendedKind(reason: string)
    | SubscriptionKind(errorType: string)
    | RateLimitKind(retryAfter: int, limit: int, remaining: int, reset: int)
    | NetworkKind(url: string)
    | HTTPKind(url: string, responseBody: string)

  const ValidationTag := "validation_error"
  const AuthenticationTag := "authentication_error"
  const SuspendedTag := "account_suspended"
  const SubscriptionTag := "subscription_error"
  const RateLimitTag := "rate_limit_exceeded"
  const NetworkTag := "network_error"
  const TimeoutTag := "connection_timeout"
  const HTTPTag := "http_error"

  /** `BaseError` with the kind-specific fields; `contextMap` is `None` where
      Go leaves `ContextMap` nil. */
  datatype PoodleError = PoodleError(
    message: string,
    code: int,
    contextMap: Option<map<string, ContextValue>>,
    kind: Kind)
  {
    /** `Error()`: the message, except that a validation error with an empty
        message reads "Validation failed". */
    function Error(): (r: string)
      ensures kind.ValidationKind? && message == "" ==> r == "Validation failed"
      ensures !(kind.ValidationKind? && message == "") ==> r == message
    {
      if kind.ValidationKind? && message == "" then "Validation failed" else message
    }

    /** `StatusCode()`. */
    function StatusCode(): int {
      code
    }

    /** `Context()`: the stored map, or an empty one when there is none. */
    function Context(): (ctx: map<string, ContextValue>)
      ensures contextMap.None? ==> ctx == map[]
      ensures contextMap.Some? ==> ctx == contextMap.value
    {
      if contextMap.Some? then contextMap.value else map[]
    }

    /** The `error_type` entry of the context, or "" when it has none. */
    function ErrorType(): string {
      var ctx := Context();
      if "error_type" in ctx && ctx["error_type"].Str? then ctx["error_type"].s else ""
    }

    /** The invariant every constructor below establishes: the context holds
        exactly the `error_type` tag of the kind and one entry per typed
        field, equal to that field. */
    predicate Coherent() {
      contextMap.Some? &&
      var ctx := contextMap.value;
      match kind
      case ValidationKind(errors) =>
        ctx == map["error_type" := Str(ValidationTag), "errors" := FieldErrors(errors)]
      case AuthenticationKind =>
        ctx == map["error_type" := Str(AuthenticationTag)]
      case AccountSuspendedKind(reason) =>
        ctx == map["error_type" := Str(SuspendedTag), "reason" := Str(reason)]
      case SubscriptionKind(errorType) =>
        ctx == map["error_type" := Str(SubscriptionTag), "subscription_type" := Str(errorType)]
      case RateLimitKind(retryAfter, limit, remaining, reset) =>
        ctx == map["error_type" := Str(RateLimitTag), "retry_after" := Int(retryAfter),
                   "limit" := Int(limit), "remaining" := Int(remaining), "reset" := Int(reset)]
      case NetworkKind(url) =>
        || ctx == map["error_type" := Str(NetworkTag), "url" := Str(url)]
        || (&& ctx.Keys == {"error_type", "timeout", "url"}
            && ctx["error_type"] == Str(TimeoutTag) && ctx["timeout"].Int?
            && ctx["url"] == Str(url))
      case HTTPKind(url, responseBody) =>
        ctx == map["error_type" := Str(HTTPTag), "url" := Str(url),
                   "response_body" := Str(responseBody)]
    }
  }

  /** The Go error types of the package. */
  datatype GoType =
    | ValidationError | AuthenticationError | AccountSuspendedError | SubscriptionError
    | RateLimitError | NetworkError | HTTPError

  /** The Go type an error value stands for. */
  function TypeName(k: Kind): GoType {
    match k
    case ValidationKind(_) => ValidationError
    case AuthenticationKind => AuthenticationError
    case AccountSuspendedKind(_) => AccountSuspendedError
    case SubscriptionKind(_) => SubscriptionError
    case RateLimitKind(_, _, _, _) => RateLimitError
    case NetworkKind(_) => NetworkError
    case HTTPKind(_, _) => HTTPError
  }

  /** Programmatic inspection by `error_type` is sound: for coherent errors
      the tag determines the Go error type. */
  lemma TagDeterminesType(e1: PoodleError, e2: PoodleError)
    requires e1.Coherent() && e2.Coherent()
    requires e1.ErrorType() == e2.ErrorType()
    ensures TypeName(e1.kind) == TypeName(e2.kind)
  {
  }

  function NewValidationError(message: string, errors: map<string, seq<string>>): (e: PoodleError)
    ensures e.code == 400 && e.kind == ValidationKind(errors) && e.message == message
    ensures e.Coherent() && e.ErrorType() == ValidationTag
    ensures e.Error() == if message == "" then "Validation failed" else message
  {
    PoodleError(message, 400,
      Some(map["error_type" := Str(ValidationTag), "errors" := FieldErrors(errors)]),
      ValidationKind(errors))
  }

  /** `message` when it is not empty, `default` otherwise. */
  function OrDefault(message: string, default: string): (r: string)
    ensures message != "" ==> r == message
    ensures message == "" ==> r == default
  {
    if message == "" then default else message
  }

  function NewAuthenticationError(message: string): (e: PoodleError)
    ensures e.code == 401 && e.kind == AuthenticationKind
    ensures e.message == OrDefault(message, "Invalid or missing API key")
    ensures e.Coherent() && e.ErrorType() == AuthenticationTag && e.Error() != ""
  {
    PoodleError(OrDefault(message, "Invalid or missing API key"), 401,
      Some(map["error_type" := Str(AuthenticationTag)]), AuthenticationKind)
  }

  function NewAccountSuspendedError(message: string, reason: string): (e: PoodleError)
    ensures e.code == 403 && e.kind == AccountSuspendedKind(reason)
    ensures e.message == OrDefault(message, "Account suspended")
    ensures e.Coherent() && e.ErrorType() == SuspendedTag && e.Error() != ""
  {
    PoodleError(OrDefault(message, "Account suspended"), 403,
      Some(map["error_type" := Str(SuspendedTag), "reason" := Str(reason)]),
      AccountSuspendedKind(reason))
  }

  function NewSubscriptionError(message: string, errorType: string): (e: PoodleError)
    ensures e.code == 402 && e.kind == SubscriptionKind(errorType)
    ensures e.message == OrDefault(message, "Subscription error")
    ensures e.Coherent() && e.ErrorType() == SubscriptionTag && e.Error() != ""
  {
    PoodleError(OrDefault(message, "Subscription error"), 402,
      Some(map["error_type" := Str(SubscriptionTag), "subscription_type" := Str(errorType)]),
      SubscriptionKind(errorType))
  }

  /** The message a rate-limit error gets when the API gives none. */
  function RetryMessage(retryAfter: int): string {
    "Rate limit exceeded. Retry after " + Decimal.FormatInt(retryAfter) + " seconds."
  }

  /** The default rate-limit message carries the wait time in a form that
      parses back to it. */
  lemma RetryMessageCarriesSeconds(retryAfter: int)
    requires Decimal.IsInt64(retryAfter)
    ensures var m := RetryMessage(retryAfter); var head := "Rate limit exceeded. Retry after ";
      && |m| == |head| + |Decimal.FormatInt(retryAfter)| + |" seconds."|
      && m[..|head|] == head
      && Decimal.ParseInt(m[|head|..|m| - |" seconds."|]) == Some(retryAfter)
  {
    var head := "Rate limit exceeded. Retry after ";
    var digits := Decimal.FormatInt(retryAfter);
    var m := RetryMessage(retryAfter);
    assert m == head + digits + " seconds.";
    assert m[|head|..|m| - |" seconds."|] == digits;
    Decimal.ParseFormat(retryAfter);
  }

  function NewRateLimitError(message: string, retryAfter: int, limit: int, remaining: int, reset: int): (e: PoodleError)
    ensures e.code == 429 && e.kind == RateLimitKind(retryAfter, limit, remaining, reset)
    ensures e.message == OrDefault(message, RetryMessage(retryAfter))
    ensures e.Coherent() && e.ErrorType() == RateLimitTag && e.Error() != ""
  {
    PoodleError(OrDefault(message, RetryMessage(retryAfter)), 429,
      Some(map["error_type" := Str(RateLimitTag), "retry_after" := Int(retryAfter),
               "limit" := Int(limit), "remaining" := Int(remaining), "reset" := Int(reset)]),
      RateLimitKind(retryAfter, limit, remaining, reset))
  }

  function NewNetworkError(message: string, url: string): (e: PoodleError)
    ensures e.code == 0 && e.kind == NetworkKind(url)
    ensures e.message == OrDefault(message, "Network error occurred")
    ensures e.Coherent() && e.ErrorType() == NetworkTag && e.Error() != ""
  {
    PoodleError(OrDefault(message, "Network error occurred"), 0,
      Some(map["error_type" := Str(NetworkTag), "url" := Str(url)]), NetworkKind(url))
  }

  /** A `NetworkError` reporting that the request timed out after `timeout`
      seconds. */
  function NewConnectionTimeoutError(timeout: int, url: string): (e: PoodleError)
    ensures e.code == 408 && e.kind == NetworkKind(url)
    ensures e.message == "Connection timeout after " + Decimal.FormatInt(timeout) + " seconds"
    ensures e.Coherent() && e.ErrorType() == TimeoutTag
    ensures e.Context()["timeout"] == Int(timeout)
  {
    PoodleError("Connection timeout after " + Decimal.FormatInt(timeout) + " seconds", 408,
      Some(map["error_type" := Str(TimeoutTag), "timeout" := Int(timeout), "url" := Str(url)]),
      NetworkKind(url))
  }

  function HTTPMessage(statusCode: int): string {
    "HTTP " + Decimal.FormatInt(statusCode) + " error"
  }

  function NewHTTPError(statusCode: int, message: string, url: string, responseBody: string): (e: PoodleError)
    ensures e.code == statusCode && e.kind == HTTPKind(url, responseBody)
    ensures e.message == OrDefault(message, HTTPMessage(statusCode))
    ensures e.Coherent() && e.ErrorType() == HTTPTag && e.Error() != ""
  {
    PoodleError(OrDefault(message, HTTPMessage(statusCode)), statusCode,
      Some(map["error_type" := Str(HTTPTag), "url" := Str(url), "response_body" := Str(responseBody)]),
      HTTPKind(url, responseBody))
  }
}
