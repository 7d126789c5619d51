/** The HTTP side of http.go: the request `SendEmail` builds, the mapping of
    transport failures, and the classification of the API's reply into a
    response or one typed error. The network itself is a parameter: which
    URLs a request can be created for, and what the round trip yields. */
module Transport {
  import opened Wrappers
  import opened Text
  import opened Decimal
  import opened Errors
  import opened Responses
  import opened Emails
  import opened Configuration

  /** Response headers, in the order received. */
  type Headers = seq<(string, string)>

  /** `resp.Header.Get(name)`: the value of the first header whose name
      equals `name` up to ASCII case, or "" when there is none. */
  function HeaderGet(headers: Headers, name: string): (v: string)
    ensures v != "" ==> exists i | 0 <= i < |headers| :: EqualFoldAscii(headers[i].0, name) && headers[i].1 == v
    ensures (forall i | 0 <= i < |headers| :: !EqualFoldAscii(headers[i].0, name)) ==> v == ""
  {
    if |headers| == 0 then ""
    else if EqualFoldAscii(headers[0].0, name) then headers[0].1
    else HeaderGet(headers[1..], name)
  }

  /** The header at `i` is the first whose name matches, so its value is
      the one found. */
  lemma {:induction false} HeaderGetAt(headers: Headers, i: nat, name: string)
    requires i < |headers| && EqualFoldAscii(headers[i].0, name)
    requires forall j | 0 <= j < i :: !EqualFoldAscii(headers[j].0, name)
    ensures HeaderGet(headers, name) == headers[i].1
  {
    if i > 0 {
      assert !EqualFoldAscii(headers[0].0, name);
      HeaderGetAt(headers[1..], i - 1, name);
    }
  }

  /** Header lookup does not depend on the letter case of the name asked
      for. */
  lemma {:induction false} HeaderGetIgnoresCase(headers: Headers, name1: string, name2: string)
    requires EqualFoldAscii(name1, name2)
    ensures HeaderGet(headers, name1) == HeaderGet(headers, name2)
  {
    if |headers| > 0 {
      HeaderGetIgnoresCase(headers[1..], name1, name2);
    }
  }

  /** A rate-limit header read as an integer: 0 when it is missing or is not
      a decimal 64-bit integer. */
  function IntHeader(headers: Headers, name: string): (n: int)
    ensures IsInt64(n)
    ensures ParseInt(HeaderGet(headers, name)).None? ==> n == 0
    ensures ParseInt(HeaderGet(headers, name)).Some? ==> n == ParseInt(HeaderGet(headers, name)).value
  {
    var text := HeaderGet(headers, name);
    if text != "" && ParseInt(text).Some? then ParseInt(text).value else 0
  }

  /** The fields of the API's JSON reply, as far as `encoding/json` could
      decode them; a field the reply lacks is its zero value. */
  datatype ApiBody = ApiBody(success: bool, message: string, error: string)

  /** `parseSuccessResponse`: the decoded reply as it is, or a network error
      when the body is not JSON. */
  function ParseSuccess(decoded: Option<ApiBody>): (r: Result<EmailResponse, PoodleError>)
    ensures decoded.Some? ==> r == Success(EmailResponse(decoded.value.success, decoded.value.message,
                                                           decoded.value.error))
    ensures decoded.None? ==> r.Failure? && r.error.kind == NetworkKind("")
                              && r.error.message == "Failed to parse response" && r.error.code == 0
                              && r.error.Coherent()
  {
    match decoded
    case None => Failure(NewNetworkError("Failed to parse response", ""))
    case Some(b) => Success(EmailResponse(b.success, b.message, b.error))
  }

  /** `parseValidationError`, for 400 and 422. */
  function ParseValidation(decoded: Option<ApiBody>): (e: PoodleError)
    ensures e.code == 400 && e.kind.ValidationKind? && e.Coherent()
    ensures decoded.None? ==> && e.message == "Validation failed"
                              && e.kind.errors == map["request" := ["Invalid request format"]]
    ensures decoded.Some? ==> && e.message == decoded.value.message
                              && "request" in e.kind.errors
                              && e.kind.errors["request"] == [decoded.value.message]
                              && ("details" in e.kind.errors <==> decoded.value.error != "")
                              && (decoded.value.error != "" ==> e.kind.errors["details"] == [decoded.value.error])
                              && e.kind.errors.Keys <= {"request", "details"}
  {
    match decoded
    case None => NewValidationError("Validation failed", map["request" := ["Invalid request format"]])
    case Some(b) =>
      var errors := map["request" := [b.message]];
      var errors := if b.error != "" then errors["details" := [b.error]] else errors;
      NewValidationError(b.message, errors)
  }

  /** `parseAuthenticationError`. */
  function ParseAuthentication(decoded: Option<ApiBody>): (e: PoodleError)
    ensures e.code == 401 && e.kind == AuthenticationKind && e.Coherent()
    ensures decoded.None? ==> e.message == "Invalid or missing API key"
    ensures decoded.Some? ==> e.message == OrDefault(decoded.value.message, "Invalid or missing API key")
  {
    match decoded
    case None => NewAuthenticationError("Invalid or missing API key")
    case Some(b) => NewAuthenticationError(b.message)
  }

  /** The subscription problem named by the first of "expired", "trial" and
      "limit" that the message contains. */
  function SubscriptionType(message: string): (t: string)
    ensures t in {"subscription_expired", "trial_limit_reached", "limit_reached", "unknown"}
  {
    if Contains(message, "expired") then "subscription_expired"
    else if Contains(message, "trial") then "trial_limit_reached"
    else if Contains(message, "limit") then "limit_reached"
    else "unknown"
  }

  /** The substring tests are ordered: an earlier word wins over a later
      one, and "unknown" means none of the three occurs. */
  lemma SubscriptionTypeOrder(message: string)
    ensures var t := SubscriptionType(message);
      && (t == "subscription_expired" <==> Contains(message, "expired"))
      && (t == "trial_limit_reached" <==> !Contains(message, "expired") && Contains(message, "trial"))
      && (t == "limit_reached" <==>
            !Contains(message, "expired") && !Contains(message, "trial") && Contains(message, "limit"))
      && (t == "unknown" <==>
            !Contains(message, "expired") && !Contains(message, "trial") && !Contains(message, "limit"))
  {
  }

  /** `parseSubscriptionError`. */
  function ParseSubscription(decoded: Option<ApiBody>): (e: PoodleError)
    ensures e.code == 402 && e.kind.SubscriptionKind? && e.Coherent()
    ensures decoded.None? ==> e.message == "Subscription error" && e.kind.errorType == "unknown"
    ensures decoded.Some? ==> && e.message == OrDefault(decoded.value.message, "Subscription error")
                              && e.kind.errorType == SubscriptionType(decoded.value.message)
  {
    match decoded
    case None => NewSubscriptionError("Subscription error", "unknown")
    case Some(b) => NewSubscriptionError(b.message, SubscriptionType(b.message))
  }

  /** `parseAccountSuspendedError`. */
  function ParseAccountSuspended(decoded: Option<ApiBody>): (e: PoodleError)
    ensures e.code == 403 && e.kind.AccountSuspendedKind? && e.Coherent()
    ensures decoded.None? ==> e.message == "Account suspended" && e.kind.reason == "unknown"
    ensures decoded.Some? ==> && e.message == OrDefault(decoded.value.message, "Account suspended")
                              && e.kind.reason == decoded.value.error
  {
    match decoded
    case None => NewAccountSuspendedError("Account suspended", "unknown")
    case Some(b) => NewAccountSuspendedError(b.message, b.error)
  }

  /** `parseRateLimitError`: the four counters come from the headers, a body
      that does not decode counts as one without a message. */
  function ParseRateLimit(headers: Headers, decoded: Option<ApiBody>): (e: PoodleError)
    ensures e.code == 429 && e.Coherent()
    ensures e.kind == RateLimitKind(IntHeader(headers, "retry-after"), IntHeader(headers, "ratelimit-limit"),
                                    IntHeader(headers, "ratelimit-remaining"), IntHeader(headers, "ratelimit-reset"))
    ensures var message := if decoded.Some? then decoded.value.message else "";
      e.message == OrDefault(message, RetryMessage(IntHeader(headers, "retry-after")))
  {
    var message := if decoded.Some? then decoded.value.message else "";
    var retryAfter := IntHeader(headers, "retry-after");
    NewRateLimitError(OrDefault(message, RetryMessage(retryAfter)), retryAfter,
                      IntHeader(headers, "ratelimit-limit"), IntHeader(headers, "ratelimit-remaining"),
                      IntHeader(headers, "ratelimit-reset"))
  }

  /** `parseGenericError`: the status code, the URL and the raw body, with
      the reply's message when it has one. */
  function ParseGeneric(status: int, body: string, decoded: Option<ApiBody>, url: string): (e: PoodleError)
    ensures e.code == status && e.kind == HTTPKind(url, body) && e.Coherent()
    ensures decoded.Some? && decoded.value.message != "" ==> e.message == decoded.value.message
    ensures !(decoded.Some? && decoded.value.message != "") ==> e.message == HTTPMessage(status)
  {
    var message := if decoded.Some? && decoded.value.message != "" then decoded.value.message
                   else HTTPMessage(status);
    NewHTTPError(status, message, url, body)
  }

  /** The status switch of `SendEmail`: only a 202 with a decodable body
      succeeds, and every failure is a coherent typed error. */
  function Classify(status: int, headers: Headers, body: string, decoded: Option<ApiBody>, url: string)
    : (r: Result<EmailResponse, PoodleError>)
    ensures r.Success? <==> status == 202 && decoded.Some?
    ensures r.Failure? ==> r.error.Coherent()
  {
    if status == 202 then ParseSuccess(decoded)
    else if status == 400 || status == 422 then Failure(ParseValidation(decoded))
    else if status == 401 then Failure(ParseAuthentication(decoded))
    else if status == 402 then Failure(ParseSubscription(decoded))
    else if status == 403 then Failure(ParseAccountSuspended(decoded))
    else if status == 429 then Failure(ParseRateLimit(headers, decoded))
    else Failure(ParseGeneric(status, body, decoded, url))
  }

  /** The Go error type each status is answered with. */
  function ExpectedType(status: int): GoType {
    if status == 400 || status == 422 then ValidationError
    else if status == 401 then AuthenticationError
    else if status == 402 then SubscriptionError
    else if status == 403 then AccountSuspendedError
    else if status == 429 then RateLimitError
    else HTTPError
  }

  /** The dispatch table, for success: 202 succeeds exactly when the body
      decodes, with the decoded fields unchanged, and a 202 whose body does
      not decode is a network error. */
  lemma ClassifySuccess(status: int, headers: Headers, body: string, decoded: Option<ApiBody>, url: string)
    ensures var r := Classify(status, headers, body, decoded, url);
      && (r.Success? <==> status == 202 && decoded.Some?)
      && (r.Success? ==> r.value == EmailResponse(decoded.value.success, decoded.value.message, decoded.value.error))
      && (status == 202 && decoded.None? ==> r.error.kind == NetworkKind(""))
  {
  }

  /** The dispatch table, for failure: every status other than 202 fails
      with the error type of the table, and with the status code itself for
      statuses outside the table. */
  lemma ClassifyFailure(status: int, headers: Headers, body: string, decoded: Option<ApiBody>, url: string)
    requires status != 202
    ensures var r := Classify(status, headers, body, decoded, url);
      && r.Failure?
      && TypeName(r.error.kind) == ExpectedType(status)
      && (ExpectedType(status) == HTTPError ==> r.error.code == status)
  {
    var r := Classify(status, headers, body, decoded, url);
    KindType(r.error.kind, status);
  }

  /** A kind built by the branch of `status` has the type of the table. */
  lemma KindType(k: Kind, status: int)
    requires status == 400 || status == 422 ==> k.ValidationKind?
    requires status == 401 ==> k.AuthenticationKind?
    requires status == 402 ==> k.SubscriptionKind?
    requires status == 403 ==> k.AccountSuspendedKind?
    requires status == 429 ==> k.RateLimitKind?
    requires ExpectedType(status) == HTTPError ==> k.HTTPKind?
    ensures TypeName(k) == ExpectedType(status)
  {
  }

  /** Every failure of the dispatch is coherent and carries the tag of its
      type, so a caller can tell the errors apart by their `error_type`. */
  lemma ClassifyFailureTagged(status: int, headers: Headers, body: string, decoded: Option<ApiBody>, url: string)
    requires status != 202
    ensures var r := Classify(status, headers, body, decoded, url);
      && r.Failure? && r.error.Coherent() && TagOf(r.error.kind) == r.error.ErrorType()
  {
    var r := Classify(status, headers, body, decoded, url);
    CoherentTag(r.error);
  }

  /** A coherent error carries the tag of its kind, except that a network
      error may instead carry the timeout tag. */
  lemma CoherentTag(e: PoodleError)
    requires e.Coherent()
    ensures e.ErrorType() == TagOf(e.kind) || (e.kind.NetworkKind? && e.ErrorType() == TimeoutTag)
  {
  }

  /** The `error_type` tag of each kind. */
  function TagOf(k: Kind): string {
    match k
    case ValidationKind(_) => ValidationTag
    case AuthenticationKind => AuthenticationTag
    case AccountSuspendedKind(_) => SuspendedTag
    case SubscriptionKind(_) => SubscriptionTag
    case RateLimitKind(_, _, _, _) => RateLimitTag
    case NetworkKind(_) => NetworkTag
    case HTTPKind(_, _) => HTTPTag
  }

  /** The headers of the library's rate-limit test give exactly their four
      numbers, whatever the case of the names. */
  lemma RateLimitHeadersExample(headers: Headers, decoded: Option<ApiBody>)
    requires headers == [("Retry-After", "60"), ("Ratelimit-Limit", "100"),
                         ("Ratelimit-Remaining", "0"), ("Ratelimit-Reset", "1678886400")]
    ensures ParseRateLimit(headers, decoded).kind == RateLimitKind(60, 100, 0, 1678886400)
  {
    ExampleRetryAfter(headers);
    ExampleLimit(headers);
    ExampleRemaining(headers);
    ExampleReset(headers);
  }

  /** The four readings of the rate-limit example, one header each. */
  lemma ExampleRetryAfter(headers: Headers)
    requires |headers| == 4 && headers[0] == ("Retry-After", "60")
    ensures IntHeader(headers, "retry-after") == 60
  {
    FoldsTo(headers[0].0, "retry-after");
    IntHeaderAt(headers, 0, "retry-after", 60);
  }

  lemma ExampleLimit(headers: Headers)
    requires |headers| == 4 && headers[0].0 == "Retry-After" && headers[1] == ("Ratelimit-Limit", "100")
    ensures IntHeader(headers, "ratelimit-limit") == 100
  {
    FoldsTo(headers[1].0, "ratelimit-limit");
    IntHeaderAt(headers, 1, "ratelimit-limit", 100);
  }

  lemma ExampleRemaining(headers: Headers)
    requires |headers| == 4 && headers[0].0 == "Retry-After" && headers[1].0 == "Ratelimit-Limit"
    requires headers[2] == ("Ratelimit-Remaining", "0")
    ensures IntHeader(headers, "ratelimit-remaining") == 0
  {
    FoldsTo(headers[2].0, "ratelimit-remaining");
    IntHeaderAt(headers, 2, "ratelimit-remaining", 0);
  }

  lemma ExampleReset(headers: Headers)
    requires |headers| == 4 && headers[0].0 == "Retry-After" && headers[1].0 == "Ratelimit-Limit"
    requires headers[2].0 == "Ratelimit-Remaining" && headers[3] == ("Ratelimit-Reset", "1678886400")
    ensures IntHeader(headers, "ratelimit-reset") == 1678886400
  {
    FoldsTo(headers[3].0, "ratelimit-reset");
    FoldDiffers(headers[1].0, "ratelimit-reset", 10);
    IntHeaderAt(headers, 3, "ratelimit-reset", 1678886400);
  }

  /** A header name written with capitals matches its lower-case spelling. */
  lemma FoldsTo(name: string, lower: string)
    requires |name| == |lower| && forall i | 0 <= i < |lower| :: lower[i] == ToLowerAscii(name[i])
    requires forall i | 0 <= i < |lower| :: !('A' <= lower[i] <= 'Z')
    ensures EqualFoldAscii(name, lower)
  {
  }

  /** Two names of one length that differ at `i` beyond letter case do not
      match. */
  lemma FoldDiffers(a: string, b: string, i: nat)
    requires i < |a| == |b| && ToLowerAscii(a[i]) != ToLowerAscii(b[i])
    ensures !EqualFoldAscii(a, b)
  {
  }

  /** The integer header found first under `name` holds the numeral of `n`. */
  lemma IntHeaderAt(headers: Headers, i: nat, name: string, n: int)
    requires i < |headers| && EqualFoldAscii(headers[i].0, name)
    requires forall j | 0 <= j < i :: !EqualFoldAscii(headers[j].0, name)
    requires IsInt64(n) && headers[i].1 == FormatInt(n)
    ensures IntHeader(headers, name) == n
  {
    HeaderGetAt(headers, i, name);
    ParseFormat(n);
  }

  /** The path of the send endpoint. */
  const SendPath := "/v1/send-email"

  /** The endpoint URL: the base URL without trailing slashes, then the
      path. */
  function RequestURL(baseURL: string): (url: string)
    ensures HasSuffix(url, SendPath)
    ensures url[..|url| - |SendPath|] == TrimRightChar(baseURL, '/')
  {
    var url := TrimRightChar(baseURL, '/') + SendPath;
    assert url[|url| - |SendPath|..] == SendPath;
    url
  }

  /** Trailing slashes on the base URL make no difference, and a base URL
      without one is used as it is. */
  lemma RequestURLSlashes(baseURL: string)
    ensures RequestURL(baseURL + "/") == RequestURL(baseURL)
    ensures baseURL == [] || baseURL[|baseURL| - 1] != '/' ==> RequestURL(baseURL) == baseURL + SendPath
  {
    var b := baseURL + "/";
    assert b[..|b| - 1] == baseURL;
  }

  /** An outgoing request: `POST`, the URL, the four headers `SendEmail`
      sets, and the email that is encoded as its JSON body. */
  datatype Request = Request(verb: string, url: string, headers: Headers, email: Message)

  /** The request `SendEmail` sends for `m` under `settings`. */
  function RequestFor(settings: Settings, m: Message, url: string): (req: Request)
    ensures req.verb == "POST" && req.url == url && req.email == m && |req.headers| == 4
  {
    Request("POST", url,
            [("Content-Type", "application/json"), ("Accept", "application/json"),
             ("Authorization", "Bearer " + settings.apiKey), ("User-Agent", UserAgent)],
            m)
  }

  /** The request declares a JSON body, accepts JSON, carries the API key as
      a bearer token and names the library in its User-Agent. */
  lemma RequestHeaders(settings: Settings, m: Message, url: string)
    ensures var h := RequestFor(settings, m, url).headers;
      && HeaderGet(h, "Content-Type") == "application/json"
      && HeaderGet(h, "Accept") == "application/json"
      && HeaderGet(h, "Authorization") == "Bearer " + settings.apiKey
      && HeaderGet(h, "User-Agent") == UserAgent
  {
    var h := RequestFor(settings, m, url).headers;
    DistinctNames(h);
    HeaderGetAt(h, 0, h[0].0);
    HeaderGetAt(h, 1, h[1].0);
    HeaderGetAt(h, 2, h[2].0);
    HeaderGetAt(h, 3, h[3].0);
  }

  /** The four names `SendEmail` sets have four different lengths, so none
      matches another. */
  lemma DistinctNames(h: Headers)
    requires |h| == 4 && h[0].0 == "Content-Type" && h[1].0 == "Accept"
    requires h[2].0 == "Authorization" && h[3].0 == "User-Agent"
    ensures forall i, j | 0 <= i < 4 && 0 <= j < 4 && i != j :: !EqualFoldAscii(h[i].0, h[j].0)
  {
  }

  /** What a round trip can end in: a transport error with its text, a body
      that could not be read, or a reply with its status, headers, raw body
      and what decoding that body as JSON gave. */
  datatype Exchange =
    | TransportFailed(reason: string)
    | BodyUnreadable
    | Replied(status: int, headers: Headers, body: string, decoded: Option<ApiBody>)

  /** The world outside the library: whether `http.NewRequest` accepts a
      URL, and what `Do` followed by `io.ReadAll` yields for a request. */
  datatype Network = Network(acceptsURL: string -> bool, roundTrip: Request -> Exchange)

  /** `int(d.Seconds())` for a duration of `d` nanoseconds: truncation
      toward zero. */
  function WholeSeconds(d: int): (s: int)
    ensures d >= 0 ==> 0 <= s && s * Second <= d < (s + 1) * Second
    ensures d < 0 ==> s <= 0 && -s * Second <= -d < (-s + 1) * Second
  {
    if d >= 0 then d / Second else -((-d) / Second)
  }

  /** The error for a failed round trip: a timeout when the transport's text
      mentions one, otherwise a network error quoting the text. */
  function TransportError(reason: string, timeout: int, url: string): (e: PoodleError)
    ensures Contains(reason, "timeout") ==> e == NewConnectionTimeoutError(WholeSeconds(timeout), url)
    ensures !Contains(reason, "timeout") ==> e == NewNetworkError("Request failed: " + reason, url)
  {
    if Contains(reason, "timeout") then NewConnectionTimeoutError(WholeSeconds(timeout), url)
    else NewNetworkError("Request failed: " + reason, url)
  }

  /** A timeout is reported with code 408 and the configured timeout in
      whole seconds; any other transport failure with code 0 and its text. */
  lemma TransportErrorShape(reason: string, timeout: int, url: string)
    ensures var e := TransportError(reason, timeout, url);
      && e.kind == NetworkKind(url) && e.Coherent()
      && (Contains(reason, "timeout") ==> e.code == 408 && e.Context()["timeout"] == Int(WholeSeconds(timeout)))
      && (!Contains(reason, "timeout") ==> e.code == 0 && e.message == "Request failed: " + reason)
  {
  }

  /** The whole of `SendEmail` on values: validation first, then the URL,
      the round trip and the classification of the reply. */
  function SendOutcome(m: Message, settings: Settings, network: Network): (r: Result<EmailResponse, PoodleError>)
    ensures r.Success? ==> ValidationOf(m).None? && network.acceptsURL(RequestURL(settings.baseURL))
    ensures r.Failure? ==> r.error.Coherent()
  {
    var invalid := ValidationOf(m);
    if invalid.Some? then Failure(invalid.value)
    else
      var url := RequestURL(settings.baseURL);
      if !network.acceptsURL(url) then Failure(NewNetworkError("Failed to create request", url))
      else
        match network.roundTrip(RequestFor(settings, m, url))
        case TransportFailed(reason) => Failure(TransportError(reason, settings.timeout, url))
        case BodyUnreadable => Failure(NewNetworkError("Failed to read response body", url))
        case Replied(status, headers, body, decoded) => Classify(status, headers, body, decoded, url)
  }

  /** An email that fails validation is answered with that validation error,
      whatever the configuration and the network do: no request is made. */
  lemma ValidationComesFirst(m: Message, s1: Settings, s2: Settings, n1: Network, n2: Network)
    requires ValidationOf(m).Some?
    ensures SendOutcome(m, s1, n1) == SendOutcome(m, s2, n2) == Failure(ValidationOf(m).value)
  {
  }

  /** A valid email is sent exactly once to the endpoint of the configured
      base URL, authorised by the configured key, and the reply decides the
      outcome. */
  lemma ValidEmailIsSent(m: Message, settings: Settings, network: Network)
    requires ValidationOf(m).None?
    requires network.acceptsURL(RequestURL(settings.baseURL))
    ensures var url := RequestURL(settings.baseURL);
      var req := RequestFor(settings, m, url);
      && req.url == url && req.email == m
      && match network.roundTrip(req)
         case Replied(status, headers, body, decoded) =>
           SendOutcome(m, settings, network) == Classify(status, headers, body, decoded, url)
         case TransportFailed(reason) =>
           SendOutcome(m, settings, network) == Failure(TransportError(reason, settings.timeout, url))
         case BodyUnreadable =>
           SendOutcome(m, settings, network) == Failure(NewNetworkError("Failed to read response body", url))
  {
  }

  /** The successful send of the library's client tests: a valid HTML email
      answered with 202 and `{"success": true, "message": "Email queued"}`. */
  lemma SendSuccessExample(from: string, to: string, subject: string, html: string, message: string,
                           settings: Settings, network: Network)
    requires from == "from@example.com" && to == "to@example.com"
    requires subject == "Test Subject" && html == "<h1>Hello</h1>" && message == "Email queued"
    requires network.acceptsURL(RequestURL(settings.baseURL))
    requires forall req :: network.roundTrip(req) == Replied(202, [], "", Some(ApiBody(true, message, "")))
    ensures SendOutcome(Message(from, to, subject, html, ""), settings, network)
            == Success(EmailResponse(true, message, ""))
  {
    HtmlEmailPasses(from, to, subject, html);
    AcceptedReply(Message(from, to, subject, html, ""), settings, network, message);
  }

  /** A valid email whose request is answered with 202 and a decoded body
      succeeds with that body's fields. */
  lemma AcceptedReply(m: Message, settings: Settings, network: Network, message: string)
    requires ValidationOf(m).None?
    requires network.acceptsURL(RequestURL(settings.baseURL))
    requires forall req :: network.roundTrip(req) == Replied(202, [], "", Some(ApiBody(true, message, "")))
    ensures SendOutcome(m, settings, network) == Success(EmailResponse(true, message, ""))
  {
    var url := RequestURL(settings.baseURL);
    assert network.roundTrip(RequestFor(settings, m, url)) == Replied(202, [], "", Some(ApiBody(true, message, "")));
  }

  /** `*HTTPClient`: the shared configuration and the transport. */
  class HTTPClient {
    var config: Config
    var network: Network

    /** `NewHTTPClient`: keeps the configuration object itself, not a copy. */
    constructor (config: Config, network: Network)
      ensures this.config == config && this.network == network
    {
      this.config := config;
      this.network := network;
    }

    /** `SendEmail`: the steps of the library with their early returns. */
    method SendEmail(email: Email) returns (r: Result<EmailResponse, PoodleError>)
      ensures r == SendOutcome(email.Value(), config.Value(), network)
    {
      var invalid := email.Validate();
      if invalid.Some? {
        return Failure(invalid.value);
      }
      var url := RequestURL(config.baseURL);
      if !network.acceptsURL(url) {
        return Failure(NewNetworkError("Failed to create request", url));
      }
      var request := RequestFor(config.Value(), email.Value(), url);
      var exchange := network.roundTrip(request);
      if exchange.TransportFailed? {
        if Contains(exchange.reason, "timeout") {
          var timeout := WholeSeconds(config.timeout);
          return Failure(NewConnectionTimeoutError(timeout, url));
        }
        return Failure(NewNetworkError("Request failed: " + exchange.reason, url));
      }
      if exchange.BodyUnreadable? {
        return Failure(NewNetworkError("Failed to read response body", url));
      }
      r := Classify(exchange.status, exchange.headers, exchange.body, exchange.decoded, url);
    }
  }
}
