# poodle-go, modelled in Dafny

This project models the Go SDK of the Poodle email API. The model covers six parts:

- the `Email` record and its `Validate` rules, including the address check `isValidEmail`;
- the client `Config`: its defaults, the environment overlay of `NewConfigFromEnv`, its ordered `Validate` checks and its User-Agent;
- the error taxonomy of errors.go: one error value per Go error type, with its status code and its context map;
- `EmailResponse`;
- `HTTPClient.SendEmail`: validation, the endpoint URL, the request headers, the mapping of transport failures, and how the API's reply is turned into a response or one typed error;
- the public `Client`: its constructors, the send shortcuts, the `GetConfig` copy and the debug switch.

The library mutates `Email` and `Config` in place (the setters, `SetDebug`, the environment overlay), so each of them is a Dafny class over its Go fields, and `Value()` maps it to a plain datatype (`Message`, `Settings`). `HTTPClient` and `Client` are never written after construction; they are classes because they hold references to one shared `Config` object, so that a `SetDebug` through the client is seen by the HTTP client. The library's behaviour is stated as functions on values (`RuleErrors`, `ValidationOf`, `Settings.Validate`, `FromEnvironment`, `Classify`, `SendOutcome`). The methods are proved to compute exactly those functions, and lemmas prove what the functions promise.

Modules, in dependency order:

- `Wrappers`: `Option` and `Result`.
- `Text`: the string functions the library calls from `strings`:
  - `TrimSpace` with Go's white-space set;
  - `Split`, `HasPrefix`, `HasSuffix`, `Contains` and `TrimRight` for one character;
  - the UTF-8 byte length that Go's `len` measures;
  - ASCII case folding.
- `Decimal`: `%d` formatting and `strconv.Atoi` / `strconv.ParseInt` on 64-bit integers.
- `Errors` (errors.go), `Responses` (response.go) and `Addresses` (`isValidEmail` of email.go).
- `Emails` (the rest of email.go) and `Configuration` (config.go).
- `Transport` (http.go) and `Facade` (client.go).

The network is a parameter, `Transport.Network`, made of two functions:

- `acceptsURL` says whether `http.NewRequest` accepts a URL;
- `roundTrip` maps a request to what `Do` followed by `io.ReadAll` yields. That is a transport error with its text, an unreadable body, or a reply with a status, headers, raw body and decoded JSON body.

Environment variables are a map, and `time.ParseDuration` is a function parameter.

## Model

| member | source | states |
|---|---|---|
| Text.TrimSpace | email.go:70 | the result has no white space at either end and is no longer than the input |
| Text.TrimSpaceCuts | email.go:138 | the result is a contiguous slice of the input, and only white space is cut from it |
| Text.BlankIffAllSpace | email.go:70-88 | trimming gives "" exactly when every character is white space |
| Text.TrimSpaceIdempotent | email.go:138 | trimming twice equals trimming once |
| Text.ByteLen | email.go:92-97 | the UTF-8 length lies between the character count and four times it |
| Text.ByteLenAscii | email.go:139 | for ASCII text the byte length is the character count |
| Text.ContainsDouble | email.go:154 | `Contains(s, "..")` holds exactly when two dots are adjacent somewhere |
| Text.SplitAtOnly | email.go:147 | splitting at the only separator gives exactly the two sides |
| Text.TrimRightChar | http.go:71 | the result is a prefix of the input, everything cut is '/', and the result does not end in '/' |
| Text.HasPrefix | email.go:154-168 | `strings.HasPrefix`: the prefix is no longer than the text and equals its first characters |
| Text.HasSuffix | email.go:154-168 | `strings.HasSuffix`: the suffix is no longer than the text and equals its last characters |
| Text.Contains | email.go:154 | `strings.Contains`: the substring occurs at some position; a text that contains a substring is at least as long as it |
| Text.Split | email.go:147 | `strings.Split` with a one-character separator always gives at least one piece; `SplitAtOnly` gives the split at a single separator |
| Decimal.FormatInt | errors.go:141 | `%d` is non-empty and starts with '-' exactly for negative numbers |
| Decimal.ParseFormat | http.go:243-264 | every 64-bit integer printed by `%d` parses back to itself |
| Decimal.ParseInt | http.go:243-264 | a parsed value is always a 64-bit integer |
| Decimal.ParseIntAccepts | http.go:243-264 | a string parses exactly when it is an optional sign followed by at least one digit whose signed value fits in 64 bits, and that value is the result |
| Decimal.ParseIntExamples | http.go:243-264 | "+5" and "007" parse to 5 and 7; "", "+" and "-" do not parse |
| Decimal.ParseRejectsGarbage | http.go:243-264 | a character that is neither a digit nor a leading sign makes the parse fail |
| Errors.PoodleError.Error | errors.go:57-62 | a validation error with an empty message reads "Validation failed"; every other error reads as its message |
| Errors.PoodleError.Context | errors.go:30-35 | a nil context map reads as an empty map |
| Errors.PoodleError.StatusCode | errors.go:26-28 | the stored code |
| Errors.RetryMessage | errors.go:141 | "Rate limit exceeded. Retry after N seconds."; `RetryMessageCarriesSeconds` states that N parses back |
| Errors.HTTPMessage | errors.go:210 | "HTTP N error" with N printed by `%d` |
| Errors.TagDeterminesType | errors.go:43-225 | two coherent errors with the same `error_type` tag have the same Go type |
| Errors.NewValidationError | errors.go:43-55 | code 400, the given field errors, and context `{error_type: validation_error, errors}` |
| Errors.NewAuthenticationError | errors.go:69-82 | code 401; an empty message becomes "Invalid or missing API key"; tag authentication_error |
| Errors.NewAccountSuspendedError | errors.go:90-105 | code 403, the reason kept; an empty message becomes "Account suspended" |
| Errors.NewSubscriptionError | errors.go:113-128 | code 402, the subscription type kept; an empty message becomes "Subscription error" |
| Errors.RetryMessageCarriesSeconds | errors.go:139-142 | the default rate-limit message embeds the wait time as digits that parse back to it |
| Errors.NewRateLimitError | errors.go:139-160 | code 429 and the four counters in both the fields and the context |
| Errors.NewNetworkError | errors.go:168-183 | code 0 and the URL; an empty message becomes "Network error occurred" |
| Errors.NewConnectionTimeoutError | errors.go:185-199 | code 408, the message "Connection timeout after N seconds", and tag connection_timeout with the timeout in the context |
| Errors.NewHTTPError | errors.go:208-225 | the status as code, the URL and body kept; an empty message becomes "HTTP N error" |
| Responses.NewEmailResponse | response.go:15-20 | the success flag and message as given, and no error text |
| Responses.NewEmailResponseWithError | response.go:23-29 | all three fields as given; `HasError` holds exactly for a non-empty error text |
| Responses.EmailResponse.IsSuccessful | response.go:32-34 | the success flag |
| Responses.EmailResponse.HasError | response.go:37-39 | whether the error text is non-empty |
| Addresses.IsValidEmail | email.go:137-174 | the check accepts exactly the addresses of the grammar `ValidAddress`: trimmed, at most 254 bytes, local@label(.label)+ |
| Addresses.MatchesPattern | email.go:23 | the language of the regular expression: local characters, '@', domain characters, a last '.', and at least two letters to the end |
| Addresses.ValidAddress | email.go:137-174 | the accepted addresses as a grammar: trimmed, at most 254 bytes, a well-formed local part, '@', and two or more well-formed labels |
| Addresses.CheckLabels | email.go:167-171 | the loop succeeds exactly when no label is empty or starts or ends with '-' |
| Addresses.CheckedPattern | email.go:147-173 | once the regular expression has matched, the remaining checks hold exactly for well-formed addresses |
| Addresses.DeadChecks | email.go:147-166 | after the regular expression has matched, the two-part and two-label tests never fail |
| Addresses.BlankInvalid | email.go:138-141 | blank input is rejected |
| Addresses.TrimInsensitive | email.go:138 | surrounding white space does not change the verdict |
| Addresses.ValidShape | email.go:139-147 | an accepted address has one '@', matches the regular expression, is ASCII and has at most 254 characters |
| Addresses.AcceptsPlain | email_test.go:247 | "test@example.com" is accepted |
| Addresses.AcceptsDottedLocal | email_test.go:248 | "user.name@example.com" is accepted |
| Addresses.AcceptsTag | email_test.go:249 | "user+tag@example.com" is accepted |
| Addresses.AcceptsHyphenatedDomain | email_test.go:250 | "user123@example-domain.com" is accepted |
| Addresses.RejectsNoAt | email_test.go:251-252 | "" and "invalid" are rejected |
| Addresses.RejectsEmptyLocal | email_test.go:253 | "@example.com" is rejected |
| Addresses.RejectsEmptyDomain | email_test.go:254 | "test@" is rejected |
| Addresses.RejectsLeadingDot | email_test.go:255 | "test@.com" is rejected |
| Addresses.RejectsDoubleDot | email_test.go:256 | "test..test@example.com" is rejected |
| Addresses.RejectsTooLong | email_test.go:257 | 250 letters followed by "@example.com" are rejected |
| Emails.ValidationOf | email.go:100-104 | no error exactly when no rule fired; otherwise code 400, "Email validation failed", and the field errors |
| Emails.GatherFields | email.go:67-98 | each field holds exactly its own rule's single message, and no other key appears |
| Emails.RuleErrors | email.go:67-98 | the six rules of `Validate` gathered into one map; `RuleErrorsShape`, `FromRule`, `ToRule` and `ContentRules` state each entry |
| Emails.RuleErrorsShape | email.go:67-98 | only the six field names occur, each with one message |
| Emails.FromRule | email.go:70-74 | "from" is reported exactly when the sender is not accepted: "required" when it is blank, "not a valid email" otherwise |
| Emails.ToRule | email.go:76-80 | the same rule for the recipient |
| Emails.ContentRules | email.go:82-98 | blank subject; both bodies blank; each body over 10 MiB of UTF-8 bytes: each is reported exactly when it holds |
| Emails.ValidationSucceedsIff | email.go:66-105 | `Validate` returns nil exactly for sendable messages, stated without the map |
| Emails.ContentSizeBoundary | email.go:19 | for an ASCII HTML body, and for an ASCII text body, the limit is exactly 10·1024·1024 characters |
| Emails.BlankNotValid | email.go:70-72 | a blank address is never an accepted one |
| Emails.AppendFresh | email.go:71 | appending under an absent key records just that message |
| Emails.CheckAddress | email.go:70-80 | the sender or recipient check adds exactly the rule's message |
| Emails.CheckSubject | email.go:82-84 | the subject check adds exactly the rule's message |
| Emails.CheckContent | email.go:87-89 | the body-presence check adds exactly the rule's message |
| Emails.CheckSize | email.go:92-98 | each size check adds exactly the rule's message |
| Emails.Email.Validate | email.go:66-105 | the method returns `ValidationOf` of the email's current fields |
| Emails.Email.constructor | email.go:26-32 | the three fields are set and both bodies are empty |
| Emails.Email.WithHTML | email.go:35-42 | the fields are set and the text body is empty |
| Emails.Email.WithText | email.go:45-52 | the fields are set and the HTML body is empty |
| Emails.Email.WithBoth | email.go:55-63 | all five fields are set |
| Emails.Email.SetHTML | email.go:108-111 | only the HTML body changes, and the same object is returned |
| Emails.Email.SetText | email.go:114-117 | only the text body changes, and the same object is returned |
| Emails.Email.SetBoth | email.go:120-124 | only the two bodies change, and the same object is returned |
| Emails.ContentRuleMatchesAccessors | email.go:127-134 | the content rule fires exactly when neither `HasHTML` nor `HasText` holds |
| Emails.Email.HasHTML | email.go:127-129 | the HTML body is not blank after trimming |
| Emails.Email.HasText | email.go:132-134 | the text body is not blank after trimming |
| Emails.HtmlEmailPasses | email_test.go:67-75 | the valid HTML email of the tests passes validation |
| Emails.MissingFromReported | email_test.go:98-106 | without a sender, the error names "from" alone, with "From address is required" |
| Emails.OversizedHtmlReported | email_test.go:160-169 | an HTML body of 10 MiB plus one byte is reported under "html" |
| Emails.SettersExample | email_test.go:213-240 | after `SetHTML` the email has HTML and no text, after `SetText` it has text, and a new email after `SetBoth` has both |
| Configuration.Settings.Validate | config.go:71-109 | nil exactly when the key and base URL are set and both timeouts are positive; otherwise a literal validation error with code 0, a nil context and one field error |
| Configuration.ValidateReportsFirstFailure | config.go:71-109 | the error names the first broken condition in check order, as its message and as its only field error |
| Configuration.Defaults | config.go:28-35 | no key, base URL https://api.usepoodle.com, timeouts 30 s and 10 s, debugging off |
| Configuration.DefaultsNeedOnlyKey | config.go:28-35 | the defaults break only the API-key condition, and validate once any non-empty key is set |
| Configuration.ParseBool | config.go:62 | "1 t T TRUE true True" give true, "0 f F FALSE false False" give false, and nothing else parses |
| Configuration.FromEnvironment | config.go:38-68 | the configuration has a key exactly when `POODLE_API_KEY` is set and not empty, and its base URL is never empty |
| Configuration.EmptyEnvironment | config.go:38-68 | with none of the five variables set, the environment gives the defaults |
| Configuration.EnvironmentOverrides | config.go:41-65 | each variable replaces its default exactly when it is set, not empty and, for durations and the flag, parses |
| Configuration.OverrideOnlyOwnField | config.go:41-65 | changing one variable changes at most its own field |
| Configuration.EnvironmentExample | client_test.go:40-72 | the environment of the tests gives their key, URL and debug flag, with default timeouts |
| Configuration.Config.constructor | config.go:28-35 | a new configuration holds the defaults |
| Configuration.Config.FromSettings | client.go:71-72 | a configuration object holding exactly the given values |
| Configuration.Config.FromEnv | config.go:38-68 | the object built step by step equals `FromEnvironment` |
| Configuration.Config.GetUserAgent | config.go:112-114 | the User-Agent is "poodle-go/1.0.0" |
| Transport.HeaderGet | http.go:242 | a non-empty value comes from a header whose name matches up to case; with no match the value is "" |
| Transport.HeaderGetAt | http.go:242 | the first matching header is the one whose value is returned |
| Transport.HeaderGetIgnoresCase | http.go:242-263 | lookup does not depend on the case of the name asked for |
| Transport.IntHeader | http.go:241-267 | a 64-bit integer: the parsed header when it parses, 0 when it is missing or malformed |
| Transport.ParseSuccess | http.go:144-150 | a decoded body is returned unchanged; an undecodable one gives a network error "Failed to parse response" with an empty URL |
| Transport.ParseValidation | http.go:153-176 | code 400; "request" holds the message and "details" holds the error text exactly when there is one; an undecodable body gives "Invalid request format" |
| Transport.ParseAuthentication | http.go:179-189 | code 401, with the reply's message or the default |
| Transport.SubscriptionType | http.go:203-211 | one of "subscription_expired", "trial_limit_reached", "limit_reached" and "unknown" |
| Transport.SubscriptionTypeOrder | http.go:202-211 | the type is given by the first of "expired", "trial" and "limit" in the message, and "unknown" when none occurs (both directions) |
| Transport.ParseSubscription | http.go:192-214 | code 402, the message, and its subscription type; an undecodable body gives "unknown" |
| Transport.ParseAccountSuspended | http.go:217-228 | code 403, the message, and the reply's error text as reason; an undecodable body gives "unknown" |
| Transport.ParseRateLimit | http.go:231-275 | code 429; the four counters come from the headers; the message is the reply's, or the retry message when there is none |
| Transport.ParseGeneric | http.go:278-290 | the status as code, the URL and raw body, the reply's message when non-empty, else "HTTP N error" |
| Transport.Classify | http.go:115-140 | success exactly for 202 with a decodable body, and every failure is a coherent typed error |
| Transport.ClassifySuccess | http.go:115-117 | success exactly for 202 with a decodable body, with its fields unchanged |
| Transport.ClassifyFailure | http.go:115-140 | every other status fails with the Go type of the switch, and statuses outside it keep their code |
| Transport.ClassifyFailureTagged | http.go:115-140 | every such failure is coherent and carries its type's `error_type` tag |
| Transport.CoherentTag | errors.go:43-225 | a coherent error carries its kind's tag, or the timeout tag for a network error |
| Transport.RateLimitHeadersExample | client_test.go:287-303 | the test's capitalised headers give the counters 60, 100, 0 and 1678886400 |
| Transport.RequestURL | http.go:71 | the URL is the base URL without trailing slashes followed by "/v1/send-email" |
| Transport.RequestURLSlashes | http.go:71 | one more trailing slash changes nothing; a base URL without one is used as it is |
| Transport.RequestFor | http.go:74-83 | a POST to the URL carrying the email and four headers |
| Transport.RequestHeaders | http.go:80-83 | JSON content type and accept, "Bearer " plus the key, and the library's User-Agent |
| Transport.WholeSeconds | http.go:96 | truncation toward zero of nanoseconds to seconds, on both signs |
| Transport.TransportError | http.go:93-100 | a failure whose text contains "timeout" is a connection timeout carrying the configured seconds; any other is "Request failed: " plus the text |
| Transport.TransportErrorShape | http.go:93-100 | a timeout has code 408, any other transport failure has code 0; both carry the URL |
| Transport.SendOutcome | http.go:58-141 | a success only for a valid email whose endpoint URL was accepted, and every failure is a coherent typed error |
| Transport.ValidationComesFirst | http.go:60-62 | an invalid email gets its validation error whatever the configuration and the network |
| Transport.ValidEmailIsSent | http.go:58-140 | a valid email is sent once to the configured endpoint; a reply is classified by `Classify`, a transport failure gives `TransportError`, and an unreadable body gives the network error "Failed to read response body" with the URL |
| Transport.AcceptedReply | http.go:115-117 | a valid email answered with 202 and a decoded body succeeds with that body |
| Transport.SendSuccessExample | client_test.go:206-215 | the tests' HTML email answered with 202 and "Email queued" succeeds |
| Transport.HTTPClient.constructor | http.go:29-55 | the HTTP client keeps the configuration object itself |
| Transport.HTTPClient.SendEmail | http.go:58-141 | the method returns `SendOutcome` of the email and the configuration |
| Facade.Client.WithConfig | client.go:28-37 | a valid configuration is kept as the shared object |
| Facade.Client.constructor | client.go:15-19 | the defaults with the given key, which validate because the key is not empty |
| Facade.Client.FromEnv | client.go:22-25 | the environment's configuration, shared with the HTTP client |
| Facade.Client.Send | client.go:40-45 | sending gives `SendOutcome` under the client's current configuration |
| Facade.Client.SendHTML | client.go:48-51 | sending the HTML message built from the arguments |
| Facade.Client.SendText | client.go:54-57 | sending the text message built from the arguments |
| Facade.Client.SendWithBoth | client.go:60-63 | sending the message with both bodies |
| Facade.Client.GetConfig | client.go:66-73 | a fresh object with the client's values |
| Facade.Client.SetDebug | client.go:76-81 | only the debug flag of the shared configuration changes, and the HTTP client still shares it |
| Facade.Client.IsDebug | client.go:84-89 | the flag of the current configuration |
| Facade.DebugSequence | client_test.go:118-136 | a new client is not in debug mode, and each `SetDebug` is read back |
| Facade.CopiesAreIsolated | client_test.go:138-153 | two copies are distinct objects, and changing one leaves the client unchanged |

## Left out

- JSON encoding and decoding are not modelled. The round trip hands over the decoded fields directly (`ApiBody`, or none when the body is not JSON). The per-parser struct differences are not modelled either, and neither are partial fills when a field has the wrong JSON type.
- The `json.Marshal` failure branch of `SendEmail` (http.go:65-68) is left out because marshalling five strings cannot fail.
- The regular expression engine is not modelled. The pattern is written out as the predicate `MatchesPattern`.
- Header canonicalisation (`http.CanonicalHeaderKey`) is modelled as ASCII case-insensitive matching on the first matching header. Headers with several values are not modelled.
- Go strings are modelled as sequences of Unicode scalar values. Invalid UTF-8 is not modelled.
- Logging in debug mode, the dialer and transport timeouts of `NewHTTPClient`, and the `RWMutex` of `Client` are left out. Each call is one atomic step.
- `ToJSON` and `FromJSON` of response.go are left out, because they are JSON encoding.
- The example programs and doc.go are not part of this model.
- Replies are taken to be determined by the request: `Network.roundTrip` is a function, so two sends of the same message under the same settings get the same reply. No property relies on this.
- `time.ParseDuration` is a parameter, not a model of Go's duration syntax.
- Transport.WholeSeconds: `int(Timeout.Seconds())` goes through a float64. The model truncates exactly. The float path can round up to the next second, but only for timeouts above 2^24 seconds (about 194 days).
- Transport.ParseValidation: a 422 reply is parsed like a 400. As written, it reports code 400, not 422, and the model keeps that.
- Facade.Client.WithConfig: Go panics on an invalid configuration. The model makes validity a precondition. The same holds for `Facade.Client.constructor`, which requires a non-empty key, and for `Facade.Client.FromEnv`.
- Transport.HTTPClient.SendEmail returns one `Result` where Go returns a response/error pair. Exactly one side is non-nil on every path, so nothing is lost.
- Emails.CheckAddress, Emails.CheckSubject, Emails.CheckContent, Emails.CheckSize and Addresses.CheckLabels split the bodies of `Validate` and `isValidEmail` into steps. They are not separate functions in the library.
- Go's `int` is taken to be 64 bits wide. Wrap-around of the counters is never reached, because they come from parsers that reject out-of-range text.
