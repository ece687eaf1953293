# azure-func request pipeline, modelled in Dafny

This project models the request pipeline of an HTTP-triggered Azure function. The pipeline is
made of five parts:

- **Rate limiter.** A sliding-window limiter keyed by the caller's address. It keeps a request
  log, a violation log and a ban expiry per address.
- **Request validator.** A registry of named type validators and per-target expect templates.
  It checks a request's body, query, headers and params.
- **Request binder.** It registers blob bindings and expands `{name}` placeholders in a blob
  path from the request's body or query. It then assembles one result entry per binding.
- **Request handler.** An early-return sequence: rate limit, authorize, validate, then bind and
  run the handler. Every outcome maps to a response.
- **`ErrorResponse`.** The value a handler throws to choose its own status, body and headers.

Modules:

| module | file | models |
|---|---|---|
| `Results` | results.dfy | `Option`, `Result`, `Outcome` (a check that passes or throws) |
| `Text` | text.dfy | decimal rendering, `parseInt`, `split(...)[0]`, the last `split` segment, `endsWith` |
| `Json` | json.dfy | JavaScript values, `typeof`, truthiness, own properties, `${v}` |
| `Http` | http.dfy | the request and response records |
| `RateLimiting` | rate_limiter.dfy | src/rateLimit/RateLimiter.ts: class `RateLimiter` over the three per-address maps, specified by the per-caller function `Admit` |
| `Validation` | validation.dfy | src/validation/RequestValidator.ts: validators, templates, `validate` as functions, classes `TypeRegistry` and `RequestValidator` |
| `Placeholders` | placeholders.dfy | the placeholder loop of `getBindings`: the regular expression search, the corrected expansion and the loop as written |
| `Responses` | error_response.dfy | src/request/ErrorResponse.ts |
| `Binding` | binder.dfy | src/request/RequestBinder.ts: class `RequestBinder` |
| `Handling` | handler.dfy | src/request/RequestHandler.ts: the response as a function of the stage results, and class `RequestHandler` whose method drives the real limiter, validator and binder |

Modelling conventions:

- The clock (`Date.now()`) is the parameter `now`.
- The storage read is a function parameter, `BlobReader`. It returns `None` where the read
  throws.
- The handler and the authorization callback are function parameters.
- The rejection callback's call is returned as a `Notice` value.

## Model

| member | source | states |
|---|---|---|
| RateLimiting.AddressFromHeader | src/rateLimit/RateLimiter.ts:36-42 | the address is the text of `x-forwarded-for` before its first `:`, colon-free; it is `<UNKNOWN>` when that part is empty or the header is missing, and never empty |
| RateLimiting.EndpointOf | src/rateLimit/RateLimiter.ts:48-50 | the endpoint is the suffix of the URL's part before `?` that follows its last `/` (or all of it), and holds neither `/` nor `?` |
| RateLimiting.GetContext | src/rateLimit/RateLimiter.ts:45-53 | a definition without a contract: the caller's address from `AddressFromHeader`, the endpoint from `EndpointOf` of `req.url`, else of `originalUrl`, and the request's method |
| Text.ParseNatText | src/rateLimit/RateLimiter.ts:72-78 | `parseInt` of the decimal key of a window gives back the interval the key was written from |
| RateLimiting.Within | src/rateLimit/RateLimiter.ts:68-69 | the filter keeps exactly the entries `t` with `now - t` below the window, and never grows the log |
| RateLimiting.WithinAppend | src/rateLimit/RateLimiter.ts:68-69 | filtering distributes over concatenation, so pruning keeps the entries in their original order |
| RateLimiting.Prune | src/rateLimit/RateLimiter.ts:67-69 | pruning keeps exactly the entries less than `MAX_INTERVAL` old, and never lengthens a log |
| RateLimiting.CountsOfPruned | src/rateLimit/RateLimiter.ts:67-83 | counting the windows over the pruned log gives the counts over the unpruned log (every window fits in the 30 s horizon) |
| RateLimiting.CountWindows | src/rateLimit/RateLimiter.ts:71-83 | the nested counting loop yields, per window, the number of log entries inside it |
| RateLimiting.FirstExceeded | src/rateLimit/RateLimiter.ts:88-98 | finds the first window from an index whose count has reached its cap, with every earlier window below its cap; `None` iff all are below |
| RateLimiting.Violation | src/rateLimit/RateLimiter.ts:85-98 | no violation iff every window is below its cap; otherwise the reason is the count and interval of the first window, in ascending order, that reached its cap |
| RateLimiting.FirstViolation | src/rateLimit/RateLimiter.ts:88-98 | the loop that breaks at the first exceeded window computes that violation |
| RateLimiting.Admit | src/rateLimit/RateLimiter.ts:59-113 | a definition without a contract, the reference for one call by one caller: a ban in force rejects and changes nothing; otherwise prune both logs, find the first capped window, record a violation, append the call and ban on the third violation. `BanStopsEverything`, `AcceptedIffBelowCaps`, `LogsAfterCall` and `ViolationsStayBelowThreshold` state what it means |
| RateLimiting.BanStopsEverything | src/rateLimit/RateLimiter.ts:59-62 | while a ban is in force a call is rejected, the caller's state is unchanged, and there is no violation (so no callback) and no new ban |
| RateLimiting.AcceptedIffBelowCaps | src/rateLimit/RateLimiter.ts:67-98 | outside a ban a call is accepted iff every window, counted before the call is appended, is below its cap; it is rejected iff a violation is reported; the violation names the first window in ascending order that reached its cap, with its count |
| RateLimiting.LogsAfterCall | src/rateLimit/RateLimiter.ts:64-109 | outside a ban both logs are pruned; the call is appended to the request log once, accepted or not, and to the violation log once per rejection; a third violation empties both logs and bans until `now + 15000` |
| RateLimiting.ViolationsStayBelowThreshold | src/rateLimit/RateLimiter.ts:94-109 | after any call not stopped by a ban, fewer than 3 violations remain; a call that imposes a ban is itself rejected |
| RateLimiting.ReasonText | src/rateLimit/RateLimiter.ts:92-104 | a definition without a contract: `${count} calls in ${interval} milliseconds`, followed by `. Banned for 15000 milliseconds` when the call imposed a ban |
| RateLimiting.Decide | src/rateLimit/RateLimiter.ts:64-109 | pruning, counting, recording the violation, appending and banning, done step by step, give exactly the decision and the new caller state of `Admit` |
| RateLimiting.RateLimiter.constructor | src/rateLimit/RateLimiter.ts:32-34 | the three maps start empty and the limiter invariant holds |
| RateLimiting.RateLimiter.Accept | src/rateLimit/RateLimiter.ts:55-115 | the result is `Admit`'s decision for the caller's address and `now`; under a ban the three maps are unchanged; otherwise only the caller's entries change, to `Admit`'s new logs and ban; the callback receives method, endpoint, address and reason (with the ban suffix) iff the call is rejected past the ban check; fewer than 3 violations per address are kept |
| RateLimiting.RateLimiter.AcceptFrom | src/rateLimit/RateLimiter.ts:56-114 | the same, once address, endpoint and method are known; the ban check reads `nextRequestAt` as a truthy time still in the future |
| RateLimiting.RateLimiter.Record | src/rateLimit/RateLimiter.ts:64-113 | past the ban check, the caller's logs and ban become those of `Admit`, and the notice carries the reason text |
| RateLimiting.RateLimiter.Store | src/rateLimit/RateLimiter.ts:100-108 | writes one caller's new logs back, and its ban expiry when a ban was imposed; no other address changes |
| RateLimiting.AdmitWithinOneSecond | src/rateLimit/RateLimiter.ts:4-100 | a caller with no violations and every request within the last second is accepted iff it has fewer than 10 requests; acceptance only appends the call |
| RateLimiting.BurstFrom | test/RateLimiter.test.ts:28-37 | replaying a burst of 11 calls within one second from the `i`-th call on accepts exactly the calls before the tenth |
| RateLimiting.TenPerSecondThenReject | test/RateLimiter.test.ts:28-37 | eleven calls inside one second from a new address: the first ten are accepted and the eleventh is rejected |
| Validation.StringType | src/validation/RequestValidator.ts:7 | passes iff the value is a string; otherwise it reports the received `typeof` |
| Validation.NumberType | src/validation/RequestValidator.ts:8 | passes iff the value is a number; otherwise it reports the received `typeof` |
| Validation.BooleanType | src/validation/RequestValidator.ts:9 | passes iff the value is a boolean; its message keeps the source's missing space and doubled quote |
| Validation.PositiveNumber | src/validation/RequestValidator.ts:10 | passes iff the value is a number at least 1 (so 0 fails); otherwise it reports the value's text |
| Validation.Defined | src/validation/RequestValidator.ts:11 | passes iff the value is not `undefined` (`null` passes) |
| Validation.BuiltIns | src/validation/RequestValidator.ts:6-14 | the registry starts with exactly the five built-in names |
| Validation.PropertyName | src/validation/RequestValidator.ts:26-31 | a key ending in `?` names the property without it; any other key names itself |
| Validation.BaseType | src/validation/RequestValidator.ts:42-46 | a type ending in `[]` names the validator without that suffix; any other type names itself |
| Validation.ValidationError.Message | src/validation/RequestValidator.ts:33-55 | every error `validateTarget` throws has a non-empty message |
| Validation.CheckValues | src/validation/RequestValidator.ts:51-56 | passes iff every value passes the validator; otherwise the error names the property and the first refused value's description |
| Validation.Satisfies | src/validation/RequestValidator.ts:25-57 | a definition without a contract, the reference for one template entry: the property is absent and optional, or present (an own property, even `undefined`) and accepted by the registered validator of its base type; when the type ends in `[]` the value must be an array and every element must be accepted; `CheckEntry` is proved to pass exactly when it holds |
| Validation.CheckEntry | src/validation/RequestValidator.ts:25-57 | one template entry passes iff the target satisfies it; a missing property passes iff optional, else "does not contain"; a non-array for a `[]` type fails as "must be an array"; a refused value names the property |
| Validation.ValidateTarget | src/validation/RequestValidator.ts:24-58 | passes iff every entry is satisfied; a failure is the failure of the first unsatisfied entry |
| Validation.ValidateTemplates | src/validation/RequestValidator.ts:66-68 | passes iff every entry of every template for a target is satisfied; a failure is the failure of the first template, in registration order, that fails, every template before it passing |
| Validation.TargetValue | src/validation/RequestValidator.ts:67 | `req[target] \|\| {}` is the target's value when that is truthy and an empty object otherwise, so it is always truthy |
| Validation.ValidateFrom | src/validation/RequestValidator.ts:60-70 | from a given target on, passes iff every registered template entry holds; a failure is the failure of the first target, in the order body, query, headers, params, whose templates fail, every target before it passing |
| Validation.ValidateIffConforms | src/validation/RequestValidator.ts:60-70 | `validate` passes exactly when the request conforms to every template of every target; with no templates it passes |
| Validation.WellTypedNeverMissesValidator | src/validation/RequestValidator.ts:52 | templates that name registered types only never make `validate` call a missing validator |
| Validation.NoValidatorFrom | src/validation/RequestValidator.ts:52 | from any target on, well-typed templates give no missing-validator error |
| Validation.NoValidatorInTemplates | src/validation/RequestValidator.ts:52 | the same for the templates of one target |
| Validation.WellTypedGrows | src/validation/RequestValidator.ts:19-22 | adding validators keeps every admitted template well typed |
| Validation.ExpectKeepsWellTyped | src/validation/RequestValidator.ts:76-85 | adding a template whose types are registered keeps the templates well typed |
| Validation.UndefinedPropertyIsChecked | test/RequestValidator.test.ts:249-254 | a present property holding `undefined` is still type-checked: `string` fails on it |
| Validation.ArrayForScalarFails | test/RequestValidator.test.ts:33-38 | an array given where `number` is expected fails on the array itself |
| Validation.NumberArray | test/RequestValidator.test.ts:40-52 | `number[]` accepts an array of numbers, refuses a non-array, and reports the first element that is not a number |
| Validation.TypeRegistry.constructor | src/validation/RequestValidator.ts:6-14 | the registry holds the five built-ins, each name listed once |
| Validation.TypeRegistry.DefineValidator | src/validation/RequestValidator.ts:19-22 | adds or overrides a validator; a new name joins the end of the key list, so `expect` accepts it from then on |
| Validation.RequestValidator.constructor | src/validation/RequestValidator.ts:16-17 | a validator starts with no templates, which are trivially well typed against its registry |
| Validation.RequestValidator.Validate | src/validation/RequestValidator.ts:60-70 | passes iff the request conforms to every template registered for every target; a failure is the first failing target's, in the order body, query, headers, params; on a validator whose templates are well typed it is never a missing validator |
| Validation.RequestValidator.Expect | src/validation/RequestValidator.ts:72-86 | refuses a non-object template; passes iff every entry's type, after one `[]` is stripped, is registered; otherwise names the first unregistered entry; on success the template is appended to that target's list only, and on failure nothing changes; the templates stay well typed |
| Placeholders.Close | src/request/RequestBinder.ts:39 | the lazy `.+?` stops at the first `}`, with no line terminator before it |
| Placeholders.MatchAt | src/request/RequestBinder.ts:39 | a match at an index is `{`, at least one character that is not a line terminator, and everything up to the first `}` |
| Placeholders.FirstFrom | src/request/RequestBinder.ts:40 | the search from an index finds a match that starts there or later |
| Placeholders.FirstFromIsLeftmost | src/request/RequestBinder.ts:40 | the match found is the leftmost one; when none is found, none starts anywhere from the index on |
| Placeholders.Exec | src/request/RequestBinder.ts:40 | a definition without a contract: `regex.exec(path)` from `lastIndex`, no match when `lastIndex` is past the end, else the leftmost match from there; `ExecIsFirstOfSuffix` relates it to the suffix |
| Placeholders.Lookup | src/request/RequestBinder.ts:42-45 | a name is replaced only by a non-empty string |
| Placeholders.BodyTakesPrecedence | src/request/RequestBinder.ts:42 | a truthy body value decides alone (a truthy non-string hides the query); otherwise the query decides; either can supply a name |
| Placeholders.Substitute | src/request/RequestBinder.ts:39-47 | a definition without a contract, the corrected expansion the binder uses: every placeholder, left to right, becomes the value its name looks up or stays as it is, and inserted text is not searched again; `Expand`, `SubstituteAtMatch`, `SubstituteLeading`, `SubstituteUnresolved` and `AsWrittenAgrees` state its properties |
| Placeholders.ExecIsFirstOfSuffix | src/request/RequestBinder.ts:40 | the search from `lastIndex` is the first match of the suffix from there: the pattern never looks behind its start |
| Placeholders.SubstituteUnresolved | src/request/RequestBinder.ts:42-45 | a path none of whose placeholders resolves comes back unchanged |
| Placeholders.SubstituteAtMatch | src/request/RequestBinder.ts:40-46 | expanding from `lastIndex` reaches the first match there and replaces it by its value or keeps it |
| Placeholders.Expand | src/request/RequestBinder.ts:39-47 | the corrected loop computes the single left-to-right expansion of the path |
| Placeholders.IndexOf | src/request/RequestBinder.ts:46 | `replace` with a string pattern acts at an index where the pattern occurs |
| Placeholders.IndexOfIsLeftmost | src/request/RequestBinder.ts:46 | the index found is the first occurrence at or after the start; none is found only when the pattern occurs nowhere from there on |
| Placeholders.ReplaceFirst | src/request/RequestBinder.ts:46 | a definition without a contract: `path.replace(match[0], name)` replaces the first occurrence found by `IndexOf`, and leaves the text as it is when there is none |
| Placeholders.ExpandAsWritten | src/request/RequestBinder.ts:39-47 | a definition without a contract, the loop as the source writes it: search from `lastIndex`, skip unresolved names, replace the first occurrence of the placeholder text, and keep `lastIndex` at the end of the match in the old path; `ShortValueSkipsPlaceholder`, `SelfReferenceNeverEnds` and `AsWrittenAgrees` state where it goes wrong and where it agrees with `Substitute` |
| Placeholders.ShortValueSkipsPlaceholder | src/request/RequestBinder.ts:40-46 | as written, `{appId}/{id}` with `appId` = `a` and `id` = `7` ends as `a/{id}`; the corrected expansion gives `a/7` |
| Placeholders.SelfReferenceNeverEnds | src/request/RequestBinder.ts:40-46 | as written, `{a}` with `a` = `{a}{a}` never ends, whatever the number of turns allowed; the corrected expansion gives `{a}{a}` |
| Placeholders.NextPlaceholder | src/request/RequestBinder.ts:39-40 | a `{name}` with no `{` before it and no `}` or line terminator in its name is the next match |
| Placeholders.SubstituteLeading | src/request/RequestBinder.ts:39-47 | a path made of brace-free text, a placeholder and a rest expands to the text, the placeholder's value (or the placeholder), then the expansion of the rest |
| Placeholders.SubstituteBraceFree | src/request/RequestBinder.ts:40 | text without `{` expands to itself |
| Placeholders.ConsumptionExpands | src/request/RequestBinder.ts:39-47 | with `appId`, `id` and `type` resolving to `__mock__`, `1000` and `codeunit`, the consumption path expands to `__mock__/1000/consumption/codeunit_data.json` |
| Placeholders.ConsumptionPathExpands | test/RequestBinder.test.ts:52-107 | the consumption path expands the same way with all names in the body, and with the names split over body and query |
| Placeholders.AsWrittenAgrees | src/request/RequestBinder.ts:39-47 | the loop as written ends with the single left-to-right expansion when every `{` opens a placeholder whose value holds no `{` and is no shorter than the placeholder, given one turn per `{` |
| Placeholders.ConsumptionAsWritten | src/request/RequestBinder.ts:39-49 | with `appId`, `id` and `type` resolving to `__mock__`, `1000` and `codeunit`, the loop as written ends in three turns with `__mock__/1000/consumption/codeunit_data.json`, the path the blob is read from |
| Placeholders.ConsumptionPathAsWritten | test/RequestBinder.test.ts:52-107 | the loop as written reads that path for both test requests: all names in the body, and names split over body and query |
| Responses.NewErrorResponse | src/request/ErrorResponse.ts:6-10 | the body is always truthy: a truthy body is kept and a falsy one becomes "An unspecified error has occurred"; an omitted status is 400 and omitted headers are empty; supplied values are stored unchanged |
| Responses.RebuildIsIdentity | src/request/ErrorResponse.ts:6-10 | building a response again from its own fields gives it back |
| Responses.SameResponseIff | src/request/ErrorResponse.ts:6-10 | two calls give the same response iff their arguments agree after the defaults are applied |
| Responses.MaintenanceResponse | test/RequestHandler.test.ts:53-60 | a 503 response with a message and `retry-after` keeps all three |
| Binding.Assemble | src/request/RequestBinder.ts:33-55 | the result has one key per bound property; a property holds the value read for its last binding |
| Binding.AssembleNext | src/request/RequestBinder.ts:34-54 | one more binding sets its property and keeps the rest |
| Binding.Fetch | src/request/RequestBinder.ts:36-53 | a definition without a contract: the blob read at the binding's path after `Substitute`, in its container, or `undefined` when the read throws |
| Binding.EveryBindingBound | src/request/RequestBinder.ts:33-55 | with distinct properties, each binding's property holds that binding's blob, or `undefined` when the read throws |
| Binding.RequestBinder.constructor | src/request/RequestBinder.ts:15 | a binder starts with no bindings |
| Binding.RequestBinder.GetPropertyBinder | src/request/RequestBinder.ts:17-22 | refuses iff some binding already has the path, with the source's message; otherwise hands out a binder for the path and container |
| Binding.RequestBinder.To | src/request/RequestBinder.ts:23-28 | refuses iff some binding already fills the property, with the source's message, leaving the bindings unchanged; otherwise appends exactly one binding at the end; properties stay pairwise distinct |
| Binding.RequestBinder.GetBindings | src/request/RequestBinder.ts:32-57 | the loop over the bindings assembles exactly `Assemble` of them |
| Binding.Read | src/request/RequestBinder.ts:36-53 | a binding's value is the blob read at its path after the corrected placeholder expansion `Placeholders.Substitute`, or `undefined` when the read throws |
| Binding.SamePathTwice | src/request/RequestBinder.ts:17-28 | two binders taken for the same path before either is used both succeed, so stored paths can repeat while properties stay distinct |
| Handling.RespondSuccess | src/request/RequestHandler.ts:92-99 | 200 with the result as body, and a JSON `Content-Type` header iff the result's `typeof` is `"object"`: an object, an array or `null` |
| Handling.RespondThrown | src/request/RequestHandler.ts:100-109 | the timeout token gives 408 "Blob operation has timed out."; an `ErrorResponse` is copied field for field; anything else gives 500 with a body `{errorMessage}`, holding the value's truthy `message` when it has one |
| Handling.RespondTooManyRequests | src/request/RequestHandler.ts:45-47 | a definition without a contract: 429 with `{errorMessage: "Chill down, will you please?"}` and no headers |
| Handling.RespondUnauthorized | src/request/RequestHandler.ts:37-39 | a definition without a contract: 401 with `{errorMessage: "Invalid credentials"}` and no headers |
| Handling.RespondBadRequest | src/request/RequestHandler.ts:33-35 | a definition without a contract: 400 with the message, or `Bad request format` when it is falsy |
| Handling.RespondTimeout | src/request/RequestHandler.ts:41-43 | a definition without a contract: 408 with the message, or `Request has timed out` when it is empty |
| Handling.RespondServerError | src/request/RequestHandler.ts:49-51 | a definition without a contract: 500 with the message, or the fixed unhandled-error text when it is falsy |
| Handling.ThrownMessage | src/request/RequestHandler.ts:108 | a definition without a contract: the thrown value's truthy `message`, else its string form; `ThrownMessageCases` states its two cases |
| Handling.Respond | src/request/RequestHandler.ts:72-110 | the reference definition of the early returns, whose ensures spell out its branches: 429 if the limiter refuses; else 401 if authorization fails; else 400 with the validation message; else the handler's result or what it threw. `FirstFailureDecides` and `StatusNamesTheStage` state what it means |
| Handling.FirstFailureDecides | src/request/RequestHandler.ts:72-110 | two runs that agree on every stage up to where the first stops get the same response |
| Handling.StatusNamesTheStage | src/request/RequestHandler.ts:24-110 | unless an `ErrorResponse` is thrown, each status names its stage, both ways: 429, 401, 400, 200, 408, 500 |
| Handling.ErrorMessageAlwaysPresent | src/request/RequestHandler.ts:24-51 | every response the pipeline writes itself has the body `{errorMessage}` with a truthy message and no headers |
| Handling.ErrorResponseCopied | src/request/RequestHandler.ts:104-107 | a thrown `ErrorResponse` reaches the client with its own status, body and headers |
| Handling.ThrownMessageCases | src/request/RequestHandler.ts:108 | a truthy `message` property is the message; otherwise the value's string form is |
| Handling.ValidationStage | src/request/RequestHandler.ts:61-70 | validation fails in the pipeline iff `validate` throws, and the bad-request text is the error's message, which is never empty |
| Handling.RequestHandler.constructor | src/request/RequestHandler.ts:12-22 | a handler starts with an empty validator and binder, no callbacks and rate limiting on |
| Handling.RequestHandler.NoRateLimit | src/request/RequestHandler.ts:116-118 | switches the limiter off and changes nothing else |
| Handling.RequestHandler.OnTooManyRequests | src/request/RequestHandler.ts:124-126 | registers the rejection callback and changes nothing else |
| Handling.RequestHandler.OnAuthorization | src/request/RequestHandler.ts:128-130 | registers the authorization callback and changes nothing else |
| Handling.RequestHandler.Bind | src/request/RequestHandler.ts:112-114 | delegates to the binder: refused iff the path is already bound |
| Handling.RequestHandler.StagesFor | src/request/RequestHandler.ts:72-91 | a definition without a contract: the stage results of one request, namely the limiter's answer, the authorization callback (none means authorized), the validation outcome and the handler's outcome on the assembled bindings |
| Handling.RequestHandler.HandleHttpRequest | src/request/RequestHandler.ts:72-110 | the response is `Respond` of the stage results the limiter, callback, validator, bindings and handler produce; with the limiter off it is never consulted and gives no notice; otherwise the limiter changes as `Accept` says |
| Handling.RequestHandler.Proceed | src/request/RequestHandler.ts:77-109 | past the limiter: authorize, validate, bind and run the handler, the first failure deciding |

## Left out

- Blob store (`src/Blob`): its source is not part of this model. The read is the parameter `BlobReader`; its timeout token appears only as a value the handler can throw.
- Clock, logging and concurrency: `Date.now()` is the parameter `now`, and `context.log` calls are dropped. Each call runs as one sequential step, as it does in single-threaded JavaScript.
- Exceptions from callbacks: a rejection callback, an authorization callback, a user validator or the handler's own `bind` throwing past the handler is not modelled.
- RequestContext (src/request/RequestContext.ts): its memoised `bind` is not part of this model. The authorization callback and the handler see the request, and the handler also sees the assembled bindings.
- The `validator` and `azureFunction` getters are not modelled: they only expose members.
- Floating point: numbers are integers, so NaN, Infinity and fractional values such as `3.14` in the tests are not modelled.
- JSON values: only objects have own properties, and a target or body that is a truthy string or array is treated as having none.
- Header values: a non-string `x-forwarded-for` reads as missing, where the source would throw on `split`.
- `expect`: a template entry whose type is not a string is not modelled; the source would throw a `TypeError` on `endsWith`.
- Placeholder names such as `__proto__`, which reach prototype properties in JavaScript, are ordinary keys here.
- Binding.Assemble: a bound property named `__proto__` is an ordinary key here. The source's `(bindings as any)[property] = value` (src/request/RequestBinder.ts:54) sets the prototype of the result instead of adding an own key.
- `$` patterns in a replacement value (`$&`, `$1`) are not modelled: `replace` inserts the value literally.
- Validator names: `Object.keys` lists integer-like names before the others; newly defined names are appended at the end here. This only affects the list in the "incorrect type" message.
- Unused code in the limiter: the `appId` read in `getContext` and the `MAX_VIOLATIONS` constant (the threshold is the literal 3).
- The `number[?]` tests describe types that the `expect` shown refuses, so no property is drawn from them.
- Placeholders.ExpandAsWritten: the loop as written is run for at most `fuel` turns, because it need not terminate (see Findings). `None` means the turns did not suffice.
- Handling.RequestHandler.HandleHttpRequest: the rejection callback is a flag, and its call is returned as a `Notice` rather than made.
- Binding.Fetch: expands the blob path with the corrected single pass `Placeholders.Substitute`, not with the loop as written (see Findings). For `{appId}/{id}` with `appId` = `a` and `id` = `7` it reads `a/7`, where the program reads `a/{id}`. For `{a}` with `a` = `{a}{a}` it reads `{a}{a}`, where the program never ends. `Placeholders.AsWrittenAgrees` states the paths on which the two agree.
- Binding.Read: uses the corrected expansion, as `Binding.Fetch` does, with the same two differing inputs.
- Binding.RequestBinder.GetBindings: uses the corrected expansion, as `Binding.Fetch` does, with the same two differing inputs.
- Handling.RequestHandler.HandleHttpRequest: binds through the corrected expansion, as `Binding.Fetch` does, with the same two differing inputs.
- Handling.RequestHandler.Proceed: binds through the corrected expansion, as `Binding.Fetch` does, with the same two differing inputs.
- RateLimiting.RateLimiter.Accept: the three per-address maps are plain objects in the source (src/rateLimit/RateLimiter.ts:64-68), so an address that names an inherited property finds a truthy value there. With `X-Forwarded-For: constructor` the log holds `Object`, is not initialised, and `.filter` throws a `TypeError`. Here every address starts with empty logs and the call is decided normally.
- Validation.ValidateTarget: a target with an own key `hasOwnProperty` makes `target.hasOwnProperty(property)` throw (src/validation/RequestValidator.ts:33), and the handler answers 400 "target.hasOwnProperty is not a function". Here own properties are looked up directly, so such a target can pass.
- Placeholders.ExpandAsWritten: JavaScript string indices, `lastIndex` and `.length` count UTF-16 code units, while the model counts characters. The two differ on characters outside the Basic Multilingual Plane. For `{a}x{b}` with `a` = U+1F600 (one character, two UTF-16 code units) the model's `lastIndex` passes `{b}`, which JavaScript still expands.

## Findings

| source | as written | input that shows it | evidently intended | confidence | as-written member | corrected member |
|---|---|---|---|---|---|---|
| src/request/RequestBinder.ts:40-46 | after `path.replace`, the regular expression's `lastIndex` still holds the end of the match in the old path, so a shorter value leaves the search past the next placeholder | path `{appId}/{id}`, body `{appId: "a", id: "7"}`: the path read is `a/{id}` | every placeholder is expanded once, left to right: `a/7` | high; not executed | Placeholders.ShortValueSkipsPlaceholder | Placeholders.Expand |
| src/request/RequestBinder.ts:40-46 | a value that contains a placeholder is searched again, so a value containing its own placeholder expands forever | path `{a}`, body `{a: "{a}{a}"}`: the loop never ends | inserted values are not expanded again: `{a}{a}` | high; not executed | Placeholders.SelfReferenceNeverEnds | Placeholders.Expand |
