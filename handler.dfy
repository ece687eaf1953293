/** The request pipeline of an HTTP-triggered function: rate limit, authorize, validate, bind,
    then run the handler, the first stage that fails deciding the response. */
module Handling {
  import opened Results
  import opened Json
  import opened Http
  import opened RateLimiting
  import opened Validation
  import opened Binding
  import opened Responses

  /** What a handler throws: the blob timeout token, an `ErrorResponse`, or any other value
      `e` together with its string form `${e}`. */
  datatype Thrown =
    | TimeoutToken
    | Rejection(response: ErrorResponse)
    | Other(e: Value, text: string)

  datatype HandlerOutcome = Returned(result: Value) | Threw(thrown: Thrown)

  /** The handler a `RequestHandler` wraps: it sees the request and the bound blobs. */
  type HandlerFunc = (HttpRequest, map<string, Value>) -> HandlerOutcome

  /** The authorization callback: it sees the request and answers whether it may proceed. */
  type AuthorizationCallback = HttpRequest -> bool

  // ---------------------------------------------------------------------------------------
  // Responses

  const TooManyRequestsText: string := "Chill down, will you please?"
  const InvalidCredentialsText: string := "Invalid credentials"
  const BadRequestText: string := "Bad request format"
  const RequestTimeoutText: string := "Request has timed out"
  const BlobTimeoutText: string := "Blob operation has timed out."
  const UnhandledErrorText: string := "An unhandled error with an unknown error message has occurred. This is most likely a bug in code."

  function ErrorBody(message: Value): Value {
    Obj(map["errorMessage" := message])
  }

  /** `respondError`: the status and a body holding only `errorMessage`, no headers. */
  function RespondError(message: Value, status: int): Response {
    Response(status, ErrorBody(message), None)
  }

  function RespondTooManyRequests(): Response {
    RespondError(Str(TooManyRequestsText), 429)
  }

  function RespondUnauthorized(): Response {
    RespondError(Str(InvalidCredentialsText), 401)
  }

  /** `respondBadRequest`: the message, or a fixed text when it is falsy. */
  function RespondBadRequest(message: Value): Response {
    RespondError(if Truthy(message) then message else Str(BadRequestText), 400)
  }

  /** `respondTimeout`: the message, or a fixed text when it is empty. */
  function RespondTimeout(message: string): Response {
    RespondError(Str(if message != "" then message else RequestTimeoutText), 408)
  }

  /** `respondServerError`: the message, or a fixed text when it is falsy. */
  function RespondServerError(message: Value): Response {
    RespondError(if Truthy(message) then message else Str(UnhandledErrorText), 500)
  }

  /** `e && e.message || `${e}``: the thrown value's `message` property, or its string form. */
  function ThrownMessage(e: Value, text: string): Value {
    var m := if Truthy(e) then Prop(e, "message") else e;
    if Truthy(m) then m else Str(text)
  }

  /** The `Content-Type` header a successful result carries when its `typeof` is `"object"`. */
  const JsonHeaders: map<string, string> := map["Content-Type" := "application/json"]

  /** `200` with the handler's result as the body. */
  function RespondSuccess(result: Value): (r: Response)
    ensures r.status == 200 && r.body == result
    ensures r.headers.Some? <==> result.Null? || result.Arr? || result.Obj?
    ensures r.headers.Some? ==> r.headers.value.Keys == {"Content-Type"} && r.headers.value["Content-Type"] == "application/json"
  {
    Response(200, result, if Typeof(result) == "object" then Some(JsonHeaders) else None)
  }

  /** The response to a thrown value: the timeout token first, then an `ErrorResponse`, whose
      fields are copied, then anything else as a server error. */
  function RespondThrown(t: Thrown): (r: Response)
    ensures t.TimeoutToken? ==> r.status == 408 && r.body == ErrorBody(Str(BlobTimeoutText))
    ensures t.Rejection? ==> r == Response(t.response.status, t.response.body, Some(t.response.headers))
    ensures t.Other? ==> r.status == 500 && r.body.Obj? && r.body.props.Keys == {"errorMessage"}
    ensures t.Other? && Truthy(Prop(t.e, "message")) ==> r.body == ErrorBody(Prop(t.e, "message"))
  {
    match t
    case TimeoutToken => RespondTimeout(BlobTimeoutText)
    case Rejection(e) => Response(e.status, e.body, Some(e.headers))
    case Other(e, text) => RespondServerError(ThrownMessage(e, text))
  }

  // ---------------------------------------------------------------------------------------
  // The stages

  /** The result of every stage of one request: admission by the rate limiter, the
      authorization answer, the validation outcome (the thrown error's message) and what the
      handler did with the bound blobs. */
  datatype Stages = Stages(admitted: bool, authorized: bool, validation: Outcome<string>, outcome: HandlerOutcome)

  /** `handleHttpRequest` as an early-return sequence over the stage results. */
  function Respond(s: Stages): (r: Response)
    ensures !s.admitted ==> r == RespondTooManyRequests()
    ensures s.admitted && !s.authorized ==> r == RespondUnauthorized()
    ensures s.admitted && s.authorized && s.validation.Fail? ==> r == RespondBadRequest(Str(s.validation.error))
    ensures s.admitted && s.authorized && s.validation.Pass? ==>
      r == match s.outcome case Returned(v) => RespondSuccess(v) case Threw(t) => RespondThrown(t)
  {
    if !s.admitted then RespondTooManyRequests()
    else if !s.authorized then RespondUnauthorized()
    else if s.validation.Fail? then RespondBadRequest(Str(s.validation.error))
    else match s.outcome
      case Returned(v) => RespondSuccess(v)
      case Threw(t) => RespondThrown(t)
  }

  /** The stage at which `s` stops: the first that fails, or 4 when the handler ran. */
  function StopsAt(s: Stages): (k: nat)
    ensures k <= 4
  {
    if !s.admitted then 0 else if !s.authorized then 1 else if s.validation.Fail? then 2 else 4
  }

  /** The first failing stage decides: two runs that agree on every stage up to the one where
      the first stops get the same response, whatever the later stages would have given. */
  lemma FirstFailureDecides(s: Stages, t: Stages)
    requires s.admitted == t.admitted
    requires StopsAt(s) >= 1 ==> s.authorized == t.authorized
    requires StopsAt(s) >= 2 ==> s.validation == t.validation
    requires StopsAt(s) >= 4 ==> s.outcome == t.outcome
    ensures Respond(s) == Respond(t)
  {
  }

  predicate ThrewErrorResponse(s: Stages) {
    s.outcome.Threw? && s.outcome.thrown.Rejection?
  }

  /** Unless the handler threw an `ErrorResponse`, whose status is its own, the status tells
      which stage decided: 429 the rate limiter, 401 authorization, 400 validation, 200 a
      returned result, 408 the timeout token and 500 any other thrown value. */
  lemma StatusNamesTheStage(s: Stages)
    requires !(StopsAt(s) == 4 && ThrewErrorResponse(s))
    ensures Respond(s).status == 429 <==> StopsAt(s) == 0
    ensures Respond(s).status == 401 <==> StopsAt(s) == 1
    ensures Respond(s).status == 400 <==> StopsAt(s) == 2
    ensures Respond(s).status == 200 <==> StopsAt(s) == 4 && s.outcome.Returned?
    ensures Respond(s).status == 408 <==> StopsAt(s) == 4 && s.outcome == Threw(TimeoutToken)
    ensures Respond(s).status == 500 <==> StopsAt(s) == 4 && s.outcome.Threw? && s.outcome.thrown.Other?
  {
  }

  /** Every response the pipeline writes itself (all but a returned result and a copied
      `ErrorResponse`) has a body `{errorMessage}` whose message is truthy, and no headers. */
  lemma ErrorMessageAlwaysPresent(s: Stages)
    requires !(StopsAt(s) == 4 && (s.outcome.Returned? || ThrewErrorResponse(s)))
    ensures var r := Respond(s);
      && r.headers.None?
      && r.body.Obj? && r.body.props.Keys == {"errorMessage"}
      && Truthy(r.body.props["errorMessage"])
  {
    if StopsAt(s) == 2 {
      assert Respond(s) == RespondBadRequest(Str(s.validation.error));
    } else if StopsAt(s) == 4 {
      match s.outcome.thrown
      case TimeoutToken =>
      case Other(e, text) =>
        assert Respond(s) == RespondServerError(ThrownMessage(e, text));
    }
  }

  /** A thrown `ErrorResponse` reaches the client with exactly its own status, body and
      headers, so a handler decides those fully, even for a status of its own such as 503. */
  lemma ErrorResponseCopied(s: Stages, e: ErrorResponse)
    requires s.admitted && s.authorized && s.validation.Pass? && s.outcome == Threw(Rejection(e))
    ensures Respond(s).status == e.status && Respond(s).body == e.body && Respond(s).headers == Some(e.headers)
  {
  }

  /** The message of a thrown value: a truthy `message` property wins, and otherwise the
      string form, so an `Error` without a message and a thrown string both show their text. */
  lemma ThrownMessageCases(e: Value, text: string)
    ensures Truthy(Prop(e, "message")) ==> ThrownMessage(e, text) == Prop(e, "message")
    ensures !Truthy(Prop(e, "message")) ==> ThrownMessage(e, text) == Str(text)
  {
  }

  /** The validation outcome as the pipeline sees it: the message of the thrown error. */
  function ValidationStage(v: Outcome<ValidationError>): (r: Outcome<string>)
    ensures r.Pass? <==> v.Pass?
    ensures r.Fail? ==> r.error != "" && r.error == v.error.Message()
  {
    match v
    case Pass => Pass
    case Fail(e) => Fail(e.Message())
  }

  // ---------------------------------------------------------------------------------------
  // The handler object

  class RequestHandler {
    const handler: HandlerFunc
    const validator: RequestValidator
    const binder: RequestBinder
    var rejectionCallback: bool
    var onAuthorization: Option<AuthorizationCallback>
    var noRateLimit: bool

    /** A handler with no templates, no bindings, no callbacks and rate limiting on; its
        validator consults the shared validator registry. */
    constructor (handler: HandlerFunc, registry: TypeRegistry)
      ensures this.handler == handler
      ensures fresh(validator) && validator.Valid() && validator.registry == registry && validator.templates == map[]
      ensures fresh(binder) && binder.Valid() && binder.bindings == []
      ensures !rejectionCallback && onAuthorization.None? && !noRateLimit
    {
      this.handler := handler;
      validator := new RequestValidator(registry);
      binder := new RequestBinder();
      rejectionCallback := false;
      onAuthorization := None;
      noRateLimit := false;
    }

    method NoRateLimit()
      modifies this
      ensures noRateLimit
      ensures rejectionCallback == old(rejectionCallback) && onAuthorization == old(onAuthorization)
    {
      noRateLimit := true;
    }

    /** Registers the rejection callback; the notices the limiter produces are its calls. */
    method OnTooManyRequests()
      modifies this
      ensures rejectionCallback
      ensures noRateLimit == old(noRateLimit) && onAuthorization == old(onAuthorization)
    {
      rejectionCallback := true;
    }

    method OnAuthorization(callback: AuthorizationCallback)
      modifies this
      ensures onAuthorization == Some(callback)
      ensures noRateLimit == old(noRateLimit) && rejectionCallback == old(rejectionCallback)
    {
      onAuthorization := Some(callback);
    }

    /** `bind`: a property binder for a path no binding has yet. */
    method Bind(path: string, container: Option<string>) returns (r: Result<PropertyBinder, string>)
      ensures r.Failure? <==> exists i :: 0 <= i < |binder.bindings| && binder.bindings[i].path == path
      ensures r.Failure? ==> r.error == "Binding for " + path + " already exists"
      ensures r.Success? ==> r.value == PropertyBinder(path, container)
    {
      r := binder.GetPropertyBinder(path, container);
    }

    /** The stage results `handleHttpRequest` would see for `req`, given whether the limiter
        admits it. */
    function StagesFor(admitted: bool, req: HttpRequest, read: BlobReader): Stages
      reads this, validator, validator.registry, binder
    {
      Stages(admitted,
             onAuthorization.None? || onAuthorization.value(req),
             ValidationStage(validator.Validate(req)),
             handler(req, Assemble(binder.bindings, req, read)))
    }

    /** `handleHttpRequest` at time `now`, with the shared rate limiter and the storage read.
        `notice` is the call the rejection callback receives, if any. */
    method HandleHttpRequest(limiter: RateLimiter, req: HttpRequest, now: int, read: BlobReader)
      returns (res: Response, notice: Option<Notice>)
      requires limiter.Valid()
      modifies limiter
      ensures limiter.Valid()
      ensures noRateLimit ==>
        && notice == None
        && limiter.log == old(limiter.log) && limiter.violations == old(limiter.violations)
        && limiter.nextRequestAt == old(limiter.nextRequestAt)
      ensures var ctx := GetContext(req);
        var a := Admit(old(limiter.CallerOf(ctx.ipAddress)), now);
        && res == Respond(StagesFor(noRateLimit || a.accepted, req, read))
        && (!noRateLimit ==>
              notice == (if rejectionCallback && a.violation.Some?
                         then Some(Notice(req.verb, ctx.endpoint, ctx.ipAddress, ReasonText(a.violation.value, a.banned)))
                         else None))
        && (!noRateLimit && BanActive(old(limiter.CallerOf(ctx.ipAddress)), now) ==>
              && limiter.log == old(limiter.log) && limiter.violations == old(limiter.violations)
              && limiter.nextRequestAt == old(limiter.nextRequestAt))
        && (!noRateLimit && !BanActive(old(limiter.CallerOf(ctx.ipAddress)), now) ==>
              && limiter.log == old(limiter.log)[ctx.ipAddress := a.after.requests]
              && limiter.violations == old(limiter.violations)[ctx.ipAddress := a.after.violations]
              && limiter.nextRequestAt == (if a.banned then old(limiter.nextRequestAt)[ctx.ipAddress := now + BanDuration]
                                           else old(limiter.nextRequestAt)))
    {
      notice := None;
      if !noRateLimit {
        var accepted;
        accepted, notice := limiter.Accept(req, now, rejectionCallback);
        if !accepted {
          return RespondTooManyRequests(), notice;
        }
      }
      res := Proceed(req, read);
    }

    /** The stages past the rate limiter, for an admitted request. */
    method Proceed(req: HttpRequest, read: BlobReader) returns (res: Response)
      ensures res == Respond(StagesFor(true, req, read))
    {
      if onAuthorization.Some? && !onAuthorization.value(req) {
        return RespondUnauthorized();
      }
      var validation := validator.Validate(req);
      if validation.Fail? {
        return RespondBadRequest(Str(validation.error.Message()));
      }
      var bindings := binder.GetBindings(req, read);
      var outcome := handler(req, bindings);
      res := match outcome case Returned(v) => RespondSuccess(v) case Threw(t) => RespondThrown(t);
    }
  }
}
