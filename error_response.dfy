/** The value a request handler throws to answer with a status, body and headers of its own
    choosing. */
module Responses {
  import opened Results
  import opened Json

  datatype ErrorResponse = ErrorResponse(body: Value, status: int, headers: map<string, string>)

  const UnspecifiedError: string := "An unspecified error has occurred"
  const DefaultStatus: int := 400

  /** `new ErrorResponse(body, status?, headers?)`: an omitted argument is `None`. A falsy body
      is replaced by a fixed text; an omitted status is 400; omitted headers are empty. */
  function NewErrorResponse(body: Value, status: Option<int>, headers: Option<map<string, string>>): (e: ErrorResponse)
    ensures Truthy(e.body)
    ensures Truthy(body) ==> e.body == body
    ensures !Truthy(body) ==> e.body == Str(UnspecifiedError)
    ensures status.None? ==> e.status == DefaultStatus
    ensures status.Some? ==> e.status == status.value
    ensures headers.None? ==> e.headers == map[]
    ensures headers.Some? ==> e.headers == headers.value
  {
    ErrorResponse(if Truthy(body) then body else Str(UnspecifiedError),
                  if status.Some? then status.value else DefaultStatus,
                  if headers.Some? then headers.value else map[])
  }

  /** Every error response is built from some arguments, and building one again from its own
      fields gives it back: the defaults never alter a response that has already been built. */
  lemma RebuildIsIdentity(body: Value, status: Option<int>, headers: Option<map<string, string>>)
    ensures var e := NewErrorResponse(body, status, headers);
      NewErrorResponse(e.body, Some(e.status), Some(e.headers)) == e
  {
  }

  /** Two calls give the same response exactly when their arguments agree after the defaults
      are applied: any two falsy bodies are interchangeable, and so are an omitted status and
      400, and omitted and empty headers. */
  lemma SameResponseIff(b1: Value, s1: Option<int>, h1: Option<map<string, string>>,
                        b2: Value, s2: Option<int>, h2: Option<map<string, string>>)
    ensures NewErrorResponse(b1, s1, h1) == NewErrorResponse(b2, s2, h2) <==>
      && (if Truthy(b1) then b1 else Str(UnspecifiedError)) == (if Truthy(b2) then b2 else Str(UnspecifiedError))
      && (if s1.Some? then s1.value else DefaultStatus) == (if s2.Some? then s2.value else DefaultStatus)
      && (if h1.Some? then h1.value else map[]) == (if h2.Some? then h2.value else map[])
  {
    var e1, e2 := NewErrorResponse(b1, s1, h1), NewErrorResponse(b2, s2, h2);
    if e1 == e2 {
      assert e1.body == e2.body && e1.status == e2.status && e1.headers == e2.headers;
    }
  }

  /** A handler signalling scheduled maintenance: the message, 503 and `retry-after` survive. */
  lemma MaintenanceResponse()
    ensures var e := NewErrorResponse(Str("Scheduled maintenance"), Some(503), Some(map["retry-after" := "3600"]));
      && e.status == 503 && e.headers["retry-after"] == "3600" && e.body == Str("Scheduled maintenance")
  {
  }
}
