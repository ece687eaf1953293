/** The parts of an HTTP request and response that the pipeline reads and writes. */
module Http {
  import opened Results
  import opened Json

  /** An inbound request. Its `verb` is `req.method`; a missing method, `url` or `originalUrl` is the empty string. */
  datatype HttpRequest = HttpRequest(
    verb: string,
    url: string,
    originalUrl: string,
    headers: Value,
    body: Value,
    query: Value,
    params: Value)

  /** `req.headers[name] || ""`; a header that is not a string reads as missing. */
  function Header(req: HttpRequest, name: string): string {
    var h := Prop(req.headers, name);
    if h.Str? then h.s else ""
  }

  /** The response written to `context.res`; `headers` is `None` when the response has none. */
  datatype Response = Response(status: int, body: Value, headers: Option<map<string, string>>)
}
