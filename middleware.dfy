/**
 * `response_map` (app/src/util/middleware.rs): the response middleware that
 * gives every 4xx/5xx response a JSON body unless it was already rendered from
 * a `diagnostics::Error`.
 */
module Middleware {
  import opened Http
  import opened Utf8
  import opened Wrappers
  import AppDiagnostics

  /** The classes of RFC 9110 sections 15.5 (client error) and 15.6 (server error). */
  predicate IsErrorStatus(s: StatusCode) {
    IsClientError(s) || IsServerError(s)
  }

  /**
   * `response_map(res)`. `read` is the outcome of reading the whole body
   * (`hyper::body::to_bytes`), which the source awaits and which may fail.
   */
  function ResponseMap(res: Response, read: Option<seq<byte>>): (r: Response)
    ensures r.status == res.status
    ensures !IsErrorStatus(res.status) ==> r == res
    ensures DiagnosticsError in res.headers ==> r == res
    ensures IsErrorStatus(res.status) && DiagnosticsError !in res.headers ==>
      DiagnosticsError !in r.headers && (r.body.Empty? || r.body.JsonBody?)
  {
    if IsErrorStatus(res.status) then
      if DiagnosticsError in res.headers then
        res
      else if read.Some? && Decode(read.value).Some? then
        WithJson(res.status, Field("error", Decode(read.value).value))
      else
        StatusOnly(res.status)
    else
      res
  }

  /**
   * An error response without the marker gets the body `{"error": text}`
   * exactly when its body bytes are the UTF-8 encoding of `text`.
   */
  lemma WrapsUtf8Body(res: Response, read: Option<seq<byte>>, text: string)
    requires IsErrorStatus(res.status) && DiagnosticsError !in res.headers
    ensures ResponseMap(res, read) == WithJson(res.status, Field("error", text)) <==> read == Some(Encode(text))
  {
    if read.Some? {
      DecodesTo(read.value, text);
    }
  }

  /**
   * An error response without the marker keeps only its status, with no body,
   * exactly when its body cannot be read or is not UTF-8.
   */
  lemma DropsUnreadableBody(res: Response, read: Option<seq<byte>>)
    requires IsErrorStatus(res.status) && DiagnosticsError !in res.headers
    ensures ResponseMap(res, read) == StatusOnly(res.status) <==> (read.None? || Decode(read.value).None?)
  {
  }

  /** An unmarked error response whose body read yields no bytes becomes `{"error": ""}`. */
  lemma EmptyBodyBecomesEmptyError(res: Response)
    requires IsErrorStatus(res.status) && DiagnosticsError !in res.headers
    ensures ResponseMap(res, Some([])).body == JsonBody(Field("error", ""))
  {
  }

  /** Every response rendered from a `diagnostics::Error` passes the middleware unchanged. */
  lemma RenderedErrorsPassThrough(e: AppDiagnostics.Error, debug: AppDiagnostics.Error -> string,
                                  read: Option<seq<byte>>)
    ensures ResponseMap(AppDiagnostics.IntoResponse(e, debug), read) == AppDiagnostics.IntoResponse(e, debug)
  {
  }
}
