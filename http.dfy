/**
 * The HTTP values the error rendering and the middleware work on: status codes
 * and their classes (RFC 9110 sections 15.5 and 15.6), header names, JSON
 * values and responses as axum builds them.
 */
module Http {

  /** A status code as hyper represents it: three digits. */
  newtype StatusCode = x: int | 100 <= x < 1000 witness 200

  const BadRequest: StatusCode := 400    // RFC 9110 section 15.5.1
  const Unauthorized: StatusCode := 401  // RFC 9110 section 15.5.2
  const NotFound: StatusCode := 404      // RFC 9110 section 15.5.5

  /** `StatusCode::is_client_error`: the 4xx class. */
  predicate IsClientError(s: StatusCode) {
    400 <= s < 500
  }

  /** `StatusCode::is_server_error`: the 5xx class. */
  predicate IsServerError(s: StatusCode) {
    500 <= s < 600
  }

  /**
   * Header names. `DiagnosticsError` is the application's own marker header
   * (`define::CUSTOM_HEADER_IS_DIAGNOSTICS_ERROR`); its spelling lives in a file
   * that is not part of this model.
   */
  datatype HeaderName = ContentType | DiagnosticsError | Named(name: string)

  datatype Json =
    | JNull
    | JBool(b: bool)
    | JNumber(n: int)
    | JString(s: string)
    | JArray(items: seq<Json>)
    | JObject(members: seq<(string, Json)>)

  /** A response body: nothing, a JSON document, or a body some other handler produced. */
  datatype Body = Empty | JsonBody(json: Json) | Opaque

  datatype Response = Response(status: StatusCode, headers: map<HeaderName, string>, body: Body)

  /** `status.into_response()`: the status alone, no headers, no body. */
  function StatusOnly(status: StatusCode): Response {
    Response(status, map[], Empty)
  }

  /** `(status, Json(value)).into_response()`: the status with a JSON body. */
  function WithJson(status: StatusCode, value: Json): Response {
    Response(status, map[ContentType := "application/json"], JsonBody(value))
  }

  /** The object `{"<key>": "<text>"}`. */
  function Field(key: string, text: string): Json {
    JObject([(key, JString(text))])
  }
}
