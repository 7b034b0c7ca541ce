/**
 * The error taxonomy of the later snapshot (app/src/diagnostics.rs): the same
 * conversion and rendering, over a variant set that has no `Unauthorized`.
 */
module AppDiagnostics {
  import Http
  import Sqlx
  import opened Wrappers

  /** The variants of `diagnostics::Error`; foreign error payloads are kept as their `Debug` text. */
  datatype Error =
    | IoError(io: string)
    | JsonRejection(rejection: string)
    | PathRejection(rejection: string)
    | MultipartError(multipart: string)
    | SqlXError(sqlx: Sqlx.Error)
    | RowNotFound
    | Other(anyhow: string)
    | NotFound
    | Message(text: string)
    | JsonResponse(code: Http.StatusCode, json: Http.Json)
    | NotImplemented

  /** `diagnostics::Result<T>`. */
  type Outcome<T> = Result<T, Error>

  /** `From<sqlx::Error>`. */
  function FromSqlx(e: Sqlx.Error): (r: Error)
    ensures r == RowNotFound <==> e == Sqlx.RowNotFound
    ensures r != RowNotFound ==> r == SqlXError(e)
  {
    match e
    case RowNotFound => RowNotFound
    case Other(_) => SqlXError(e)
  }

  /** `IntoResponse::into_response`; `debug` stands for the derived `Debug` rendering. */
  function IntoResponse(e: Error, debug: Error -> string): (r: Http.Response)
    ensures Http.DiagnosticsError in r.headers && r.headers[Http.DiagnosticsError] == "true"
    ensures e.JsonResponse? ==> r.status == e.code && r.body == Http.JsonBody(e.json)
    ensures e.JsonRejection? || e.PathRejection? ==>
      r.status == Http.BadRequest && r.body == Http.JsonBody(Http.Field("message", e.rejection))
    ensures e.NotFound? ==> r.status == Http.NotFound && r.body == Http.Empty
    ensures !(e.JsonResponse? || e.JsonRejection? || e.PathRejection? || e.NotFound?) ==>
      r.status == Http.BadRequest && r.body == Http.JsonBody(Http.Field("message", debug(e)))
  {
    var res := match e
      case JsonResponse(code, json) => Http.WithJson(code, json)
      case JsonRejection(err) => Http.WithJson(Http.BadRequest, Http.Field("message", err))
      case PathRejection(err) => Http.WithJson(Http.BadRequest, Http.Field("message", err))
      case NotFound => Http.StatusOnly(Http.NotFound)
      case _ => Http.WithJson(Http.BadRequest, Http.Field("message", debug(e)));
    res.(headers := res.headers[Http.DiagnosticsError := "true"])
  }

  /** Apart from an explicit `JsonResponse`, every error renders as 404 (`NotFound`) or 400 (all others). */
  lemma RenderedStatus(e: Error, debug: Error -> string)
    requires !e.JsonResponse?
    ensures var s := IntoResponse(e, debug).status;
      && (s == Http.NotFound <==> e.NotFound?)
      && (s == Http.BadRequest <==> !e.NotFound?)
  {
  }
}
