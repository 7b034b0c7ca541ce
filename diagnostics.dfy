/**
 * The error taxonomy of the service (src/diagnostics.rs): the conversion from
 * database errors and the rendering of every error as an HTTP response.
 */
module Diagnostics {
  import Http
  import Sqlx
  import opened Wrappers

  /**
   * The variants of `diagnostics::Error`. A payload that is a foreign error
   * (I/O, anyhow, multipart, migration, the two axum rejections) is kept as its
   * `Debug` text, which is all the rendering uses of it.
   */
  datatype Error =
    | IoError(io: string)
    | AnyhowError(anyhow: string)
    | Message(text: string)
    | JsonResponse(code: Http.StatusCode, json: Http.Json)
    | NotFound
    | Unauthorized
    | NotImplemented
    | JsonRejection(rejection: string)
    | PathRejection(rejection: string)
    | MultipartError(multipart: string)
    | SqlXError(sqlx: Sqlx.Error)
    | SqlXMigrateError(migrate: string)
    | RowNotFound
    | BB8Error(bb8: string)

  /** `diagnostics::Result<T>`. */
  type Outcome<T> = Result<T, Error>

  /** `From<sqlx::Error>`: a missing row keeps its meaning, everything else is wrapped. */
  function FromSqlx(e: Sqlx.Error): (r: Error)
    ensures r == RowNotFound <==> e == Sqlx.RowNotFound
    ensures r != RowNotFound ==> r == SqlXError(e)
  {
    match e
    case RowNotFound => RowNotFound
    case Other(_) => SqlXError(e)
  }

  /**
   * `IntoResponse::into_response`. `debug` stands for the derived `Debug`
   * rendering of the error, which the catch-all arm puts in the body.
   */
  function IntoResponse(e: Error, debug: Error -> string): (r: Http.Response)
    ensures Http.DiagnosticsError in r.headers && r.headers[Http.DiagnosticsError] == "true"
    ensures e.JsonResponse? ==> r.status == e.code && r.body == Http.JsonBody(e.json)
    ensures e.JsonRejection? || e.PathRejection? ==>
      r.status == Http.BadRequest && r.body == Http.JsonBody(Http.Field("message", e.rejection))
    ensures e.NotFound? ==> r.status == Http.NotFound && r.body == Http.Empty
    ensures e.Unauthorized? ==> r.status == Http.Unauthorized && r.body == Http.Empty
    ensures !(e.JsonResponse? || e.JsonRejection? || e.PathRejection? || e.NotFound? || e.Unauthorized?) ==>
      r.status == Http.BadRequest && r.body == Http.JsonBody(Http.Field("message", debug(e)))
  {
    var res := match e
      case JsonResponse(code, json) => Http.WithJson(code, json)
      case JsonRejection(err) => Http.WithJson(Http.BadRequest, Http.Field("message", err))
      case PathRejection(err) => Http.WithJson(Http.BadRequest, Http.Field("message", err))
      case NotFound => Http.StatusOnly(Http.NotFound)
      case Unauthorized => Http.StatusOnly(Http.Unauthorized)
      case _ => Http.WithJson(Http.BadRequest, Http.Field("message", debug(e)));
    res.(headers := res.headers[Http.DiagnosticsError := "true"])
  }

  /**
   * Apart from an explicit `JsonResponse`, an error renders as 404 only when it
   * is `NotFound` and as 401 only when it is `Unauthorized`; a database
   * `RowNotFound` renders as 400.
   */
  lemma RenderedStatus(e: Error, debug: Error -> string)
    requires !e.JsonResponse?
    ensures var s := IntoResponse(e, debug).status;
      && (s == Http.NotFound <==> e.NotFound?)
      && (s == Http.Unauthorized <==> e.Unauthorized?)
      && (s == Http.BadRequest <==> !e.NotFound? && !e.Unauthorized?)
  {
  }

  lemma MissingRowIsBadRequest(debug: Error -> string)
    ensures IntoResponse(FromSqlx(Sqlx.RowNotFound), debug).status == Http.BadRequest
  {
  }
}
