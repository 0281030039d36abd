/**
 * The HTTP front end (data_analysis/server/rest_router.py): the key check, the two report
 * endpoints and their status decisions, and the directory sweep. The bearer credentials are
 * the string FastAPI's `HTTPBearer` extracted; the clock is an input.
 */
module RestRouter {
  import opened Wrappers
  import opened Failures
  import opened Config
  import opened ReportGenerator
  import opened ServiceImpl

  datatype HttpResponse =
    | FileResponse(path: string, filename: string, mediaType: string)
    | HtmlBody(html: string)
    | HttpError(status: int, detail: string, bearerChallenge: bool)  // the last: a `WWW-Authenticate: Bearer` header

  const InvalidKeyDetail: string := "Invalid or expired API Key/Token"
  const NotFoundDetail: string := "Report not found or empty."

  /** `validate_token`: the credentials are exactly the configured key. */
  function ValidateToken(settings: Settings, token: string): (ok: bool)
    ensures ok <==> token == settings.apiKey
  {
    token == settings.apiKey
  }

  /** The 401 both endpoints raise before their `try`. */
  const Unauthorized: HttpResponse := HttpError(401, InvalidKeyDetail, true)

  /** `except Exception as e: raise HTTPException(status_code=500, detail=str(e))`. */
  function ServerError(e: Error): (r: HttpResponse)
    ensures r.HttpError? && r.status == 500 && !r.bearerChallenge
    ensures r.detail == e.Message()
  {
    HttpError(500, e.Message(), false)
  }

  // ---- GET /reports/manager/{manager_id}/pdf ----

  /** An endpoint's answer, with the pipeline run it started, if it started one. */
  datatype PdfReply = PdfReply(generated: Option<Outcome>, response: HttpResponse)

  /** `f"/manager_{manager_id}_{timestamp}.pdf"`, built from the endpoint's own clock reading. */
  function ServedFileName(managerId: int, now: Instant): (f: string)
    ensures f == "/" + ReportFileName(managerId, FormatTimestamp(now))
  {
    "/manager_" + Text.IntToString(managerId) + "_" + FormatTimestamp(now) + ".pdf"
  }

  /** The endpoint's path has the shape of the pipeline's, for the endpoint's clock reading. */
  lemma ServedPathShape(settings: Settings, managerId: int, now: Instant)
    ensures settings.pdfPath + ServedFileName(managerId, now) == ReportPdfPath(settings, managerId, now)
  {
  }

  /**
   * `get_manager_pdf` as written: the pipeline runs at `pipelineNow`, then the endpoint takes
   * its own clock reading `endpointNow` and serves the path built from that one.
   */
  function GetManagerPdfAsWritten(env: Env, settings: Settings, credentials: string, managerId: int,
                                  pipelineNow: Instant, endpointNow: Instant): (r: PdfReply)
    ensures !ValidateToken(settings, credentials) ==> r == PdfReply(None, Unauthorized)
    ensures ValidateToken(settings, credentials) ==>
      var o := GenerateManagerReport(env, settings, managerId, pipelineNow);
      && r.generated == Some(o)
      && (o.result.Err? ==> r.response == ServerError(o.result.error))
      && (o.result.Ok? ==> r.response == FileResponse(settings.pdfPath + ServedFileName(managerId, endpointNow),
                                                      ServedFileName(managerId, endpointNow), "application/pdf"))
  {
    if !ValidateToken(settings, credentials) then PdfReply(None, Unauthorized)
    else
      var o := GenerateManagerReport(env, settings, managerId, pipelineNow);
      match o.result
      case Err(e) => PdfReply(Some(o), ServerError(e))
      case Ok(_) =>
        var fileName := ServedFileName(managerId, endpointNow);
        PdfReply(Some(o), FileResponse(settings.pdfPath + fileName, fileName, "application/pdf"))
  }

  /**
   * As written, when the clock has moved on to another second between the pipeline's reading
   * and the endpoint's, the endpoint serves a path no run wrote: not the PDF just generated.
   */
  lemma PdfEndpointServesOtherFile(env: Env, settings: Settings, credentials: string, managerId: int,
                                   pipelineNow: Instant, endpointNow: Instant)
    requires ValidateToken(settings, credentials)
    requires GenerateManagerReport(env, settings, managerId, pipelineNow).result.Ok?
    ensures var r := GetManagerPdfAsWritten(env, settings, credentials, managerId, pipelineNow, endpointNow);
      var written := GenerateManagerReport(env, settings, managerId, pipelineNow).result.value.pdfPath;
      r.response.FileResponse? && (Some(r.response.path) == written <==> SameSecond(pipelineNow, endpointNow))
  {
    ServedPathShape(settings, managerId, endpointNow);
    PdfPathInjective(settings.pdfPath, managerId, pipelineNow, managerId, endpointNow);
  }

  /** `get_manager_pdf` serving the file the pipeline reports it wrote. */
  function GetManagerPdf(env: Env, settings: Settings, credentials: string, managerId: int, now: Instant): (r: PdfReply)
    ensures !ValidateToken(settings, credentials) ==> r == PdfReply(None, Unauthorized)
    ensures ValidateToken(settings, credentials) ==>
      var o := GenerateManagerReport(env, settings, managerId, now);
      && r.generated == Some(o)
      && (o.result.Err? ==> r.response == ServerError(o.result.error))
      && (o.result.Ok? ==>
            r.response.FileResponse? && Some(r.response.path) == o.result.value.pdfPath
            && env.writePdf(o.result.value.html, r.response.path))
  {
    if !ValidateToken(settings, credentials) then PdfReply(None, Unauthorized)
    else
      var o := GenerateManagerReport(env, settings, managerId, now);
      match o.result
      case Err(e) => PdfReply(Some(o), ServerError(e))
      case Ok(dto) => PdfReply(Some(o), FileResponse(dto.pdfPath.value, "/" + dto.fileName, "application/pdf"))
  }

  // ---- GET /reports/manager/{manager_id}/html ----

  /**
   * The `try` of `get_manager_html` as written: the 404 it raises for a missing or empty report
   * is caught by its own `except` and re-raised as a 500 whose detail is "404: ...".
   */
  function HtmlDecisionAsWritten(reply: Result<seq<ManagerReport>, Error>): (r: HttpResponse)
    ensures !(r.HttpError? && r.status == 404)
  {
    match reply
    case Err(e) => ServerError(e)
    case Ok(reports) =>
      if reports == [] || reports[0].html == "" then ServerError(HttpStatus(404, NotFoundDetail))
      else HtmlBody(reports[0].html)
  }

  /** An empty report comes back as a server error carrying the text of the 404. */
  lemma EmptyReportIsServerError(report: ManagerReport)
    requires report.html == ""
    ensures HtmlDecisionAsWritten(Ok([report])) == HttpError(500, "404: " + NotFoundDetail, false)
  {
    assert Text.IntToString(404) == "404";
  }

  /** The decision with the 404 answered as a 404. */
  function HtmlDecision(reply: Result<seq<ManagerReport>, Error>): (r: HttpResponse)
    ensures r.HtmlBody? <==> reply.Ok? && reply.value != [] && reply.value[0].html != ""
    ensures r.HtmlBody? ==> r.html == reply.value[0].html
    ensures reply.Ok? && (reply.value == [] || reply.value[0].html == "") ==> r == HttpError(404, NotFoundDetail, false)
    ensures reply.Err? ==> r == ServerError(reply.error)
  {
    match reply
    case Err(e) => ServerError(e)
    case Ok(reports) =>
      if reports == [] || reports[0].html == "" then HttpError(404, NotFoundDetail, false)
      else HtmlBody(reports[0].html)
  }

  /** The two decisions differ only on a missing or empty report. */
  lemma HtmlDecisionsAgreeOtherwise(reply: Result<seq<ManagerReport>, Error>)
    requires reply.Ok? ==> reply.value != [] && reply.value[0].html != ""
    ensures HtmlDecision(reply) == HtmlDecisionAsWritten(reply)
  {
  }

  /**
   * `get_manager_html` as written: the key check first, with no service call and no sweep on a
   * bad key; then `GetAllReportsOfManager`, which sweeps the PDF directory when it succeeds and
   * leaves it alone when it raises; then the decision as written, which never answers 404.
   */
  method GetManagerHtmlAsWritten(tmp: TempDir, env: Env, settings: Settings, fs: FileSystem, credentials: string,
                                 managerId: int, now: Instant) returns (r: HttpResponse)
    requires tmp.Valid()
    modifies tmp
    ensures tmp.Valid()
    ensures !ValidateToken(settings, credentials) ==> r == Unauthorized && tmp.entries == old(tmp.entries)
    ensures ValidateToken(settings, credentials) ==>
      var reply := ReportsOfManager(env, settings, fs, managerId, now);
      && r == HtmlDecisionAsWritten(reply)
      && (reply.Ok? ==> tmp.entries == old(tmp.Swept()))
      && (reply.Err? ==> tmp.entries == old(tmp.entries))
  {
    if !ValidateToken(settings, credentials) {
      return Unauthorized;
    }
    var reply := GetAllReportsOfManager(tmp, env, settings, fs, managerId, now);
    r := HtmlDecisionAsWritten(reply);
  }

  /** `get_manager_html` with a missing or empty report answered as a 404; the directory as above. */
  method GetManagerHtml(tmp: TempDir, env: Env, settings: Settings, fs: FileSystem, credentials: string,
                        managerId: int, now: Instant) returns (r: HttpResponse)
    requires tmp.Valid()
    modifies tmp
    ensures tmp.Valid()
    ensures !ValidateToken(settings, credentials) ==> r == Unauthorized && tmp.entries == old(tmp.entries)
    ensures ValidateToken(settings, credentials) ==>
      var reply := ReportsOfManager(env, settings, fs, managerId, now);
      && r == HtmlDecision(reply)
      && (reply.Ok? ==> tmp.entries == old(tmp.Swept()))
      && (reply.Err? ==> tmp.entries == old(tmp.entries))
  {
    if !ValidateToken(settings, credentials) {
      return Unauthorized;
    }
    var reply := GetAllReportsOfManager(tmp, env, settings, fs, managerId, now);
    r := HtmlDecision(reply);
  }

  /** This file's `clean_temp`, the same sweep as the service's: it stops at the first failure and swallows it. */
  method CleanTemp(tmp: TempDir)
    requires tmp.Valid()
    modifies tmp
    ensures tmp.Valid()
    ensures tmp.entries == old(tmp.Swept())
  {
    tmp.CleanTemp();
  }
}
