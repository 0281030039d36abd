/**
 * The report pipeline (data_analysis/reports/report_generator.py): manager lookup, the four
 * per-manager views, the charts, the HTML, the PDF and the report record, in that order, with
 * the timestamped PDF path. The clock, the template engine and the PDF writer are inputs.
 */
module ReportGenerator {
  import opened Wrappers
  import opened Text
  import opened Failures
  import opened Config
  import opened Queries
  import opened DiagramGenerator
  import opened HtmlGenerator
  import opened Dto

  // ---- The clock reading and its `%Y%m%d_%H%M%S` form ----

  /** What `datetime.now()` returns. */
  datatype DateTime = DateTime(year: int, month: int, day: int, hour: int, minute: int, second: int, microsecond: int)
  {
    predicate Valid() {
      && 1000 <= year <= 9999 && 1 <= month <= 12 && 1 <= day <= 31
      && 0 <= hour < 24 && 0 <= minute < 60 && 0 <= second < 60 && 0 <= microsecond < 1000000
    }
  }

  type Instant = t: DateTime | t.Valid() witness DateTime(2000, 1, 1, 0, 0, 0, 0)

  /** Two readings within the same wall-clock second. */
  predicate SameSecond(a: Instant, b: Instant) {
    a.year == b.year && a.month == b.month && a.day == b.day
    && a.hour == b.hour && a.minute == b.minute && a.second == b.second
  }

  /** `strftime("%Y%m%d_%H%M%S")`: fifteen characters, zero-padded fields, '_' between date and time. */
  function FormatTimestamp(t: Instant): (s: string)
    ensures |s| == 15 && s[8] == '_'
    ensures forall i :: 0 <= i < 15 && i != 8 ==> IsDigit(s[i])
  {
    assert Pow10(2) == 100 && Pow10(4) == 10000;
    Digits(t.year, 4) + Digits(t.month, 2) + Digits(t.day, 2) + "_" + Digits(t.hour, 2) + Digits(t.minute, 2) + Digits(t.second, 2)
  }

  /** Where each field sits in the formatted timestamp. */
  lemma TimestampFields(t: Instant)
    ensures var s := FormatTimestamp(t);
      && ParseDigits(s[0..4]) == t.year && ParseDigits(s[4..6]) == t.month && ParseDigits(s[6..8]) == t.day
      && ParseDigits(s[9..11]) == t.hour && ParseDigits(s[11..13]) == t.minute && ParseDigits(s[13..15]) == t.second
  {
    assert Pow10(2) == 100 && Pow10(4) == 10000;
    var s := FormatTimestamp(t);
    assert s[0..4] == Digits(t.year, 4);
    assert s[4..6] == Digits(t.month, 2);
    assert s[6..8] == Digits(t.day, 2);
    assert s[9..11] == Digits(t.hour, 2);
    assert s[11..13] == Digits(t.minute, 2);
    assert s[13..15] == Digits(t.second, 2);
  }

  /** Two readings give the same timestamp exactly when they fall in the same second. */
  lemma TimestampSameIff(a: Instant, b: Instant)
    ensures FormatTimestamp(a) == FormatTimestamp(b) <==> SameSecond(a, b)
  {
    TimestampFields(a);
    TimestampFields(b);
  }

  // ---- The PDF path ----

  /** `manager_<id>_<ts>.pdf`. */
  function ReportFileName(managerId: int, ts: string): string {
    "manager_" + IntToString(managerId) + "_" + ts + ".pdf"
  }

  /** `settings.pdf_path + f"/manager_{manager_id}_{timestamp}.pdf"`. */
  function PdfPath(root: string, managerId: int, ts: string): (p: string)
    ensures p == root + "/" + ReportFileName(managerId, ts)
  {
    root + "/manager_" + IntToString(managerId) + "_" + ts + ".pdf"
  }

  /** The file name names the manager and the timestamp: equal names have equal ids and timestamps. */
  lemma ReportFileNameInjective(a: int, tsa: string, b: int, tsb: string)
    requires ReportFileName(a, tsa) == ReportFileName(b, tsb)
    ensures a == b && tsa == tsb
  {
    var na, nb := IntToString(a), IntToString(b);
    NumeralHasNo(a, '_');
    NumeralHasNo(b, '_');
    assert "manager_" + (na + ['_'] + (tsa + ".pdf")) == ReportFileName(a, tsa);
    assert "manager_" + (nb + ['_'] + (tsb + ".pdf")) == ReportFileName(b, tsb);
    CancelPrefix("manager_", na + ['_'] + (tsa + ".pdf"), nb + ['_'] + (tsb + ".pdf"));
    SplitAtSeparator(na, tsa + ".pdf", nb, tsb + ".pdf", '_');
    CancelSuffix(tsa, tsb, ".pdf");
    IntToStringInjective(a, b);
  }

  /**
   * Different managers never share a PDF path, whatever the two timestamps; the same manager
   * shares it only with a run stamped in the same second.
   */
  lemma PdfPathInjective(root: string, a: int, ta: Instant, b: int, tb: Instant)
    ensures PdfPath(root, a, FormatTimestamp(ta)) == PdfPath(root, b, FormatTimestamp(tb)) <==> a == b && SameSecond(ta, tb)
  {
    TimestampSameIff(ta, tb);
    var fa, fb := ReportFileName(a, FormatTimestamp(ta)), ReportFileName(b, FormatTimestamp(tb));
    if PdfPath(root, a, FormatTimestamp(ta)) == PdfPath(root, b, FormatTimestamp(tb)) {
      assert (root + "/") + fa == (root + "/") + fb;
      CancelPrefix(root + "/", fa, fb);
      ReportFileNameInjective(a, FormatTimestamp(ta), b, FormatTimestamp(tb));
    }
  }

  /** The timestamp's characters are digits and '_', so the file name holds no '/'. */
  lemma ReportFileNameHasNoSlash(managerId: int, t: Instant)
    ensures '/' !in ReportFileName(managerId, FormatTimestamp(t))
  {
    NumeralHasNo(managerId, '/');
  }

  /** The last path segment of the PDF path is the report's file name. */
  lemma PdfPathLastSegment(root: string, managerId: int, t: Instant)
    ensures LastSegment(PdfPath(root, managerId, FormatTimestamp(t))) == ReportFileName(managerId, FormatTimestamp(t))
  {
    ReportFileNameHasNoSlash(managerId, t);
    LastSegmentAfterSlash(root, ReportFileName(managerId, FormatTimestamp(t)));
  }

  // ---- The pipeline ----

  datatype Stage =
    | LookupManager
    | FetchView(view: ViewName)
    | DrawCharts
    | RenderHtml
    | WritePdf(path: string)
    | BuildDto

  /** Every stage, in the order `generate_manager_report` runs them. */
  function Stages(path: string): (s: seq<Stage>)
    ensures |s| == 9
  {
    [LookupManager,
     FetchView(ProjectEmployeeTotalHours), FetchView(AvgCompletedProjectDuration),
     FetchView(ProjectDurationVariance), FetchView(MonthlyProjectHours),
     DrawCharts, RenderHtml, WritePdf(path), BuildDto]
  }

  /** What the pipeline calls out to: the database, the template engine, and the PDF writer (true when the file was written). */
  datatype Env = Env(db: Database, render: Renderer, writePdf: (string, string) -> bool)

  /** The stages that ran (the last one is the one that raised, on failure) and the result. */
  datatype Outcome = Outcome(trace: seq<Stage>, result: Result<ReportDto, Error>)

  function Stop(path: string, n: nat, e: Error): (o: Outcome)
    requires 1 <= n <= 9
    ensures |o.trace| == n && o.trace == Stages(path)[..n] && o.result == Err(e)
  {
    Outcome(Stages(path)[..n], Err(e))
  }

  /** The path this run writes its PDF to. */
  function ReportPdfPath(settings: Settings, managerId: int, now: Instant): string {
    PdfPath(settings.pdfPath, managerId, FormatTimestamp(now))
  }

  /** The four per-manager frames a report reads. */
  datatype Frames = Frames(hours: seq<HoursRow>, avg: seq<AvgRow>, variances: seq<VarianceRow>, months: seq<MonthlyRow>)

  /** The four views a report reads, for one manager, all available. */
  predicate FramesAvailable(db: Database, managerId: int) {
    && GetProjectEmployeeTotalHoursByManager(db, managerId).rows.Ok?
    && GetAvgCompletedProjectDurationHoursByManager(db, managerId).rows.Ok?
    && GetProjectDurationVarianceHoursByManager(db, managerId).rows.Ok?
    && GetMonthlyProjectHoursHoursByManager(db, managerId).rows.Ok?
  }

  /** The frames of one manager's report, when every view is available. */
  function ManagerFrames(db: Database, managerId: int): Frames
    requires FramesAvailable(db, managerId)
  {
    Frames(GetProjectEmployeeTotalHoursByManager(db, managerId).rows.value,
           GetAvgCompletedProjectDurationHoursByManager(db, managerId).rows.value,
           GetProjectDurationVarianceHoursByManager(db, managerId).rows.value,
           GetMonthlyProjectHoursHoursByManager(db, managerId).rows.value)
  }

  /** The charts a report draws from its frames; the average-duration frame is not among them. */
  function FrameCharts(f: Frames, managerId: int, root: string): ChartMap {
    GenerateAllCharts(f.hours, f.variances, f.months, managerId, root).Paths()
  }

  /** The HTML a report renders from its frames and the given name and charts. */
  function FrameHtml(render: Renderer, name: Option<string>, f: Frames, charts: ChartMap): Result<string, Error> {
    GenerateHtmlReport(render, name, f.hours, f.avg, f.variances, f.months, charts)
  }

  /** How far reading the four views got: the number of view queries issued and the frames or the error. */
  datatype Reading = Reading(issued: nat, frames: Result<Frames, Error>)

  /** The order in which a report reads the views. */
  const ReadOrder: seq<ViewName> :=
    [ProjectEmployeeTotalHours, AvgCompletedProjectDuration, ProjectDurationVariance, MonthlyProjectHours]

  /** The four view queries in order; the first that raises ends the reading. */
  function ReadFrames(db: Database, managerId: int): (r: Reading)
    ensures 1 <= r.issued <= 4
    ensures r.frames.Ok? <==> FramesAvailable(db, managerId)
    ensures r.frames.Ok? ==> r.issued == 4 && r.frames.value == ManagerFrames(db, managerId)
  {
    match GetProjectEmployeeTotalHoursByManager(db, managerId).rows
    case Err(e) => Reading(1, Err(e))
    case Ok(hours) =>
      match GetAvgCompletedProjectDurationHoursByManager(db, managerId).rows
      case Err(e) => Reading(2, Err(e))
      case Ok(avg) =>
        match GetProjectDurationVarianceHoursByManager(db, managerId).rows
        case Err(e) => Reading(3, Err(e))
        case Ok(variances) =>
          match GetMonthlyProjectHoursHoursByManager(db, managerId).rows
          case Err(e) => Reading(4, Err(e))
          case Ok(months) => Reading(4, Ok(Frames(hours, avg, variances, months)))
  }

  /**
   * A reading stops at the first view, in reading order, that is unavailable: that view's
   * query is the last one issued and its database error is the reading's error.
   */
  lemma ReadFramesStops(db: Database, managerId: int)
    ensures var r, u := ReadFrames(db, managerId), db.unavailable;
      && (View(ProjectEmployeeTotalHours) in u ==>
            r == Reading(1, Err(DataUnavailable(ProjectEmployeeTotalHours.Name()))))
      && (View(ProjectEmployeeTotalHours) !in u && View(AvgCompletedProjectDuration) in u ==>
            r == Reading(2, Err(DataUnavailable(AvgCompletedProjectDuration.Name()))))
      && (View(ProjectEmployeeTotalHours) !in u && View(AvgCompletedProjectDuration) !in u
          && View(ProjectDurationVariance) in u ==>
            r == Reading(3, Err(DataUnavailable(ProjectDurationVariance.Name()))))
      && (View(ProjectEmployeeTotalHours) !in u && View(AvgCompletedProjectDuration) !in u
          && View(ProjectDurationVariance) !in u && View(MonthlyProjectHours) in u ==>
            r == Reading(4, Err(DataUnavailable(MonthlyProjectHours.Name()))))
  {
  }

  /**
   * The stages after the four views were read and the charts drawn: HTML, PDF, record. The
   * trace starts at the charts stage.
   */
  function Finish(env: Env, managerId: int, name: Option<string>, path: string, frames: Frames,
                  charts: ChartMap, fileName: Option<string>): (o: Outcome)
    ensures 1 <= |o.trace| <= 4 && o.trace == Stages(path)[5..5 + |o.trace|]
    ensures o.result.Ok? ==>
      var d := o.result.value;
      && |o.trace| == 4
      && d.managerId == managerId && d.managerName == name
      && d.charts == charts
      && FrameHtml(env.render, name, frames, charts) == Ok(d.html)
      && d.pdfPath == Some(path) && env.writePdf(d.html, path)
      && fileName == Some(d.fileName)
    ensures fileName.None? && |o.trace| == 4 ==> o.result == Err(MissingArgument("file_name"))
    ensures FrameHtml(env.render, name, frames, charts).Err? ==>
      |o.trace| == 2 && o.result == Err(FrameHtml(env.render, name, frames, charts).error)
    ensures FrameHtml(env.render, name, frames, charts).Ok? && !env.writePdf(FrameHtml(env.render, name, frames, charts).value, path) ==>
      |o.trace| == 3 && o.result == Err(PdfFailure(path))
  {
    var tail := Stages(path)[5..];
    match FrameHtml(env.render, name, frames, charts)
    case Err(e) => Outcome(tail[..2], Err(e))
    case Ok(html) =>
      if !env.writePdf(html, path) then Outcome(tail[..3], Err(PdfFailure(path)))
      else
        match NewReportDto(managerId, name, html, Some(path), charts, fileName)
        case Err(e) => Outcome(tail, Err(e))
        case Ok(dto) => Outcome(tail, Ok(dto))
  }

  lemma StagesSplit(path: string, o: Outcome)
    requires 1 <= |o.trace| <= 4 && o.trace == Stages(path)[5..5 + |o.trace|]
    ensures Stages(path)[..5] + o.trace == Stages(path)[..5 + |o.trace|]
  {
  }

  /** The run after `fetch_manager` returned: the four views, then charts, HTML, PDF and record. */
  function AfterLookup(env: Env, managerId: int, root: string, path: string, name: Option<string>,
                       fileName: Option<string>): (o: Outcome)
    ensures 2 <= |o.trace| <= 9 && o.trace == Stages(path)[..|o.trace|]
    ensures o.result.Ok? ==> |o.trace| == 9
    ensures o.result.Ok? ==> fileName.Some?
    ensures fileName.None? && |o.trace| == 9 ==> o.result == Err(MissingArgument("file_name"))
  {
    var reading := ReadFrames(env.db, managerId);
    match reading.frames
    case Err(e) => Stop(path, 1 + reading.issued, e)
    case Ok(frames) => AfterFrames(env, managerId, root, path, name, frames, fileName)
  }

  /** The run after the four views were read: charts, HTML, PDF and record. */
  function AfterFrames(env: Env, managerId: int, root: string, path: string, name: Option<string>,
                       frames: Frames, fileName: Option<string>): (o: Outcome)
    ensures 6 <= |o.trace| <= 9 && o.trace == Stages(path)[..|o.trace|]
    ensures o.result.Ok? ==> |o.trace| == 9
    ensures o.result.Ok? ==> fileName.Some?
    ensures fileName.None? && |o.trace| == 9 ==> o.result == Err(MissingArgument("file_name"))
  {
    var charts := FrameCharts(frames, managerId, root);
    var rest := Finish(env, managerId, name, path, frames, charts, fileName);
    StagesSplit(path, rest);
    Outcome(Stages(path)[..5] + rest.trace, rest.result)
  }

  /**
   * `generate_manager_report`, with the record's file name as a parameter: the stages run in
   * their fixed order, the first one that raises ends the run, and a report exists only after
   * every stage ran.
   */
  function Pipeline(env: Env, settings: Settings, managerId: int, now: Instant, fileName: Option<string>): (o: Outcome)
    ensures 1 <= |o.trace| <= 9 && o.trace == Stages(ReportPdfPath(settings, managerId, now))[..|o.trace|]
    ensures o.result.Ok? ==> |o.trace| == 9
    ensures |o.trace| > 1 <==> UserTable !in env.db.unavailable
    ensures o.result.Ok? ==> fileName.Some?
    ensures fileName.None? && |o.trace| == 9 ==> o.result == Err(MissingArgument("file_name"))
  {
    var path := ReportPdfPath(settings, managerId, now);
    match FetchManager(env.db, managerId)
    case Err(e) => Stop(path, 1, e)
    case Ok(name) => AfterLookup(env, managerId, settings.diagramsPath, path, name, fileName)
  }

  /** When view k is the first unavailable one in reading order, the reading issues k + 1 queries and fails with its error. */
  lemma ReadingAtView(db: Database, managerId: int, k: nat)
    requires k < 4 && View(ReadOrder[k]) in db.unavailable
    requires forall j :: 0 <= j < k ==> View(ReadOrder[j]) !in db.unavailable
    ensures ReadFrames(db, managerId) == Reading(k + 1, Err(DataUnavailable(ReadOrder[k].Name())))
  {
    ReadFramesStops(db, managerId);
    if k == 1 {
      assert View(ReadOrder[0]) !in db.unavailable;
    } else if k == 2 {
      assert View(ReadOrder[0]) !in db.unavailable && View(ReadOrder[1]) !in db.unavailable;
    } else if k == 3 {
      assert View(ReadOrder[0]) !in db.unavailable && View(ReadOrder[1]) !in db.unavailable;
      assert View(ReadOrder[2]) !in db.unavailable;
    }
  }

  /**
   * With the user table available, a run stops at the first unavailable view in reading order:
   * that view's fetch is the last stage, and the run returns that view's database error.
   */
  lemma PipelineStopsAtView(env: Env, settings: Settings, managerId: int, now: Instant, fileName: Option<string>, k: nat)
    requires k < 4 && UserTable !in env.db.unavailable
    requires View(ReadOrder[k]) in env.db.unavailable
    requires forall j :: 0 <= j < k ==> View(ReadOrder[j]) !in env.db.unavailable
    ensures var o := Pipeline(env, settings, managerId, now, fileName);
      && o.trace == Stages(ReportPdfPath(settings, managerId, now))[..k + 2]
      && o.trace[k + 1] == FetchView(ReadOrder[k])
      && o.result == Err(DataUnavailable(ReadOrder[k].Name()))
  {
    ReadingAtView(env.db, managerId, k);
    assert FetchManager(env.db, managerId).Ok?;
  }

  /** A lookup that raises ends the run at its first stage with the lookup's error. */
  lemma PipelineStopsAtLookup(env: Env, settings: Settings, managerId: int, now: Instant, fileName: Option<string>)
    requires FetchManager(env.db, managerId).Err?
    ensures var o := Pipeline(env, settings, managerId, now, fileName);
      && o.trace == Stages(ReportPdfPath(settings, managerId, now))[..1]
      && o.result == Err(FetchManager(env.db, managerId).error)
  {
  }

  /**
   * With the lookup and the four views answering, a template that raises ends the run after the
   * render stage, with the template's error; the PDF is not written.
   */
  lemma PipelineStopsAtRender(env: Env, settings: Settings, managerId: int, now: Instant, fileName: Option<string>)
    requires FetchManager(env.db, managerId).Ok? && FramesAvailable(env.db, managerId)
    requires var f := ManagerFrames(env.db, managerId);
      FrameHtml(env.render, FetchManager(env.db, managerId).value, f, FrameCharts(f, managerId, settings.diagramsPath)).Err?
    ensures var f := ManagerFrames(env.db, managerId);
      var o := Pipeline(env, settings, managerId, now, fileName);
      && o.trace == Stages(ReportPdfPath(settings, managerId, now))[..7]
      && o.result == Err(FrameHtml(env.render, FetchManager(env.db, managerId).value, f,
                                   FrameCharts(f, managerId, settings.diagramsPath)).error)
  {
  }

  /**
   * With the HTML rendered, a PDF write that fails ends the run after the PDF stage, with the
   * PDF error naming the timestamped path.
   */
  lemma PipelineStopsAtPdf(env: Env, settings: Settings, managerId: int, now: Instant, fileName: Option<string>)
    requires FetchManager(env.db, managerId).Ok? && FramesAvailable(env.db, managerId)
    requires var f := ManagerFrames(env.db, managerId);
      var h := FrameHtml(env.render, FetchManager(env.db, managerId).value, f, FrameCharts(f, managerId, settings.diagramsPath));
      h.Ok? && !env.writePdf(h.value, ReportPdfPath(settings, managerId, now))
    ensures var o := Pipeline(env, settings, managerId, now, fileName);
      && o.trace == Stages(ReportPdfPath(settings, managerId, now))[..8]
      && o.result == Err(PdfFailure(ReportPdfPath(settings, managerId, now)))
  {
  }

  /**
   * What a report of the pipeline holds: the manager as `fetch_manager` found it (None
   * included), the chart map drawn from the manager's frames, which is also the map handed to
   * the template, the HTML the template produced from those frames, and the timestamped path
   * the PDF was written to.
   */
  predicate ReportOf(env: Env, settings: Settings, managerId: int, now: Instant, d: ReportDto) {
    && FetchManager(env.db, managerId) == Ok(d.managerName)
    && FramesAvailable(env.db, managerId)
    && d.managerId == managerId
    && d.charts == FrameCharts(ManagerFrames(env.db, managerId), managerId, settings.diagramsPath)
    && FrameHtml(env.render, d.managerName, ManagerFrames(env.db, managerId), d.charts) == Ok(d.html)
    && d.pdfPath == Some(ReportPdfPath(settings, managerId, now))
    && env.writePdf(d.html, ReportPdfPath(settings, managerId, now))
  }

  lemma PipelineReport(env: Env, settings: Settings, managerId: int, now: Instant, fileName: Option<string>)
    ensures var o := Pipeline(env, settings, managerId, now, fileName);
      o.result.Ok? ==> ReportOf(env, settings, managerId, now, o.result.value) && fileName == Some(o.result.value.fileName)
  {
  }

  /**
   * The code as written: the record is built without `file_name`, so no run returns a report,
   * and a run that gets through the PDF stage raises TypeError for the missing argument at the
   * last stage, after the PDF was written.
   */
  function GenerateManagerReportAsWritten(env: Env, settings: Settings, managerId: int, now: Instant): (o: Outcome)
    ensures o.result.Err?
    ensures |o.trace| == 9 ==> o.result.error == MissingArgument("file_name")
  {
    Pipeline(env, settings, managerId, now, None)
  }

  /**
   * The code as written runs the same stages as the corrected pipeline and fails where it
   * fails; exactly where the corrected pipeline returns a report, the code as written raises
   * the missing-argument TypeError instead.
   */
  lemma AsWrittenNeverSucceeds(env: Env, settings: Settings, managerId: int, now: Instant)
    ensures var w := GenerateManagerReportAsWritten(env, settings, managerId, now);
      var c := GenerateManagerReport(env, settings, managerId, now);
      && w.trace == c.trace
      && (c.result.Ok? ==> w.result == Err(MissingArgument("file_name")))
      && (c.result.Err? ==> w.result == c.result)
  {
    var path := ReportPdfPath(settings, managerId, now);
    var fileName := Some(ReportFileName(managerId, FormatTimestamp(now)));
    match FetchManager(env.db, managerId)
    case Err(_) =>
    case Ok(name) =>
      var reading := ReadFrames(env.db, managerId);
      if reading.frames.Ok? {
        var frames := reading.frames.value;
        var charts := FrameCharts(frames, managerId, settings.diagramsPath);
        FinishWithoutFileName(env, managerId, name, path, frames, charts, fileName.value);
      }
  }

  /** Leaving out the file name changes nothing but the last stage's result. */
  lemma FinishWithoutFileName(env: Env, managerId: int, name: Option<string>, path: string, frames: Frames,
                              charts: ChartMap, fileName: string)
    ensures var w := Finish(env, managerId, name, path, frames, charts, None);
      var c := Finish(env, managerId, name, path, frames, charts, Some(fileName));
      && w.trace == c.trace
      && (c.result.Ok? ==> w.result == Err(MissingArgument("file_name")))
      && (c.result.Err? ==> w.result == c.result)
  {
  }

  /** The pipeline with the record's file name filled in from the PDF path it just built. */
  function GenerateManagerReport(env: Env, settings: Settings, managerId: int, now: Instant): (o: Outcome)
    ensures o.result.Ok? ==> ReportOf(env, settings, managerId, now, o.result.value)
    ensures o.result.Ok? ==> o.result.value.fileName == ReportFileName(managerId, FormatTimestamp(now))
    ensures LastSegment(ReportPdfPath(settings, managerId, now)) == ReportFileName(managerId, FormatTimestamp(now))
  {
    PdfPathLastSegment(settings.pdfPath, managerId, now);
    PipelineReport(env, settings, managerId, now, Some(ReportFileName(managerId, FormatTimestamp(now))));
    Pipeline(env, settings, managerId, now, Some(ReportFileName(managerId, FormatTimestamp(now))))
  }

  /**
   * With every source available, the template rendering and the PDF written, the corrected
   * pipeline returns a report, and every stage ran.
   */
  lemma GenerateManagerReportSucceeds(env: Env, settings: Settings, managerId: int, now: Instant)
    requires UserTable !in env.db.unavailable && FramesAvailable(env.db, managerId)
    requires var name := FetchManager(env.db, managerId).value;
      var frames := ManagerFrames(env.db, managerId);
      var html := FrameHtml(env.render, name, frames, FrameCharts(frames, managerId, settings.diagramsPath));
      html.Ok? && env.writePdf(html.value, ReportPdfPath(settings, managerId, now))
    ensures GenerateManagerReport(env, settings, managerId, now).result.Ok?
    ensures GenerateManagerReport(env, settings, managerId, now).trace == Stages(ReportPdfPath(settings, managerId, now))
  {
  }

  /** The average-duration view never reaches the charts: changing it changes no chart path. */
  lemma AverageNeverCharted(env: Env, settings: Settings, managerId: int, now: Instant, durations: seq<AvgRow>)
    ensures var o1 := GenerateManagerReport(env, settings, managerId, now);
      var o2 := GenerateManagerReport(env.(db := env.db.(durations := durations)), settings, managerId, now);
      o1.result.Ok? && o2.result.Ok? ==> o1.result.value.charts == o2.result.value.charts
  {
  }

  /** A rerun for the same manager within the same second targets the same PDF file. */
  lemma SameSecondSamePdf(settings: Settings, managerId: int, a: Instant, b: Instant)
    requires SameSecond(a, b)
    ensures ReportPdfPath(settings, managerId, a) == ReportPdfPath(settings, managerId, b)
  {
    TimestampSameIff(a, b);
  }
}
