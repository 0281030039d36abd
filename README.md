# Manager report service, modelled in Dafny

The service builds one report per project manager of a work-planning database. For each manager it does the following:
- It reads the manager's name and four database views: hours per project and employee, average completed-project duration, duration variance per project, and monthly hours.
- It prepares the data for three charts and writes each chart to a fixed per-manager file.
- It renders an HTML report and writes it out as a timestamped PDF.
- It returns a report record.

Two front ends serve the reports:
- A gRPC service, guarded by a bearer-token interceptor. It packages the PDF bytes and the Base64-encoded chart images into protobuf messages. It can also run the whole batch over all project owners. The PDF, one-manager and batch handlers sweep the PDF directory after a successful reply; the HTML handler does not sweep.
- A small HTTP API, guarded by a shared key.

This project models the deterministic rules of that service. The following are inputs, not modelled code:
- the database (a value holding tables and views, plus the set of sources whose queries raise);
- the template engine (a function from template name and arguments to markup or an error);
- the PDF writer (a predicate saying whether the file was written);
- the files the service reads back (a map from the path it opens to the bytes it would read);
- the clock (a reading passed in).

The PDF directory that the sweep empties is the one piece of state changed in place: a `TempDir` object.

Modules follow the program's files:
- `Queries`: `data/queries.py`.
- `DiagramGenerator`: `reports/diagram_generator.py`.
- `HtmlGenerator`: `reports/html_generator.py`.
- `Dto`: `dto/report_dto.py`.
- `ReportGenerator`: `reports/report_generator.py`.
- `ServiceImpl`: `server/service_impl.py`.
- `GrpcServer`: `server/grpc_server.py`.
- `RestRouter`: `server/rest_router.py`.
- Helper modules: `Wrappers` (Option and Result), `Failures` (the exceptions and their `str`), `Text` (decimal numerals, fixed-width digit fields, path segments, percent-encoding, string order), `Base64` (section 4 of RFC 4648, with a decoder as its partner) and `Config` (the settings read).

Chart file URIs go from the chart map to the packager. `Path.as_uri()` percent-encodes every character of the path except ASCII letters, digits, `_.-~` and '/', and `urlparse` does not decode the escapes. The packager then drops the first character of the URI path. For `file:///srv/x.png` that gives the relative path `srv/x.png`, so on a POSIX host the read resolves against the working directory. A diagrams root holding, say, a space is read from its escaped form (`%20`), which is not the file that was written. The model keeps these rules as written (`ServiceImpl.LocalPath`, `DiagramGenerator.FileUri`) and proves what they yield (`ServiceImpl.LocalPathOfFileUri`, `ServiceImpl.ChartReadPath`, `ServiceImpl.ChartReadPathPlain`).

The report record as written cannot be built, because a required field is missing (finding 1 below). The pipeline is modelled both ways: as written (`ReportGenerator.GenerateManagerReportAsWritten`) and corrected (`ReportGenerator.GenerateManagerReport`). The lemma `ReportGenerator.AsWrittenNeverSucceeds` relates the two. Which members build on the corrected pipeline is listed under "## Left out".

## Model

| member | source | states |
|---|---|---|
| Text.Digits | data_analysis/reports/report_generator.py:40 | A `%m`/`%d`/`%H`-style field: exactly `width` decimal digits, zero-padded, that read back as the number |
| Text.NatToString | data_analysis/reports/report_generator.py:41 | `str(n)` for n ≥ 0: digits only, no leading zero, reads back as n |
| Text.IntToString | data_analysis/reports/report_generator.py:41 | `str(n)`: non-empty, digits with at most a leading '-' |
| Text.IntToStringRoundTrip | data_analysis/reports/report_generator.py:41 | Parsing `str(n)` gives n back |
| Text.IntToStringInjective | data_analysis/reports/report_generator.py:41 | Different ids have different decimal forms |
| Text.LastSegment | data_analysis/server/service_impl.py:85 | `path.split("/")[-1]`: a suffix of the path with no '/', preceded by '/' when shorter than the path |
| Text.LastSegmentUnder | data_analysis/server/service_impl.py:85 | Whatever precedes it, the last segment of `dir + "/" + name` is `name` when `name` has no '/' |
| Text.LastSegmentAfterSlash | data_analysis/server/service_impl.py:85 | The last segment of `dir + "/" + name` is `name` when `name` has no '/' |
| Text.SplitAtSeparator | data_analysis/reports/report_generator.py:41 | Two strings cut at their first separator agree on head and tail; used to read an id back out of a file name |
| Text.Utf8 | reports/diagram_generator.py:40 | `os.fsencode` of one character: one byte below 0x80 equal to the code point, otherwise a lead byte whose range gives the length (two, three or four bytes) followed by continuation bytes in 0x80-0xBF |
| Text.Utf8RoundTrip | reports/diagram_generator.py:40 | The bytes decode back to the character's code point, so distinct characters give distinct bytes |
| Text.HexDigit | reports/diagram_generator.py:40 | The upper-case hexadecimal digit of a value 0-15, as `quote` writes escapes; a digit is itself left unescaped |
| Text.PercentBytes | reports/diagram_generator.py:40 | Three characters per byte |
| Text.PercentBytesAt | reports/diagram_generator.py:40 | The three characters at position 3i are '%' and the two hexadecimal digits of byte i |
| Text.QuoteChar | reports/diagram_generator.py:40 | A safe character stays as it is; any other becomes three characters per UTF-8 byte |
| Text.QuoteCharEscapes | reports/diagram_generator.py:40 | An unsafe character becomes the `%XX` escape of each of its UTF-8 bytes, in byte order |
| Text.Quote | reports/diagram_generator.py:40 | `quote(path, safe="/")` never shortens a path |
| Text.QuoteConcat | reports/diagram_generator.py:40 | Quoting works character by character: the quote of a concatenation is the concatenation of the quotes |
| Text.QuoteIdentityIff | reports/diagram_generator.py:40 | Quoting leaves a string unchanged exactly when every character is an ASCII letter or digit, one of `_.-~`, or '/' |
| Text.QuoteUnderSafe | reports/diagram_generator.py:40 | A safe tail stays as it is after any quoted prefix |
| Text.QuoteLeadingSlash | reports/diagram_generator.py:40 | The leading '/' of an absolute path is kept |
| Text.QuoteAfterFirst | data_analysis/server/service_impl.py:69 | Dropping the first character and quoting keeps a safe tail |
| Text.AllUriSafeConcat | reports/diagram_generator.py:40 | Two strings without escapes concatenate to one without escapes |
| Text.AllUriSafeTail | reports/diagram_generator.py:40 | Behind a safe first character, a string needs no escapes exactly when its tail needs none |
| Text.AllUriSafeBeforeSafe | reports/diagram_generator.py:40 | Followed by a safe tail, a string needs no escapes exactly when it needed none before |
| Text.NumeralUriSafe | reports/diagram_generator.py:21 | The id's directory name needs no escapes |
| Text.StrLtTransitive | reports/diagram_generator.py:80-86 | The order of pivot labels is transitive |
| Text.StrLtTotal | reports/diagram_generator.py:80-86 | Any two distinct labels are ordered one way or the other |
| Base64.ValueOf | data_analysis/server/service_impl.py:78 | Inverse of the RFC 4648 alphabet: defined exactly on the 64 alphabet characters |
| Base64.Encode | data_analysis/server/service_impl.py:76-80 | `b64encode`: 4·⌈n/3⌉ characters, each from the alphabet or '=' |
| Base64.DecodeEncode | data_analysis/server/service_impl.py:76-80 | Decoding the Base64 text of any bytes gives those bytes back |
| Base64.EncodeEmptyIff | data_analysis/server/service_impl.py:76-80 | Only empty input has empty Base64 text |
| Failures.HttpStatusMessageInjective | data_analysis/server/rest_router.py:79-80 | The text of an HTTPException determines it: two print alike exactly when status and detail agree |
| Queries.FetchViewQuery | data_analysis/data/queries.py:7-10 | `fetch_view` issues exactly `SELECT * FROM <view>` with no parameters |
| Queries.FetchViewByManagerQuery | data_analysis/data/queries.py:13-16 | The by-manager text depends on the view alone; the id is bound as `mid` and is the only parameter |
| Queries.ManagerIdOnlyBound | data_analysis/data/queries.py:13-16 | Two managers' queries on one view share their SQL text and differ only in the bound id |
| Queries.Owned | data_analysis/data/queries.py:14 | The `managerId = :mid` filter keeps exactly that manager's rows, each as often as it occurs in the view |
| Queries.GetProjectEmployeeTotalHours | data_analysis/data/queries.py:42-43 | Queries the fixed view `project_employee_total_hours`; answers all its rows, or, when the view is unavailable, raises that view's database error |
| Queries.GetAvgCompletedProjectDuration | data_analysis/data/queries.py:46-47 | The same for `avg_completed_project_duration` |
| Queries.GetProjectDurationVariance | data_analysis/data/queries.py:50-51 | The same for `project_duration_variance` |
| Queries.GetMonthlyProjectHours | data_analysis/data/queries.py:54-55 | The same for `monthly_project_hours` |
| Queries.GetProjectEmployeeTotalHoursByManager | data_analysis/data/queries.py:57-58 | Fixed view, manager id forwarded unchanged as `mid`. Answers exactly that manager's rows, each as often as it occurs in the view. When the view is unavailable it raises that view's database error |
| Queries.GetAvgCompletedProjectDurationHoursByManager | data_analysis/data/queries.py:61-62 | The same for `avg_completed_project_duration` |
| Queries.GetProjectDurationVarianceHoursByManager | data_analysis/data/queries.py:65-66 | The same for `project_duration_variance` |
| Queries.GetMonthlyProjectHoursHoursByManager | data_analysis/data/queries.py:69-70 | The same for `monthly_project_hours` |
| Queries.FirstName | data_analysis/data/queries.py:18-24 | None exactly when no user has the id; otherwise the name of the first user row with that id |
| Queries.FetchManager | data_analysis/data/queries.py:18-24 | Raises exactly when the user table is unavailable; otherwise returns the first matching name, or None |
| Queries.Distinct | data_analysis/data/queries.py:27 | `SELECT DISTINCT`: no duplicates, the same values |
| Queries.Owners | data_analysis/data/queries.py:36 | The `ownerId` column, one per project, in row order |
| Queries.FetchAllManagerIds | data_analysis/data/queries.py:26-40 | Never raises: `[]` when the table is unavailable or has no projects, and only then; otherwise each owner exactly once |
| DiagramGenerator.ChartKind.FileName | reports/diagram_generator.py:36 | Each chart's fixed file name is a single path segment |
| DiagramGenerator.FileNameInjective | reports/diagram_generator.py:36 | The three charts have three different file names |
| DiagramGenerator.ChartFileLayout | reports/diagram_generator.py:21-36 | The manager's directory sits directly under the root and is named by the id; the chart's file sits directly inside it, named by the chart's fixed file name |
| DiagramGenerator.FileUriPlain | reports/diagram_generator.py:40 | `as_uri()` starts with `file://` and keeps the path as it is exactly when the path needs no escapes |
| DiagramGenerator.FileNameUriSafe | reports/diagram_generator.py:36 | The fixed chart file names need no escapes |
| DiagramGenerator.ChartTailSafe | reports/diagram_generator.py:21-36 | What follows the root in a chart's path needs no escapes |
| DiagramGenerator.ChartFileQuoted | reports/diagram_generator.py:21-40 | Only the diagrams root of a chart's URI can carry escapes |
| DiagramGenerator.ChartFileInjective | reports/diagram_generator.py:21-36 | `BASE_PATH/<id>/<name>`: the same manager and chart give the same file; different managers or charts never share one |
| DiagramGenerator.AscendingPairwise | reports/diagram_generator.py:26 | A series ascending step by step has strictly increasing months throughout |
| DiagramGenerator.AddHours | reports/diagram_generator.py:24 | Adding one row's hours keeps the series ascending and adds them to that month's point, and to the total |
| DiagramGenerator.MonthlySeries | reports/diagram_generator.py:24-26 | Group by month and sum, sorted: ascending, one point per month present in the rows, each point that month's sum, total preserved |
| DiagramGenerator.HoursAtPoint | reports/diagram_generator.py:24-26 | In an ascending series, the hours looked up for a point's month are that point's hours |
| DiagramGenerator.HoursAtAbsent | reports/diagram_generator.py:24 | A month with no point has no hours |
| DiagramGenerator.MonthlySeriesPoints | reports/diagram_generator.py:24-26 | Each point of the monthly series holds the sum of its month's rows; months strictly increase |
| DiagramGenerator.PlotMonthlyHours | reports/diagram_generator.py:14-40 | No chart (and no directory) exactly for zero rows; otherwise the monthly series, drawn into the manager's directory at `monthly_hours.png` |
| DiagramGenerator.SortedByVariancePairwise | reports/diagram_generator.py:53 | A list sorted step by step is ascending by variance throughout |
| DiagramGenerator.InsertByVariance | reports/diagram_generator.py:53 | Inserting a row keeps the list sorted and adds exactly that row |
| DiagramGenerator.SortByVariance | reports/diagram_generator.py:53 | Ascending by `durationVarianceDays` and a permutation of the rows |
| DiagramGenerator.PlotDurationVariance | reports/diagram_generator.py:43-67 | No chart exactly for zero rows; otherwise the rows sorted ascending by variance (a permutation), at `duration_variance.png` |
| DiagramGenerator.InsertLabel | reports/diagram_generator.py:80-86 | Adding a label keeps the labels strictly ordered and adds exactly that label |
| DiagramGenerator.Labels | reports/diagram_generator.py:80-86 | The distinct labels, strictly ordered |
| DiagramGenerator.ProjectNames | reports/diagram_generator.py:81 | The project names present in the rows |
| DiagramGenerator.UserNames | reports/diagram_generator.py:82 | The user names present in the rows |
| DiagramGenerator.CellHoursZeroFill | reports/diagram_generator.py:85 | A (project, user) pair with no row has 0 hours |
| DiagramGenerator.Pivot | reports/diagram_generator.py:80-86 | One row per distinct project and one column per distinct user, each sorted; each cell is the sum over the matching rows |
| DiagramGenerator.PlotEmployeeHours | reports/diagram_generator.py:70-100 | No chart exactly for zero rows; otherwise the pivot, at `employee_hours.png` |
| DiagramGenerator.ChartSet.Paths | reports/diagram_generator.py:112-116 | The chart map holds three entries in the order monthly, variance, employee, each with its chart's URI or None |
| DiagramGenerator.GenerateAllCharts | reports/diagram_generator.py:103-116 | The monthly chart comes from the monthly frame, the variance chart from the variance frame, the employee chart from the hours frame |
| DiagramGenerator.ChartMapShape | reports/diagram_generator.py:112-116 | The three keys are always present, in order; a path is None exactly when its frame is empty, else the fixed file's URI |
| HtmlGenerator.Records | data_analysis/reports/html_generator.py:31 | `to_dict(orient="records")`: one record per row, same count, row order |
| HtmlGenerator.ShapeRenderArgs | data_analysis/reports/html_generator.py:29-38 | The name and charts pass unchanged (None included). Hours, variance and monthly pass as full record lists. The average is the first record, or None exactly when its frame is empty |
| HtmlGenerator.GenerateHtmlReport | data_analysis/reports/html_generator.py:15-41 | Always the template `report.html` with the shaped arguments; its markup, or a template failure carrying the engine's error |
| HtmlGenerator.AvgDurationFirstRowOnly | data_analysis/reports/html_generator.py:32-35 | Average frames that agree on their first row (or are both empty) render alike |
| Dto.NewReportDto | dto/report_dto.py:5-12 | All six fields are required: leaving out `file_name` raises the missing-argument TypeError; otherwise the record holds the given fields |
| ReportGenerator.FormatTimestamp | data_analysis/reports/report_generator.py:40 | `%Y%m%d_%H%M%S`: fifteen characters, '_' at position 8, digits elsewhere |
| ReportGenerator.TimestampFields | data_analysis/reports/report_generator.py:40 | Each date and time field reads back from its fixed position |
| ReportGenerator.TimestampSameIff | data_analysis/reports/report_generator.py:40 | Two readings format alike exactly when they fall in the same second |
| ReportGenerator.PdfPath | data_analysis/reports/report_generator.py:41 | The PDF path is the PDF directory, '/', then the report file name |
| ReportGenerator.ReportFileNameInjective | data_analysis/reports/report_generator.py:41 | Equal report file names have equal manager ids and equal timestamps |
| ReportGenerator.PdfPathInjective | data_analysis/reports/report_generator.py:40-41 | Two runs share a PDF path exactly when they are for the same manager in the same second |
| ReportGenerator.ReportFileNameHasNoSlash | data_analysis/reports/report_generator.py:41 | The report file name contains no '/', so it names a file directly inside the PDF directory |
| ReportGenerator.PdfPathLastSegment | data_analysis/reports/report_generator.py:41 | The last segment of the PDF path is the report file name |
| ReportGenerator.SameSecondSamePdf | data_analysis/reports/report_generator.py:40-41 | A rerun for the same manager in the same second targets the same file |
| ReportGenerator.Stages | data_analysis/reports/report_generator.py:20-43 | The generator runs in nine stages: lookup, the four views, charts, HTML, PDF, record |
| ReportGenerator.ReadFramesStops | data_analysis/reports/report_generator.py:24-27 | The first unavailable view, in the order hours, average, variance, monthly, ends the reading. Its query is the last one issued (1 to 4), and its database error is the reading's error |
| ReportGenerator.ReadingAtView | data_analysis/reports/report_generator.py:24-27 | When view k is the first unavailable one, the reading issues k + 1 queries and fails with view k's error |
| ReportGenerator.ReadFrames | data_analysis/reports/report_generator.py:24-27 | The views are read in the order hours, average, variance, monthly; the first that raises ends the reading; success exactly when all four are available |
| ReportGenerator.AfterLookup | data_analysis/reports/report_generator.py:24-51 | After the lookup the trace continues in the fixed stage order; a report means all nine stages ran, and a run missing `file_name` that reaches the last stage fails there |
| ReportGenerator.AfterFrames | data_analysis/reports/report_generator.py:29-51 | After the views the trace reaches at least the chart stage, in order; a report means all nine stages ran and a file name was given |
| ReportGenerator.Finish | data_analysis/reports/report_generator.py:29-51 | After the views: HTML, then PDF, then the record. A template that raises ends the run after the render stage with its error; a failing PDF write ends it after the PDF stage with the PDF error. A record holds the charts handed to the template, that template's HTML, and the path the PDF was written to |
| ReportGenerator.Pipeline | data_analysis/reports/report_generator.py:20-51 | The trace is always a non-empty prefix of the fixed stage order. It goes past the lookup exactly when the user table is available. A report means every stage ran; a run missing `file_name` that reaches the last stage fails there. Where a lookup, render or PDF failure stops the run is stated by the three `PipelineStopsAt…` lemmas |
| ReportGenerator.PipelineStopsAtView | data_analysis/reports/report_generator.py:20-27 | With the user table available, a run stops at the first unavailable view: the trace ends with that view's fetch, and the run raises that view's database error |
| ReportGenerator.PipelineStopsAtLookup | data_analysis/reports/report_generator.py:20-22 | A lookup that raises ends the run at its first stage with the lookup's error |
| ReportGenerator.PipelineStopsAtRender | data_analysis/reports/report_generator.py:29-38 | With the lookup and views answering, a template that raises ends the run after the render stage with the template's error; no PDF is written |
| ReportGenerator.PipelineStopsAtPdf | data_analysis/reports/report_generator.py:40-43 | With the HTML rendered, a failing PDF write ends the run after the PDF stage with the PDF error for the timestamped path |
| ReportGenerator.PipelineReport | data_analysis/reports/report_generator.py:20-51 | A report names the manager as looked up (None included). It carries the chart map drawn from the manager's frames and given to the template, and the HTML rendered from them. It points at the timestamped path the PDF was written to |
| ReportGenerator.GenerateManagerReportAsWritten | data_analysis/reports/report_generator.py:20-51 | As written, no run returns a report. A run that gets through the PDF stage raises the missing-`file_name` TypeError at the last stage |
| ReportGenerator.FinishWithoutFileName | data_analysis/reports/report_generator.py:45-51 | Leaving out the file name changes only the last stage's result: a record becomes the missing-argument TypeError, and every earlier failure stays as it was |
| ReportGenerator.AsWrittenNeverSucceeds | data_analysis/reports/report_generator.py:20-51 | The code as written runs the same stages as the corrected pipeline and fails where it fails. Exactly where the corrected pipeline returns a report, the code as written raises the TypeError |
| ReportGenerator.GenerateManagerReport | data_analysis/reports/report_generator.py:20-51 | A report carries the pipeline's contents. Its file name is `manager_<id>_<ts>.pdf`, which is also the last segment of its PDF path |
| ReportGenerator.GenerateManagerReportSucceeds | data_analysis/reports/report_generator.py:20-51 | With every source available, the template rendering and the PDF written, the run returns a report and every stage ran |
| ReportGenerator.AverageNeverCharted | data_analysis/reports/report_generator.py:29 | Changing the average-duration view changes no chart |
| ServiceImpl.ReadFile | data_analysis/server/service_impl.py:54-58 | A readable file gives its full contents; a failed read gives no bytes (as does an empty file, and nothing else) |
| ServiceImpl.UriPath | data_analysis/server/service_impl.py:67-68 | `urlparse(uri).path`: never longer than the URI; what it yields for a chart URI is stated by `ServiceImpl.LocalPathOfFileUri` |
| ServiceImpl.LocalPathDropsFirst | data_analysis/server/service_impl.py:69 | `Path(path_segment[1:])`: the URI path less its first character |
| ServiceImpl.LocalPathOfFileUri | data_analysis/server/service_impl.py:67-69 | The URI of an absolute path keeps its percent-escapes in its URI path. So the local path is the quoted path less its '/', and that equals the path less its '/' exactly when the path needs no escapes |
| ServiceImpl.ChartReadPath | data_analysis/server/service_impl.py:67-71 | A chart is read from its own file, relative to the working directory, with the diagrams root percent-encoded and the id and file name as they are |
| ServiceImpl.LocalPathUnder | data_analysis/server/service_impl.py:67-71 | Under an absolute root, a path with a safe tail is read with only its root percent-encoded |
| ServiceImpl.LocalPathPlainUnder | data_analysis/server/service_impl.py:67-71 | Under an absolute root, a path with a safe tail reads back as written exactly when the root needs no escapes |
| ServiceImpl.ChartReadPathPlain | data_analysis/server/service_impl.py:67-71 | A chart is read from the file it was written to (less the leading '/') exactly when the diagrams root needs no escapes |
| ServiceImpl.ChartUriFileName | data_analysis/server/service_impl.py:85 | A chart's packaged file name is its kind's fixed file name, whatever escapes the diagrams root carries in the URI |
| ServiceImpl.PackageChart | data_analysis/server/service_impl.py:66-90 | A packaged chart is titled by its chart-map key |
| ServiceImpl.PackageChartNamed | data_analysis/server/service_impl.py:85 | A chart packaged from its URI is named by its kind's fixed file name, the last segment of the URI |
| ServiceImpl.PackageChartData | data_analysis/server/service_impl.py:70-80 | The data is empty exactly when the read failed or the file is empty; otherwise it is the RFC 4648 Base64 of the bytes, 4·⌈n/3⌉ long, and it decodes back to the bytes |
| ServiceImpl.Kept | data_analysis/server/service_impl.py:63-65 | Exactly the entries whose path is neither None nor empty |
| ServiceImpl.PackagedChartsEach | data_analysis/server/service_impl.py:61-90 | One chart per kept entry, in map order, each that entry's packaged chart; skipped entries produce nothing |
| ServiceImpl.KeptThree | data_analysis/server/service_impl.py:63-65 | Of a three-entry map, the truthy entries are kept in their order |
| ServiceImpl.ReportKept | data_analysis/server/service_impl.py:61-65 | A report's chart map keeps one entry per non-empty frame, in the order monthly, variance, employee |
| ServiceImpl.ReportChartTitles | data_analysis/server/service_impl.py:61-90 | A report's packaged charts are one per non-empty frame, titled by their keys in map order |
| ServiceImpl.ReadPdf | data_analysis/server/service_impl.py:50-58 | No bytes when the path is None or empty or the read fails; otherwise the file's full contents |
| ServiceImpl.PackagedChartsExtend | data_analysis/server/service_impl.py:63-90 | One more entry adds its packaged chart exactly when its path is truthy |
| ServiceImpl.ReportPackage | data_analysis/server/service_impl.py:45 | The pipeline's exception propagates unchanged; a package exists exactly when the pipeline returns a report |
| ServiceImpl.ReportPackageContents | data_analysis/server/service_impl.py:45-96 | A package holds the HTML rendered from the manager's frames and looked-up name, and the bytes of the PDF file the run wrote. It has one chart per non-empty frame, titled by its key, in the order monthly, variance, employee |
| ServiceImpl.PackageCharts | data_analysis/server/service_impl.py:60-90 | The chart loop builds exactly the packaged chart list |
| ServiceImpl.BuildManagerReportPackage | data_analysis/server/service_impl.py:33-96 | The pipeline's exception propagates. Otherwise the package holds the report's html, its PDF's bytes and its packaged charts |
| ServiceImpl.ReportMessage | data_analysis/server/service_impl.py:98-119 | The message fails exactly when the package does, with its exception. Otherwise it carries the id, the given name (an unset name reads as ""), and the package's html, pdf and charts |
| ServiceImpl.CopyCharts | data_analysis/server/service_impl.py:111-117 | Every chart is copied with identical fields, in order |
| ServiceImpl.GenerateManagerReportMessage | data_analysis/server/service_impl.py:98-119 | The message carries the id, the name (an unset name reads as ""), and the package's html, pdf and charts |
| ServiceImpl.NameOrFallback | data_analysis/server/service_impl.py:129 | Never empty: the looked-up name when it is non-empty, else `Manager <id>` |
| ServiceImpl.Without | data_analysis/server/service_impl.py:19 | Removing an entry leaves exactly the other entries |
| ServiceImpl.WithoutKeepsUnique | data_analysis/server/service_impl.py:19 | Removing an entry keeps directory names distinct |
| ServiceImpl.FirstBlocked | data_analysis/server/service_impl.py:17-22 | The first entry whose removal fails; every entry before it can be removed |
| ServiceImpl.TempDir.Remove | data_analysis/server/service_impl.py:19 | `os.remove` succeeds exactly for a present, removable entry and removes only it |
| ServiceImpl.TempDir.CleanTemp | data_analysis/server/service_impl.py:16-22 | Removes entries in listing order up to the first failure, which ends the sweep silently. An unlistable directory is left alone |
| ServiceImpl.SweepEmpties | data_analysis/server/service_impl.py:16-22 | With no failing entry, the directory is empty after the sweep |
| ServiceImpl.GetManagerHtml | data_analysis/server/service_impl.py:121-125 | A lookup failure propagates first; otherwise the package's html or its exception; no sweep |
| ServiceImpl.GetManagerPdf | data_analysis/server/service_impl.py:127-132 | A lookup failure propagates first; otherwise the package's PDF bytes. The sweep runs only on success |
| ServiceImpl.ReportsOfManager | data_analysis/server/service_impl.py:134-143 | A lookup failure propagates. Otherwise the reply fails exactly when the report message does, with its exception. On success it is exactly that one message, named as looked up, with no fallback |
| ServiceImpl.GetAllReportsOfManager | data_analysis/server/service_impl.py:134-143 | Returns that one-report reply, then sweeps; on an exception the directory is untouched |
| ServiceImpl.BatchMessage | data_analysis/server/service_impl.py:156-158 | A lookup failure propagates. Otherwise the report fails exactly when its package does, with the package's exception. A report has its manager's id, the looked-up name or `Manager <id>` (never empty), and the package's html, pdf and charts |
| ServiceImpl.BatchMessageIsMessage | data_analysis/server/service_impl.py:156-158 | After a successful lookup, a batch report is the report message named by the looked-up name or its fallback |
| ServiceImpl.Batch | data_analysis/server/service_impl.py:156-159 | A successful batch has one report per id. A failed batch carries the exception of one of its ids |
| ServiceImpl.BatchPrefixErr | data_analysis/server/service_impl.py:156-159 | Once an id raises, the batch ends with that exception; later ids change nothing |
| ServiceImpl.BatchEach | data_analysis/server/service_impl.py:156-159 | The batch succeeds exactly when every id's report does; then it holds one report per id, in id order, each that id's report |
| ServiceImpl.BatchReports | data_analysis/server/service_impl.py:156-159 | The loop builds exactly the batch, stopping at the first exception |
| ServiceImpl.GetAllManagerReports | data_analysis/server/service_impl.py:145-162 | The batch over every project owner, in id order with one clock reading per id. On success one sweep follows, also for an empty id list; after an exception the directory is untouched |
| GrpcServer.MetadataMap | data_analysis/server/grpc_server.py:42-44 | The dictionary has exactly the keys sent |
| GrpcServer.MetadataLastWins | data_analysis/server/grpc_server.py:44 | A key's value is the value of its last pair |
| GrpcServer.AfterFirstSpace | data_analysis/server/grpc_server.py:48 | What follows the first space is shorter than the value |
| GrpcServer.PresentedToken | data_analysis/server/grpc_server.py:46-48 | A missing authorization header is the empty token |
| GrpcServer.PresentedTokenStrips | data_analysis/server/grpc_server.py:47-48 | A value starting with "Bearer " yields what follows the prefix; any other value is compared whole |
| GrpcServer.AuthInterceptor.constructor | data_analysis/server/grpc_server.py:35-36 | The expected token is the configured one, fixed for the interceptor's life |
| GrpcServer.AuthInterceptor.Intercept | data_analysis/server/grpc_server.py:41-64 | Continues exactly when a token is configured and the presented token equals it. With none configured, every call is refused as not configured, whatever it presents; a mismatch is refused as an invalid token |
| GrpcServer.BearerTokenAdmitted | data_analysis/server/grpc_server.py:41-64 | A call whose last authorization pair is `Bearer <expected>` is admitted |
| GrpcServer.MissingHeaderIsEmptyToken | data_analysis/server/grpc_server.py:42-64 | A call without metadata is admitted exactly when the configured token is the empty string |
| RestRouter.ValidateToken | data_analysis/server/rest_router.py:22-25 | True exactly when the credentials equal the configured key |
| RestRouter.ServerError | data_analysis/server/rest_router.py:57-59 | Any exception in a `try` surfaces as status 500 with detail `str(e)` and no bearer challenge |
| RestRouter.ServedFileName | data_analysis/server/rest_router.py:51-52 | The served name is '/' plus a report file name for the endpoint's own timestamp |
| RestRouter.ServedPathShape | data_analysis/server/rest_router.py:51-53 | The served path has the pipeline's path format, for the endpoint's own clock reading |
| RestRouter.GetManagerPdfAsWritten | data_analysis/server/rest_router.py:39-59 | A bad key gives 401 with no pipeline run. Then the pipeline runs; its exception gives 500. On success the endpoint serves the path built from its own clock reading |
| RestRouter.PdfEndpointServesOtherFile | data_analysis/server/rest_router.py:49-55 | As written, the served path is the generated PDF's exactly when both clock readings fall in the same second |
| RestRouter.GetManagerPdf | data_analysis/server/rest_router.py:39-59 | A bad key gives 401 with no pipeline run, an exception gives 500, and a report gives the file the pipeline wrote |
| RestRouter.HtmlDecisionAsWritten | data_analysis/server/rest_router.py:70-80 | As written, the endpoint never answers 404 |
| RestRouter.EmptyReportIsServerError | data_analysis/server/rest_router.py:74-80 | As written, an empty report comes back as status 500 with detail "404: Report not found or empty." |
| RestRouter.HtmlDecision | data_analysis/server/rest_router.py:70-80 | The html of the first report when there is one and it is non-empty; 404 for a missing or empty report; 500 with `str(e)` for an exception |
| RestRouter.HtmlDecisionsAgreeOtherwise | data_analysis/server/rest_router.py:70-80 | The two decisions differ only on a missing or empty report |
| RestRouter.GetManagerHtmlAsWritten | data_analysis/server/rest_router.py:61-80 | A bad key gives 401 before any service call and leaves the PDF directory alone. Otherwise the as-written decision on the service's one-report reply (never 404). The directory is swept when the reply succeeds and untouched when it raises |
| RestRouter.GetManagerHtml | data_analysis/server/rest_router.py:61-80 | The same, with a missing or empty report answered as 404 |
| RestRouter.CleanTemp | data_analysis/server/rest_router.py:27-33 | The same sweep as the service's: removes up to the first failure and never raises |

## Left out

- Drawing: matplotlib drawing and `savefig` are not modelled. A drawn chart records its directory, the data it plots and its URI. A failure while drawing or saving a chart is not modelled.
- The SQL engine: it is not modelled. A view answers with its stored rows, filtered on `managerId` when `mid` is bound. A source listed as unavailable makes its queries raise.
- Result order: the by-manager queries and `SELECT DISTINCT` promise no row order, so the contracts state which rows come back, not their order.
- Queries.FetchAllManagerIds: does not state the order of the ids, because `SELECT DISTINCT` promises none. The model keeps first occurrence.
- Queries.FetchManager: does not model `str()` of a non-text or NULL name cell, because names are strings in the model.
- Numbers: hours and variances are integers; the views' floating-point sums are not modelled.
- DiagramGenerator.SortByVariance: does not fix the order of rows with equal variance, because pandas' default sort is not stable and promises no tie order.
- Templates: Jinja loading, autoescaping and the template's markup are a function supplied by the caller.
- The PDF writer: WeasyPrint is a predicate saying whether the file was written. Directory creation and the base URL are not modelled.
- The filesystem: files the service reads back are an input map, not linked to what the pipeline wrote, so a PDF that was written can still be unreadable. The PDF a run writes is not added to the `TempDir` entries.
- Clock readings: `datetime.now()` is an input. Years run 1000 to 9999; `%Y` for earlier years is not modelled. Days run 1 to 31, not checked against the month's length.
- ServiceImpl.UriPath: does not model queries, fragments or schemes other than `file`, because chart URIs are always `file://` URIs built from a path.
- gRPC plumbing: the server bootstrap (thread pool, signal handlers, port binding) is not modelled. Refusal is modelled as an abort verdict; the handler that aborts when the call runs is not.
- GrpcServer.AuthInterceptor.constructor: takes the configured token as an option. The settings class requires `api_key`, so the not-configured branch is reached only if that value is missing.
- Protobuf: message construction is reduced to a datatype. An unset name reads as the empty string.
- HTTP plumbing: FastAPI's `HTTPBearer` is not modelled. Its 403 for a missing or malformed Authorization header is left out; the endpoint receives the extracted credentials.
- File serving: `FileResponse` sends the file after the handler returns, so a missing file fails outside the `try`. That failure is not modelled.
- Unused name: `GetManagerPDF` computes the fallback name and never uses it. The model computes it too; it affects nothing.
- Concurrency: the race between the sweep and concurrent requests is not modelled. The diagrams directory is never swept by the program, and the model does not sweep it either.
- Logging and `print` calls are left out.
- DiagramGenerator.FileUri: does not model the ValueError `as_uri()` raises for a relative path, because the diagrams root is built from the module's own absolute location. Paths are Unicode scalar values encoded as UTF-8; surrogate-escaped bytes are not modelled.
- ServiceImpl.ReportPackage: runs the corrected pipeline, because as written `generate_manager_report` always raises TypeError (finding 1). As written, every gRPC handler that gets past the name lookup then fails with that TypeError.
- ServiceImpl.BuildManagerReportPackage, ServiceImpl.ReportMessage, ServiceImpl.GenerateManagerReportMessage: build on ServiceImpl.ReportPackage, so they use the corrected pipeline too.
- ServiceImpl.GetManagerHtml, ServiceImpl.GetManagerPdf, ServiceImpl.ReportsOfManager, ServiceImpl.GetAllReportsOfManager: use the corrected pipeline; as written, once the lookup succeeds, they raise the TypeError and never sweep.
- ServiceImpl.BatchMessage, ServiceImpl.GetAllManagerReports: use the corrected pipeline; as written, a batch with at least one readable owner raises the TypeError for its first id.
- RestRouter.GetManagerPdfAsWritten, RestRouter.GetManagerPdf: use the corrected pipeline for the report; as written, a valid key always gets 500 with the TypeError's text.
- RestRouter.GetManagerHtml, RestRouter.GetManagerHtmlAsWritten: use the corrected pipeline through the service; as written, a valid key gets 500 with the TypeError's text once the lookup succeeds. RestRouter.GetManagerHtml also answers a missing or empty report with 404 (finding 2).
- ServiceImpl.PackagedCharts: its contract is stated by ServiceImpl.PackagedChartsEach, which gives one chart per kept entry, in order.
- Environment setup: `main.py` and the DLL-path setup are left out. Settings loading is a parameter.

## Findings

| source | as written | input that shows it | evidently intended | confidence | as-written member | corrected member |
|---|---|---|---|---|---|---|
| data_analysis/reports/report_generator.py:45-51 | `ReportDTO(...)` is called without `file_name`, which the dataclass at dto/report_dto.py:12 requires, so it raises TypeError after the PDF has been written | any manager whose views are available, whose template renders and whose PDF is written | the record is built with its file name `manager_<id>_<ts>.pdf` | not executed; high | ReportGenerator.AsWrittenNeverSucceeds | ReportGenerator.GenerateManagerReport |
| data_analysis/server/rest_router.py:74-80 | the 404 raised inside the `try` is caught by the handler's own `except Exception` and re-raised as a 500 | a valid key and a manager whose report renders to empty HTML | a missing or empty report answers 404 "Report not found or empty." | not executed; high | RestRouter.EmptyReportIsServerError | RestRouter.HtmlDecision |
| data_analysis/server/rest_router.py:49-55 | the PDF endpoint takes a second clock reading and serves the path built from it, not the path the pipeline wrote | a valid key and a report generated at 12:00:00.9 whose endpoint reading is 12:00:01.0; reachable only once finding 1 is corrected, since as written the pipeline raises first and the endpoint answers 500 | the endpoint serves the PDF the pipeline just wrote | not executed; medium | RestRouter.PdfEndpointServesOtherFile | RestRouter.GetManagerPdf |
