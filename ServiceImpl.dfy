/**
 * The gRPC service (data_analysis/server/service_impl.py): packaging a generated report (PDF
 * bytes, Base64 chart images), building the report message, the four handlers, and the sweep
 * of the PDF directory. Files the service reads are a map from the path it opens to the bytes
 * it would read; a path outside the map is a read that raises.
 */
module ServiceImpl {
  import opened Wrappers
  import opened Text
  import opened Base64
  import opened Failures
  import opened Config
  import opened Queries
  import opened DiagramGenerator
  import opened Dto
  import opened ReportGenerator

  type FileSystem = map<string, seq<Byte>>

  /** `open(p, "rb").read()` with a failure turned into no bytes, as every read here does. */
  function ReadFile(fs: FileSystem, p: string): (b: seq<Byte>)
    ensures p in fs ==> b == fs[p]
    ensures p !in fs ==> b == []
    ensures b == [] <==> p !in fs || fs[p] == []
  {
    if p in fs then fs[p] else []
  }

  // ---- Where a chart is read from ----

  /** `urlparse(uri).path` for the `file://` URIs the charts carry: the authority is dropped. */
  function UriPath(uri: string): (p: string)
    ensures |p| <= |uri|
  {
    if |uri| >= 7 && uri[..7] == "file://" then
      var rest := uri[7..];
      rest[FirstIndex(rest, '/')..]
    else uri
  }

  /** `Path(path_segment[1:])`: the URI path without its first character, relative to the working directory. */
  function LocalPath(uri: string): string {
    var u := UriPath(uri);
    if u == [] then [] else u[1..]
  }

  /** The local path is the URI path less its first character, and never longer than the URI. */
  lemma LocalPathDropsFirst(uri: string)
    ensures |LocalPath(uri)| <= |uri|
    ensures UriPath(uri) != [] ==> [UriPath(uri)[0]] + LocalPath(uri) == UriPath(uri)
  {
  }

  /**
   * The URI of an absolute path keeps its escapes: `urlparse` does not decode them, so the
   * service reads the quoted path without its leading '/', and that is the path itself (less
   * the '/') exactly when the path needed no escapes.
   */
  lemma LocalPathOfFileUri(path: string)
    requires |path| >= 1 && path[0] == '/'
    ensures UriPath(FileUri(path)) == Quote(path)
    ensures LocalPath(FileUri(path)) == Quote(path[1..])
    ensures LocalPath(FileUri(path)) == path[1..] <==> AllUriSafe(path)
  {
    var q := Quote(path);
    QuoteLeadingSlash(path);
    assert q[0] == '/';
    var u := FileUri(path);
    assert u[..7] == "file://" && u[7..] == q;
    assert FirstIndex(q, '/') == 0;
    assert q[1..] == Quote(path[1..]);
    QuoteIdentityIff(path[1..]);
    AllUriSafeTail(path);
  }

  /**
   * The file a chart is read from: the chart's own file, relative to the working directory,
   * with the diagrams root percent-encoded.
   */
  lemma ChartReadPath(root: string, managerId: int, kind: ChartKind)
    requires |root| >= 1 && root[0] == '/'
    ensures LocalPath(FileUri(ChartFile(root, managerId, kind)))
            == Quote(root[1..]) + ("/" + IntToString(managerId) + "/" + kind.FileName())
  {
    var tail := "/" + IntToString(managerId) + "/" + kind.FileName();
    assert ChartFile(root, managerId, kind) == root + tail;
    ChartTailSafe(managerId, kind);
    LocalPathUnder(root, tail);
  }

  /** Under an absolute root, only the root of the read path carries escapes. */
  lemma LocalPathUnder(root: string, tail: string)
    requires |root| >= 1 && root[0] == '/' && AllUriSafe(tail)
    ensures LocalPath(FileUri(root + tail)) == Quote(root[1..]) + tail
  {
    LocalPathOfFileUri(root + tail);
    QuoteAfterFirst(root, tail);
  }

  /** Under an absolute root, a safe tail is read back as written exactly when the root needs no escapes. */
  lemma LocalPathPlainUnder(root: string, tail: string)
    requires |root| >= 1 && root[0] == '/' && AllUriSafe(tail)
    ensures LocalPath(FileUri(root + tail)) == (root + tail)[1..] <==> AllUriSafe(root)
  {
    LocalPathOfFileUri(root + tail);
    AllUriSafeBeforeSafe(root, tail);
  }

  /** A chart is read from the file it was written to (less the leading '/') exactly when the root needs no escapes. */
  lemma ChartReadPathPlain(root: string, managerId: int, kind: ChartKind)
    requires |root| >= 1 && root[0] == '/'
    ensures LocalPath(FileUri(ChartFile(root, managerId, kind))) == ChartFile(root, managerId, kind)[1..]
            <==> AllUriSafe(root)
  {
    var tail := "/" + IntToString(managerId) + "/" + kind.FileName();
    ChartTailSafe(managerId, kind);
    assert ChartFile(root, managerId, kind) == root + tail;
    LocalPathPlainUnder(root, tail);
  }

  /** The last segment of a chart's URI is the fixed file name of its kind. */
  lemma ChartUriFileName(root: string, managerId: int, kind: ChartKind)
    ensures LastSegment(FileUri(ChartFile(root, managerId, kind))) == kind.FileName()
  {
    var tail := "/" + IntToString(managerId) + "/" + kind.FileName();
    assert FileUri(ChartFile(root, managerId, kind)) == ("file://" + Quote(root)) + tail by {
      ChartFileQuoted(root, managerId, kind);
    }
    LastSegmentUnder("file://" + Quote(root), "/" + IntToString(managerId), kind.FileName());
  }

  // ---- Packaging ----

  /** One chart of the message: file name, title, Base64 text of the image (empty when unreadable). */
  datatype Chart = Chart(filename: string, title: string, data: string)

  /** `if not path: continue` -- None and the empty string are skipped. */
  predicate Truthy(p: Option<string>) {
    p.Some? && p.value != ""
  }

  /**
   * One packaged chart: titled by its key, named by the last segment of its URI, carrying the
   * RFC 4648 Base64 form of the file's bytes, or nothing when the read failed or the file is empty.
   */
  function PackageChart(fs: FileSystem, key: string, uri: string): (c: Chart)
    ensures c.title == key
  {
    var bytes := ReadFile(fs, LocalPath(uri));
    Chart(LastSegment(uri), key, if bytes != [] then Encode(bytes) else "")
  }

  /** A chart packaged from its own URI is named by its kind's fixed file name. */
  lemma PackageChartNamed(fs: FileSystem, root: string, managerId: int, kind: ChartKind)
    ensures PackageChart(fs, kind.Key(), FileUri(ChartFile(root, managerId, kind))).filename == kind.FileName()
  {
    ChartUriFileName(root, managerId, kind);
  }

  /**
   * A packaged chart's data is empty exactly when the read failed or the file is empty; otherwise
   * it is the Base64 text of the file's bytes, and it decodes back to them.
   */
  lemma PackageChartData(fs: FileSystem, key: string, uri: string)
    ensures var bytes := ReadFile(fs, LocalPath(uri));
      var c := PackageChart(fs, key, uri);
      && (c.data == [] <==> bytes == [])
      && |c.data| == 4 * ((|bytes| + 2) / 3)
      && Decode(c.data) == Some(bytes)
  {
    var bytes := ReadFile(fs, LocalPath(uri));
    EncodeEmptyIff(bytes);
    assert PackageChart(fs, key, uri).data == Encode(bytes);
    DecodeEncode(bytes);
  }

  /** The entries of the chart map that are packaged, in map order. */
  function Kept(m: ChartMap): (k: ChartMap)
    ensures |k| <= |m|
    ensures forall e :: e in k <==> e in m && Truthy(e.path)
  {
    if m == [] then []
    else
      var init := Kept(m[..|m| - 1]);
      var last := m[|m| - 1];
      assert m == m[..|m| - 1] + [last];
      if Truthy(last.path) then init + [last] else init
  }

  /** The `charts_out` list, built entry by entry in map order. */
  function PackagedCharts(fs: FileSystem, m: ChartMap): seq<Chart> {
    if m == [] then []
    else
      var init := PackagedCharts(fs, m[..|m| - 1]);
      var last := m[|m| - 1];
      if Truthy(last.path) then init + [PackageChart(fs, last.key, last.path.value)] else init
  }

  /** One more map entry adds its packaged chart exactly when it is kept. */
  lemma PackagedChartsStep(fs: FileSystem, m: ChartMap)
    requires m != []
    ensures var prefix, last := m[..|m| - 1], m[|m| - 1];
      && Kept(m) == Kept(prefix) + (if Truthy(last.path) then [last] else [])
      && PackagedCharts(fs, m) == PackagedCharts(fs, prefix)
                                  + (if Truthy(last.path) then [PackageChart(fs, last.key, last.path.value)] else [])
  {
  }

  /** One chart per kept entry, in map order, each that entry's packaged chart. */
  lemma {:induction false} PackagedChartsEach(fs: FileSystem, m: ChartMap)
    ensures |PackagedCharts(fs, m)| == |Kept(m)|
    ensures forall i :: 0 <= i < |Kept(m)| ==>
      PackagedCharts(fs, m)[i] == PackageChart(fs, Kept(m)[i].key, Kept(m)[i].path.value)
  {
    if m != [] {
      var prefix, last := m[..|m| - 1], m[|m| - 1];
      var kept, charts := Kept(prefix), PackagedCharts(fs, prefix);
      PackagedChartsEach(fs, prefix);
      PackagedChartsStep(fs, m);
      if Truthy(last.path) {
        var c := PackageChart(fs, last.key, last.path.value);
        assert Kept(m) == kept + [last] && PackagedCharts(fs, m) == charts + [c];
        forall i | 0 <= i < |kept| + 1
          ensures (charts + [c])[i] == PackageChart(fs, (kept + [last])[i].key, (kept + [last])[i].path.value)
        {
          if i < |kept| {
            assert (kept + [last])[i] == kept[i] && (charts + [c])[i] == charts[i];
          }
        }
      }
    }
  }

  /** Packaging a three-entry map keeps the truthy entries in order. */
  lemma KeptThree(a: ChartEntry, b: ChartEntry, c: ChartEntry)
    ensures Kept([a, b, c]) == (if Truthy(a.path) then [a] else []) + (if Truthy(b.path) then [b] else [])
                             + (if Truthy(c.path) then [c] else [])
  {
    assert [a][..0] == [];
    assert Kept([a]) == (if Truthy(a.path) then [a] else []);
    assert [a, b][..1] == [a];
    assert Kept([a, b]) == Kept([a]) + (if Truthy(b.path) then [b] else []);
    assert [a, b, c][..2] == [a, b];
  }

  /** The entries a report's chart map keeps: one per non-empty frame, in the map's order. */
  function ExpectedKeys(f: Frames): seq<string> {
    (if f.months != [] then [MonthlyHours.Key()] else [])
    + (if f.variances != [] then [DurationVariance.Key()] else [])
    + (if f.hours != [] then [EmployeeHours.Key()] else [])
  }

  /** The keys kept from a three-entry map are those of its truthy entries, in order. */
  lemma KeptThreeKeys(a: ChartEntry, b: ChartEntry, c: ChartEntry, keys: seq<string>)
    requires keys == (if Truthy(a.path) then [a.key] else []) + (if Truthy(b.path) then [b.key] else [])
                     + (if Truthy(c.path) then [c.key] else [])
    ensures var k := Kept([a, b, c]);
      |k| == |keys| && forall i :: 0 <= i < |k| ==> k[i].key == keys[i]
  {
    KeptThree(a, b, c);
  }

  lemma ReportKept(f: Frames, managerId: int, root: string)
    ensures var k := Kept(FrameCharts(f, managerId, root));
      |k| == |ExpectedKeys(f)| && forall i :: 0 <= i < |k| ==> k[i].key == ExpectedKeys(f)[i]
  {
    var m := FrameCharts(f, managerId, root);
    ChartMapShape(f.hours, f.variances, f.months, managerId, root);
    assert m == [m[0], m[1], m[2]];
    assert Truthy(m[0].path) <==> f.months != [];
    assert Truthy(m[1].path) <==> f.variances != [];
    assert Truthy(m[2].path) <==> f.hours != [];
    KeptThreeKeys(m[0], m[1], m[2], ExpectedKeys(f));
  }

  /** A report's chart list: one chart per non-empty frame, in the chart map's order, titled by its key. */
  lemma ReportChartTitles(fs: FileSystem, f: Frames, managerId: int, root: string)
    ensures var cs := PackagedCharts(fs, FrameCharts(f, managerId, root));
      |cs| == |ExpectedKeys(f)| && forall i :: 0 <= i < |cs| ==> cs[i].title == ExpectedKeys(f)[i]
  {
    ReportKept(f, managerId, root);
    PackagedChartsEach(fs, FrameCharts(f, managerId, root));
  }

  /** The package `_build_manager_report_package` returns. */
  datatype Package = Package(html: string, pdf: seq<Byte>, charts: seq<Chart>)

  /** The PDF bytes: nothing when the path is None or empty, else what reading it gives. */
  function ReadPdf(fs: FileSystem, pdfPath: Option<string>): (b: seq<Byte>)
    ensures Truthy(pdfPath) && pdfPath.value in fs ==> b == fs[pdfPath.value]
    ensures !Truthy(pdfPath) || pdfPath.value !in fs ==> b == []
  {
    if Truthy(pdfPath) then ReadFile(fs, pdfPath.value) else []
  }

  /** The package of a pipeline result, or the pipeline's exception. */
  function PackageResult(fs: FileSystem, result: Result<ReportDto, Error>): Result<Package, Error> {
    match result
    case Err(e) => Err(e)
    case Ok(d) => Ok(Package(d.html, ReadPdf(fs, d.pdfPath), PackagedCharts(fs, d.charts)))
  }

  /** The package of one report: the pipeline's exception, or the report's html, PDF bytes and charts. */
  function ReportPackage(env: Env, settings: Settings, fs: FileSystem, managerId: int, now: Instant): (r: Result<Package, Error>)
    ensures var o := GenerateManagerReport(env, settings, managerId, now);
      && (r.Err? <==> o.result.Err?)
      && (r.Err? ==> r.error == o.result.error)
  {
    PackageResult(fs, GenerateManagerReport(env, settings, managerId, now).result)
  }

  /**
   * What a package holds: the HTML the template rendered from the manager's frames and looked-up
   * name, the bytes of the PDF file the run wrote, and one chart per non-empty frame, titled by
   * its key, in the order monthly, variance, employee.
   */
  lemma ReportPackageContents(env: Env, settings: Settings, fs: FileSystem, managerId: int, now: Instant)
    requires ReportPackage(env, settings, fs, managerId, now).Ok?
    ensures var p := ReportPackage(env, settings, fs, managerId, now).value;
      && FetchManager(env.db, managerId).Ok? && FramesAvailable(env.db, managerId)
      && var frames := ManagerFrames(env.db, managerId);
         && FrameHtml(env.render, FetchManager(env.db, managerId).value, frames,
                      FrameCharts(frames, managerId, settings.diagramsPath)) == Ok(p.html)
         && p.pdf == ReadFile(fs, ReportPdfPath(settings, managerId, now))
         && |p.charts| == |ExpectedKeys(frames)|
         && forall i :: 0 <= i < |p.charts| ==> p.charts[i].title == ExpectedKeys(frames)[i]
  {
    var d := GenerateManagerReport(env, settings, managerId, now).result.value;
    ReportChartTitles(fs, ManagerFrames(env.db, managerId), managerId, settings.diagramsPath);
  }

  /** The packaged charts of the first i + 1 entries: those of the first i, then entry i's chart if it is kept. */
  lemma PackagedChartsExtend(fs: FileSystem, charts: ChartMap, i: nat)
    requires i < |charts|
    ensures PackagedCharts(fs, charts[..i + 1]) == PackagedCharts(fs, charts[..i])
      + (if Truthy(charts[i].path) then [PackageChart(fs, charts[i].key, charts[i].path.value)] else [])
  {
    assert charts[..i + 1][..i] == charts[..i] && charts[..i + 1][i] == charts[i];
    PackagedChartsStep(fs, charts[..i + 1]);
  }

  /** The chart loop of `_build_manager_report_package`: skip falsy paths, package the rest in order. */
  method PackageCharts(fs: FileSystem, charts: ChartMap) returns (out: seq<Chart>)
    ensures out == PackagedCharts(fs, charts)
  {
    out := [];
    var i := 0;
    while i < |charts|
      invariant 0 <= i <= |charts|
      invariant out == PackagedCharts(fs, charts[..i])
    {
      var entry := charts[i];
      PackagedChartsExtend(fs, charts, i);
      if entry.path.Some? && entry.path.value != "" {
        out := out + [PackageChart(fs, entry.key, entry.path.value)];
      }
      i := i + 1;
    }
    assert charts[..i] == charts;
  }

  /** `_build_manager_report_package`: run the pipeline, read the PDF, package the charts. */
  method BuildManagerReportPackage(env: Env, settings: Settings, fs: FileSystem, managerId: int, now: Instant)
    returns (r: Result<Package, Error>)
    ensures r == ReportPackage(env, settings, fs, managerId, now)
  {
    var o := GenerateManagerReport(env, settings, managerId, now);
    if o.result.Err? {
      return Err(o.result.error);
    }
    var result := o.result.value;
    var pdf: seq<Byte> := [];
    if result.pdfPath.Some? && result.pdfPath.value != "" && result.pdfPath.value in fs {
      pdf := fs[result.pdfPath.value];
    }
    var charts := PackageCharts(fs, result.charts);
    r := Ok(Package(result.html, pdf, charts));
  }

  // ---- The report message ----

  /** `report_pb2.ManagerReport`: an unset name reads as the empty string. */
  datatype ManagerReport = ManagerReport(managerId: int, managerName: string, html: string, pdf: seq<Byte>, charts: seq<Chart>)

  /** The message of one report, named as given; an unset name reads as the empty string. */
  function ReportMessage(env: Env, settings: Settings, fs: FileSystem, managerId: int, managerName: Option<string>,
                         now: Instant): (r: Result<ManagerReport, Error>)
    ensures var p := ReportPackage(env, settings, fs, managerId, now);
      && (r.Err? <==> p.Err?)
      && (r.Err? ==> r.error == p.error)
      && (r.Ok? ==> && r.value.managerId == managerId && r.value.managerName == managerName.GetOr("")
                    && Package(r.value.html, r.value.pdf, r.value.charts) == p.value)
  {
    match ReportPackage(env, settings, fs, managerId, now)
    case Err(e) => Err(e)
    case Ok(p) => Ok(ManagerReport(managerId, managerName.GetOr(""), p.html, p.pdf, p.charts))
  }

  /** The `mr.charts.add(...)` loop: every chart copied field by field, in order. */
  method CopyCharts(charts: seq<Chart>) returns (copied: seq<Chart>)
    ensures copied == charts
  {
    copied := [];
    var i := 0;
    while i < |charts|
      invariant 0 <= i <= |charts|
      invariant copied == charts[..i]
    {
      var chart := charts[i];
      copied := copied + [Chart(chart.filename, chart.title, chart.data)];
      i := i + 1;
    }
  }

  /** `_generate_manager_report_message`: the package's html and pdf, then its charts. */
  method GenerateManagerReportMessage(env: Env, settings: Settings, fs: FileSystem, managerId: int,
                                      managerName: Option<string>, now: Instant) returns (r: Result<ManagerReport, Error>)
    ensures r == ReportMessage(env, settings, fs, managerId, managerName, now)
  {
    var packaged := BuildManagerReportPackage(env, settings, fs, managerId, now);
    if packaged.Err? {
      return Err(packaged.error);
    }
    var p := packaged.value;
    var charts := CopyCharts(p.charts);
    r := Ok(ManagerReport(managerId, managerName.GetOr(""), p.html, p.pdf, charts));
  }

  /** `fetch_manager(manager_id) or f"Manager {manager_id}"`. */
  function NameOrFallback(name: Option<string>, managerId: int): (n: string)
    ensures n != ""
    ensures Truthy(name) ==> n == name.value
    ensures !Truthy(name) ==> n == "Manager " + IntToString(managerId)
  {
    if Truthy(name) then name.value else "Manager " + IntToString(managerId)
  }

  // ---- The PDF directory and its sweep ----

  predicate UniqueNames(s: seq<string>) {
    forall i, j :: 0 <= i < j < |s| ==> s[i] != s[j]
  }

  /** `s` without `x`. */
  function Without(s: seq<string>, x: string): (r: seq<string>)
    ensures forall y :: y in r <==> y in s && y != x
    ensures x !in s ==> r == s
  {
    if s == [] then []
    else if s[0] == x then Without(s[1..], x)
    else [s[0]] + Without(s[1..], x)
  }

  /** A list of distinct names does not repeat its head. */
  lemma HeadNotInTail(s: seq<string>)
    requires s != [] && UniqueNames(s)
    ensures s[0] !in s[1..] && UniqueNames(s[1..])
  {
    forall k | 0 <= k < |s| - 1
      ensures s[1..][k] != s[0]
    {
      assert s[1..][k] == s[k + 1];
    }
  }

  lemma {:induction false} WithoutKeepsUnique(s: seq<string>, x: string)
    requires UniqueNames(s)
    ensures UniqueNames(Without(s, x))
  {
    if s != [] {
      HeadNotInTail(s);
      WithoutKeepsUnique(s[1..], x);
      var t := Without(s[1..], x);
      if s[0] != x {
        var r := [s[0]] + t;
        forall i, j | 0 <= i < j < |r|
          ensures r[i] != r[j]
        {
          assert r[j] == t[j - 1] && t[j - 1] in t;
          if i > 0 {
            assert r[i] == t[i - 1];
          }
        }
      }
    }
  }

  /** Removing the first of distinct names leaves the rest as they were. */
  lemma WithoutHead(s: seq<string>)
    requires s != [] && UniqueNames(s)
    ensures Without(s, s[0]) == s[1..]
  {
    HeadNotInTail(s);
  }

  /** The position of the first name in `s` that cannot be removed, or |s|. */
  function FirstBlocked(s: seq<string>, blocked: set<string>): (k: nat)
    ensures k <= |s|
    ensures forall j :: 0 <= j < k ==> s[j] !in blocked
    ensures k < |s| ==> s[k] in blocked
  {
    if s == [] then 0 else if s[0] in blocked then 0 else 1 + FirstBlocked(s[1..], blocked)
  }

  /**
   * The PDF directory: its entries in listing order, whether it can be listed at all, and the
   * entries whose removal raises OSError (directories, files in use).
   */
  class TempDir {
    var entries: seq<string>
    var listable: bool
    var undeletable: set<string>

    predicate Valid()
      reads this
    {
      UniqueNames(entries)
    }

    constructor(entries: seq<string>, listable: bool, undeletable: set<string>)
      requires UniqueNames(entries)
      ensures Valid()
      ensures this.entries == entries && this.listable == listable && this.undeletable == undeletable
    {
      this.entries := entries;
      this.listable := listable;
      this.undeletable := undeletable;
    }

    /** What is left after the sweep: the entries from the first one that cannot be removed on. */
    function Swept(): (s: seq<string>)
      reads this
    {
      if listable then entries[FirstBlocked(entries, undeletable)..] else entries
    }

    /** `os.remove`: false (OSError) for a missing or undeletable entry. */
    method Remove(name: string) returns (ok: bool)
      requires Valid()
      modifies this
      ensures Valid()
      ensures ok <==> name in old(entries) && name !in undeletable
      ensures entries == if ok then Without(old(entries), name) else old(entries)
      ensures listable == old(listable) && undeletable == old(undeletable)
    {
      ok := name in entries && name !in undeletable;
      if ok {
        WithoutKeepsUnique(entries, name);
        entries := Without(entries, name);
      }
    }

    /**
     * `clean_temp`: remove every listed entry in order; the first OSError (from the listing or
     * from a removal) ends the sweep and is swallowed.
     */
    method CleanTemp()
      requires Valid()
      modifies this
      ensures Valid()
      ensures entries == old(Swept())
      ensures listable == old(listable) && undeletable == old(undeletable)
    {
      if !listable {
        return;
      }
      var listing := entries;
      var i := 0;
      while i < |listing|
        invariant 0 <= i <= |listing|
        invariant entries == listing[i..] && Valid()
        invariant forall j :: 0 <= j < i ==> listing[j] !in undeletable
        invariant listable == old(listable) && undeletable == old(undeletable)
      {
        WithoutHead(listing[i..]);
        var ok := Remove(listing[i]);
        if !ok {
          break;
        }
        assert listing[i..][1..] == listing[i + 1..];
        i := i + 1;
      }
      assert i == FirstBlocked(listing, undeletable);
    }
  }

  /** With no entry that resists removal, a listable directory is empty after the sweep. */
  lemma SweepEmpties(d: TempDir)
    requires d.listable && forall x :: x in d.entries ==> x !in d.undeletable
    ensures d.Swept() == []
  {
  }

  // ---- The handlers ----

  /** `GetManagerHTML`: the name is looked up (its exception propagates) but not used; no sweep. */
  method GetManagerHtml(env: Env, settings: Settings, fs: FileSystem, managerId: int, now: Instant)
    returns (r: Result<string, Error>)
    ensures FetchManager(env.db, managerId).Err? ==> r == Err(FetchManager(env.db, managerId).error)
    ensures FetchManager(env.db, managerId).Ok? ==>
      var p := ReportPackage(env, settings, fs, managerId, now);
      (r.Ok? <==> p.Ok?) && (r.Ok? ==> r.value == p.value.html) && (r.Err? ==> r.error == p.error)
  {
    var name := FetchManager(env.db, managerId);
    if name.Err? {
      return Err(name.error);
    }
    var packaged := BuildManagerReportPackage(env, settings, fs, managerId, now);
    if packaged.Err? {
      return Err(packaged.error);
    }
    r := Ok(packaged.value.html);
  }

  /**
   * `GetManagerPDF`: name with fallback, the package, then the sweep; an exception before the
   * sweep leaves the directory alone.
   */
  method GetManagerPdf(tmp: TempDir, env: Env, settings: Settings, fs: FileSystem, managerId: int, now: Instant)
    returns (r: Result<seq<Byte>, Error>)
    requires tmp.Valid()
    modifies tmp
    ensures tmp.Valid()
    ensures FetchManager(env.db, managerId).Err? ==> r == Err(FetchManager(env.db, managerId).error)
    ensures FetchManager(env.db, managerId).Ok? ==>
      var p := ReportPackage(env, settings, fs, managerId, now);
      (r.Ok? <==> p.Ok?) && (r.Ok? ==> r.value == p.value.pdf) && (r.Err? ==> r.error == p.error)
    ensures r.Ok? ==> tmp.entries == old(tmp.Swept())
    ensures r.Err? ==> tmp.entries == old(tmp.entries)
  {
    var name := FetchManager(env.db, managerId);
    if name.Err? {
      return Err(name.error);
    }
    var managerName := NameOrFallback(name.value, managerId);
    var packaged := BuildManagerReportPackage(env, settings, fs, managerId, now);
    if packaged.Err? {
      return Err(packaged.error);
    }
    tmp.CleanTemp();
    r := Ok(packaged.value.pdf);
  }

  /** The reply of `GetAllReportsOfManager`: one report, named as looked up (no fallback). */
  function ReportsOfManager(env: Env, settings: Settings, fs: FileSystem, managerId: int, now: Instant)
    : (r: Result<seq<ManagerReport>, Error>)
    ensures FetchManager(env.db, managerId).Err? ==> r == Err(FetchManager(env.db, managerId).error)
    ensures FetchManager(env.db, managerId).Ok? ==>
      var m := ReportMessage(env, settings, fs, managerId, FetchManager(env.db, managerId).value, now);
      && (r.Ok? <==> m.Ok?)
      && (r.Err? ==> r.error == m.error)
      && (r.Ok? ==> r.value == [m.value] && m.value.managerName == FetchManager(env.db, managerId).value.GetOr(""))
  {
    match FetchManager(env.db, managerId)
    case Err(e) => Err(e)
    case Ok(name) =>
      match ReportMessage(env, settings, fs, managerId, name, now)
      case Err(e) => Err(e)
      case Ok(m) => Ok([m])
  }

  /** `GetAllReportsOfManager`: exactly one report, named as looked up (no fallback), then the sweep. */
  method GetAllReportsOfManager(tmp: TempDir, env: Env, settings: Settings, fs: FileSystem, managerId: int, now: Instant)
    returns (r: Result<seq<ManagerReport>, Error>)
    requires tmp.Valid()
    modifies tmp
    ensures tmp.Valid()
    ensures r == ReportsOfManager(env, settings, fs, managerId, now)
    ensures r.Ok? ==> tmp.entries == old(tmp.Swept())
    ensures r.Err? ==> tmp.entries == old(tmp.entries)
  {
    var name := FetchManager(env.db, managerId);
    if name.Err? {
      return Err(name.error);
    }
    var mr := GenerateManagerReportMessage(env, settings, fs, managerId, name.value, now);
    if mr.Err? {
      return Err(mr.error);
    }
    var reports := [mr.value];
    tmp.CleanTemp();
    r := Ok(reports);
  }

  /** One id of the batch: its report, named by its looked-up name or `Manager <id>`. */
  function BatchMessage(env: Env, settings: Settings, fs: FileSystem, managerId: int, now: Instant)
    : (r: Result<ManagerReport, Error>)
    ensures FetchManager(env.db, managerId).Err? ==> r == Err(FetchManager(env.db, managerId).error)
    ensures FetchManager(env.db, managerId).Ok? ==> (r.Ok? <==> ReportPackage(env, settings, fs, managerId, now).Ok?)
    ensures r.Ok? ==> && r.value.managerId == managerId && r.value.managerName != ""
                      && r.value.managerName == NameOrFallback(FetchManager(env.db, managerId).value, managerId)
    ensures FetchManager(env.db, managerId).Ok? && r.Err? ==> r.error == ReportPackage(env, settings, fs, managerId, now).error
    ensures r.Ok? ==> Package(r.value.html, r.value.pdf, r.value.charts) == ReportPackage(env, settings, fs, managerId, now).value
  {
    match FetchManager(env.db, managerId)
    case Err(e) => Err(e)
    case Ok(name) => ReportMessage(env, settings, fs, managerId, Some(NameOrFallback(name, managerId)), now)
  }

  /** After a successful lookup, a batch report is the report message named by the looked-up name or its fallback. */
  lemma BatchMessageIsMessage(env: Env, settings: Settings, fs: FileSystem, managerId: int, now: Instant)
    requires FetchManager(env.db, managerId).Ok?
    ensures BatchMessage(env, settings, fs, managerId, now)
         == ReportMessage(env, settings, fs, managerId, Some(NameOrFallback(FetchManager(env.db, managerId).value, managerId)), now)
  {
  }

  /** How one id of a batch turns into a report, given the clock reading taken for it. */
  type Messenger = (int, Instant) -> Result<ManagerReport, Error>

  /** The batch messenger of the service: `BatchMessage` over fixed collaborators. */
  function Batching(env: Env, settings: Settings, fs: FileSystem): Messenger {
    (managerId: int, now: Instant) => BatchMessage(env, settings, fs, managerId, now)
  }

  /** The batch over `ids`: their reports in order, or the exception of the first id that raises. */
  function Batch(message: Messenger, ids: seq<int>, clock: nat -> Instant): (r: Result<seq<ManagerReport>, Error>)
    ensures r.Ok? ==> |r.value| == |ids|
    ensures r.Err? ==> exists i :: 0 <= i < |ids| && message(ids[i], clock(i)) == Err(r.error)
  {
    if ids == [] then Ok([])
    else
      match Batch(message, ids[..|ids| - 1], clock)
      case Err(e) => Err(e)
      case Ok(reports) =>
        match message(ids[|ids| - 1], clock(|ids| - 1))
        case Err(e) => Err(e)
        case Ok(m) => Ok(reports + [m])
  }

  /** Once a prefix of the ids raises, the batch ends with that exception. */
  lemma {:induction false} BatchPrefixErr(message: Messenger, ids: seq<int>, clock: nat -> Instant, k: nat)
    requires k <= |ids| && Batch(message, ids[..k], clock).Err?
    ensures Batch(message, ids, clock) == Batch(message, ids[..k], clock)
    decreases |ids|
  {
    if k < |ids| {
      var init := ids[..|ids| - 1];
      assert init[..k] == ids[..k];
      BatchPrefixErr(message, init, clock, k);
    } else {
      assert ids[..k] == ids;
    }
  }

  /** The batch succeeds exactly when every id's report does, and then holds those reports in id order. */
  lemma {:induction false} BatchEach(message: Messenger, ids: seq<int>, clock: nat -> Instant)
    ensures var r := Batch(message, ids, clock);
      && (r.Ok? <==> forall i :: 0 <= i < |ids| ==> message(ids[i], clock(i)).Ok?)
      && (r.Ok? ==> |r.value| == |ids| && forall i :: 0 <= i < |ids| ==> Ok(r.value[i]) == message(ids[i], clock(i)))
    decreases |ids|
  {
    if ids != [] {
      var init, n := ids[..|ids| - 1], |ids| - 1;
      BatchEach(message, init, clock);
      assert forall i :: 0 <= i < n ==> init[i] == ids[i];
      if Batch(message, init, clock).Err? {
        var i :| 0 <= i < n && message(init[i], clock(i)).Err?;
        assert message(ids[i], clock(i)).Err?;
      }
    }
  }

  /**
   * The loop of `GetAllManagerReports`: one report per id, in order, each stamped by the clock
   * reading taken for it; the first exception ends the batch.
   */
  method BatchReports(message: Messenger, ids: seq<int>, clock: nat -> Instant)
    returns (r: Result<seq<ManagerReport>, Error>)
    ensures r == Batch(message, ids, clock)
  {
    var reports: seq<ManagerReport> := [];
    var i := 0;
    while i < |ids|
      invariant 0 <= i <= |ids|
      invariant Batch(message, ids[..i], clock) == Ok(reports)
    {
      assert ids[..i + 1][..i] == ids[..i];
      var mr := message(ids[i], clock(i));
      if mr.Err? {
        BatchPrefixErr(message, ids, clock, i + 1);
        return Err(mr.error);
      }
      reports := reports + [mr.value];
      i := i + 1;
    }
    assert ids[..i] == ids;
    r := Ok(reports);
  }

  /**
   * `GetAllManagerReports`: the batch over every project owner; the sweep runs once after the
   * batch, and also for an empty id list, but not after an exception.
   */
  method GetAllManagerReports(tmp: TempDir, env: Env, settings: Settings, fs: FileSystem, clock: nat -> Instant)
    returns (r: Result<seq<ManagerReport>, Error>)
    requires tmp.Valid()
    modifies tmp
    ensures tmp.Valid()
    ensures r == Batch(Batching(env, settings, fs), FetchAllManagerIds(env.db), clock)
    ensures r.Ok? ==> tmp.entries == old(tmp.Swept())
    ensures r.Err? ==> tmp.entries == old(tmp.entries)
  {
    var ids := FetchAllManagerIds(env.db);
    if ids == [] {
      tmp.CleanTemp();
      return Ok([]);
    }
    r := BatchReports(Batching(env, settings, fs), ids, clock);
    if r.Ok? {
      tmp.CleanTemp();
    }
  }
}
