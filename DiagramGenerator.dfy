/**
 * Chart preparation (reports/diagram_generator.py): the data each chart plots, the empty-input
 * rule, the fixed per-manager output file, and the three-entry chart map. The drawing itself
 * (matplotlib) is not modelled; a drawn chart records the directory it creates, the data it
 * plots and the URI it returns.
 */
module DiagramGenerator {
  import opened Wrappers
  import opened Text
  import opened Queries

  datatype ChartKind = MonthlyHours | DurationVariance | EmployeeHours {
    /** The key of the chart map and the title of the packaged chart. */
    function Key(): string {
      match this
      case MonthlyHours => "monthly_hours"
      case DurationVariance => "duration_variance"
      case EmployeeHours => "employee_hours"
    }

    function FileName(): (f: string)
      ensures '/' !in f
    {
      match this
      case MonthlyHours => "monthly_hours.png"
      case DurationVariance => "duration_variance.png"
      case EmployeeHours => "employee_hours.png"
    }
  }

  /** `BASE_PATH / str(manager_id)`; `root` is the absolute diagrams directory. */
  function OutDir(root: string, managerId: int): string {
    root + "/" + IntToString(managerId)
  }

  /** `out_dir / "<chart>.png"`. */
  function ChartFile(root: string, managerId: int, kind: ChartKind): string {
    OutDir(root, managerId) + "/" + kind.FileName()
  }

  /**
   * The manager's directory sits directly under the root and is named by the id; the chart's
   * file sits directly inside that directory and is named by the chart's fixed file name.
   */
  lemma ChartFileLayout(root: string, managerId: int, kind: ChartKind)
    ensures var d := OutDir(root, managerId);
      && d[..|root| + 1] == root + "/" && LastSegment(d) == IntToString(managerId)
    ensures var d, f := OutDir(root, managerId), ChartFile(root, managerId, kind);
      && f[..|d| + 1] == d + "/" && LastSegment(f) == kind.FileName()
  {
    NumeralHasNo(managerId, '/');
    LastSegmentAfterSlash(root, IntToString(managerId));
    LastSegmentAfterSlash(OutDir(root, managerId), kind.FileName());
  }

  /**
   * `Path.as_uri()` of an absolute POSIX path: "file://" and the path percent-encoded, every
   * character but ASCII letters, digits, `_.-~` and '/' written as the `%XX` escapes of its
   * UTF-8 bytes.
   */
  function FileUri(path: string): string {
    "file://" + Quote(path)
  }

  /** The URI is "file://" and the path as it is exactly when the path needs no escapes. */
  lemma FileUriPlain(path: string)
    ensures FileUri(path)[..7] == "file://"
    ensures FileUri(path) == "file://" + path <==> AllUriSafe(path)
  {
    QuoteIdentityIff(path);
    if FileUri(path) == "file://" + path {
      CancelPrefix("file://", Quote(path), path);
    }
  }

  /** The fixed file names need no escapes. */
  lemma FileNameUriSafe(kind: ChartKind)
    ensures AllUriSafe(kind.FileName())
  {
  }

  /** What follows the root in a chart's path, "/<id>/<file>", needs no escapes. */
  lemma ChartTailSafe(managerId: int, kind: ChartKind)
    ensures AllUriSafe("/" + IntToString(managerId) + "/" + kind.FileName())
  {
    var id := IntToString(managerId);
    NumeralUriSafe(managerId);
    FileNameUriSafe(kind);
    assert AllUriSafe("/");
    AllUriSafeConcat("/", id);
    AllUriSafeConcat("/" + id, "/");
    AllUriSafeConcat("/" + id + "/", kind.FileName());
  }

  /**
   * Only the diagrams root can need escapes: the id's digits and sign and the fixed file name
   * are all safe, so they stay as they are.
   */
  lemma ChartFileQuoted(root: string, managerId: int, kind: ChartKind)
    ensures Quote(ChartFile(root, managerId, kind)) == Quote(root) + ("/" + IntToString(managerId) + "/" + kind.FileName())
  {
    var tail := "/" + IntToString(managerId) + "/" + kind.FileName();
    ChartTailSafe(managerId, kind);
    assert ChartFile(root, managerId, kind) == root + tail;
    QuoteUnderSafe(root, tail);
  }

  lemma FileNameInjective(ka: ChartKind, kb: ChartKind)
    ensures ka.FileName() == kb.FileName() ==> ka == kb
  {
    assert |ka.FileName()| == |kb.FileName()| ==> ka == kb;
  }

  lemma TwoLevels(root: string, dir: string, file: string)
    ensures root + "/" + dir + "/" + file == (root + "/") + (dir + "/" + file)
  {
  }

  lemma ChartFileTail(root: string, a: int, ka: ChartKind, b: int, kb: ChartKind)
    requires ChartFile(root, a, ka) == ChartFile(root, b, kb)
    ensures IntToString(a) + "/" + ka.FileName() == IntToString(b) + "/" + kb.FileName()
  {
    var sa, sb := IntToString(a), IntToString(b);
    var fa, fb := ka.FileName(), kb.FileName();
    TwoLevels(root, sa, fa);
    TwoLevels(root, sb, fb);
    CancelPrefix(root + "/", sa + "/" + fa, sb + "/" + fb);
  }

  /**
   * Each (manager, chart kind) has its own file: a rerun for the same manager targets the same
   * file, and two different managers or kinds never share one.
   */
  lemma ChartFileInjective(root: string, a: int, ka: ChartKind, b: int, kb: ChartKind)
    ensures ChartFile(root, a, ka) == ChartFile(root, b, kb) <==> a == b && ka == kb
  {
    if ChartFile(root, a, ka) == ChartFile(root, b, kb) {
      ChartFileTail(root, a, ka, b, kb);
      NumeralHasNo(a, '/');
      NumeralHasNo(b, '/');
      SplitAtSeparator(IntToString(a), ka.FileName(), IntToString(b), kb.FileName(), '/');
      IntToStringInjective(a, b);
      FileNameInjective(ka, kb);
    }
  }

  /** A chart function's result: no chart for an empty frame, else what was drawn and where. */
  datatype Drawing<D> = NoChart | Drawn(dir: string, data: D, uri: string) {
    function Uri(): Option<string> {
      if Drawn? then Some(uri) else None
    }
  }

  // ---- Monthly hours: group by month, sum, ascending by month ----

  datatype Point = Point(month: int, hours: int)

  /** Each month is earlier than the next one's. */
  predicate Ascending(s: seq<Point>) {
    |s| <= 1 || (s[0].month < s[1].month && Ascending(s[1..]))
  }

  lemma {:induction false} AscendingPairwise(s: seq<Point>)
    requires Ascending(s)
    ensures forall i, j :: 0 <= i < j < |s| ==> s[i].month < s[j].month
  {
    if |s| > 1 {
      AscendingPairwise(s[1..]);
      assert forall j :: 1 <= j < |s| ==> s[j] == s[1..][j - 1];
    }
  }

  function MonthsOf(s: seq<Point>): set<int> {
    if s == [] then {} else {s[0].month} + MonthsOf(s[1..])
  }

  /** The value plotted at month `m` (points at other months contribute 0). */
  function HoursAt(s: seq<Point>, m: int): int {
    if s == [] then 0 else (if s[0].month == m then s[0].hours else 0) + HoursAt(s[1..], m)
  }

  function SeriesTotal(s: seq<Point>): int {
    if s == [] then 0 else s[0].hours + SeriesTotal(s[1..])
  }

  /** Sum of `totalMonthlyHours` over the rows of month `m`. */
  function MonthTotal(rows: seq<MonthlyRow>, m: int): int {
    if rows == [] then 0
    else MonthTotal(rows[..|rows| - 1], m) + (if rows[|rows| - 1].month == m then rows[|rows| - 1].totalMonthlyHours else 0)
  }

  function MonthlyRowsTotal(rows: seq<MonthlyRow>): int {
    if rows == [] then 0 else MonthlyRowsTotal(rows[..|rows| - 1]) + rows[|rows| - 1].totalMonthlyHours
  }

  /** Adds `h` hours at month `m`, creating the point in its place when the month is new. */
  function AddHours(s: seq<Point>, m: int, h: int): (r: seq<Point>)
    requires Ascending(s)
    ensures Ascending(r)
    ensures r != [] && r[0].month == (if s == [] || m < s[0].month then m else s[0].month)
    ensures MonthsOf(r) == MonthsOf(s) + {m}
    ensures forall k :: HoursAt(r, k) == HoursAt(s, k) + (if k == m then h else 0)
    ensures SeriesTotal(r) == SeriesTotal(s) + h
  {
    if s == [] then
      var r := [Point(m, h)];
      assert r[1..] == [];
      r
    else if m < s[0].month then
      var r := [Point(m, h)] + s;
      assert r[1..] == s;
      r
    else if m == s[0].month then
      var r := [Point(m, s[0].hours + h)] + s[1..];
      assert r[1..] == s[1..];
      r
    else
      var tail := AddHours(s[1..], m, h);
      var r := [s[0]] + tail;
      assert r[1..] == tail;
      r
  }

  /** `df.groupby("month")["totalMonthlyHours"].sum().reset_index().sort_values("month")`. */
  function MonthlySeries(rows: seq<MonthlyRow>): (r: seq<Point>)
    ensures Ascending(r)
    ensures forall m :: m in MonthsOf(r) <==> exists row :: row in rows && row.month == m
    ensures forall k :: HoursAt(r, k) == MonthTotal(rows, k)
    ensures SeriesTotal(r) == MonthlyRowsTotal(rows)
  {
    if rows == [] then []
    else
      var init := rows[..|rows| - 1];
      var last := rows[|rows| - 1];
      assert forall row :: row in rows <==> row in init || row == last;
      AddHours(MonthlySeries(init), last.month, last.totalMonthlyHours)
  }

  lemma {:induction false} HoursAtPoint(s: seq<Point>, i: int)
    requires Ascending(s) && 0 <= i < |s|
    ensures HoursAt(s, s[i].month) == s[i].hours
  {
    if i == 0 {
      AscendingPairwise(s);
      HoursAtAbsent(s[1..], s[0].month);
    } else {
      HoursAtPoint(s[1..], i - 1);
      AscendingPairwise(s);
    }
  }

  lemma {:induction false} HoursAtAbsent(s: seq<Point>, m: int)
    requires forall i :: 0 <= i < |s| ==> s[i].month != m
    ensures HoursAt(s, m) == 0
  {
    if s != [] {
      HoursAtAbsent(s[1..], m);
    }
  }

  /**
   * One point per distinct month, ascending; each point's value is the sum over that month's
   * rows, and the series adds up to the input total.
   */
  lemma MonthlySeriesPoints(rows: seq<MonthlyRow>)
    ensures var r := MonthlySeries(rows);
      && (forall i, j :: 0 <= i < j < |r| ==> r[i].month < r[j].month)
      && (forall m :: m in MonthsOf(r) <==> exists row :: row in rows && row.month == m)
      && (forall i :: 0 <= i < |r| ==> r[i].hours == MonthTotal(rows, r[i].month))
      && SeriesTotal(r) == MonthlyRowsTotal(rows)
  {
    var r := MonthlySeries(rows);
    AscendingPairwise(r);
    forall i | 0 <= i < |r| ensures r[i].hours == MonthTotal(rows, r[i].month) {
      HoursAtPoint(r, i);
    }
  }

  function PlotMonthlyHours(rows: seq<MonthlyRow>, managerId: int, root: string): (d: Drawing<seq<Point>>)
    ensures d.NoChart? <==> rows == []
    ensures d.Drawn? ==> d.dir == OutDir(root, managerId) && d.data == MonthlySeries(rows)
                         && d.uri == FileUri(ChartFile(root, managerId, MonthlyHours))
  {
    if rows == [] then NoChart
    else Drawn(OutDir(root, managerId), MonthlySeries(rows), FileUri(ChartFile(root, managerId, MonthlyHours)))
  }

  // ---- Duration variance: rows ascending by durationVarianceDays ----

  /** Each row's variance is at most the next one's. */
  predicate SortedByVariance(s: seq<VarianceRow>) {
    |s| <= 1 || (s[0].durationVarianceDays <= s[1].durationVarianceDays && SortedByVariance(s[1..]))
  }

  lemma {:induction false} SortedByVariancePairwise(s: seq<VarianceRow>)
    requires SortedByVariance(s)
    ensures forall i, j :: 0 <= i < j < |s| ==> s[i].durationVarianceDays <= s[j].durationVarianceDays
  {
    if |s| > 1 {
      SortedByVariancePairwise(s[1..]);
      assert forall j :: 1 <= j < |s| ==> s[j] == s[1..][j - 1];
    }
  }

  function InsertByVariance(x: VarianceRow, s: seq<VarianceRow>): (r: seq<VarianceRow>)
    requires SortedByVariance(s)
    ensures SortedByVariance(r)
    ensures r != [] && r[0] == (if s == [] || x.durationVarianceDays <= s[0].durationVarianceDays then x else s[0])
    ensures multiset(r) == multiset(s) + multiset{x}
  {
    if s == [] then [x]
    else if x.durationVarianceDays <= s[0].durationVarianceDays then
      var r := [x] + s;
      assert r[1..] == s;
      r
    else
      var tail := InsertByVariance(x, s[1..]);
      var r := [s[0]] + tail;
      assert r[1..] == tail;
      assert s == [s[0]] + s[1..];
      r
  }

  /**
   * `df.sort_values("durationVarianceDays", ascending=True)`: a permutation of the rows,
   * ascending by variance. The order among equal variances is not promised (pandas' default
   * sort is not stable), and this contract promises none.
   */
  function SortByVariance(rows: seq<VarianceRow>): (r: seq<VarianceRow>)
    ensures SortedByVariance(r)
    ensures multiset(r) == multiset(rows)
  {
    if rows == [] then []
    else
      assert rows == [rows[0]] + rows[1..];
      InsertByVariance(rows[0], SortByVariance(rows[1..]))
  }

  function PlotDurationVariance(rows: seq<VarianceRow>, managerId: int, root: string): (d: Drawing<seq<VarianceRow>>)
    ensures d.NoChart? <==> rows == []
    ensures d.Drawn? ==> d.dir == OutDir(root, managerId)
                         && SortedByVariance(d.data) && multiset(d.data) == multiset(rows)
                         && d.uri == FileUri(ChartFile(root, managerId, DurationVariance))
  {
    if rows == [] then NoChart
    else Drawn(OutDir(root, managerId), SortByVariance(rows), FileUri(ChartFile(root, managerId, DurationVariance)))
  }

  // ---- Employee hours: project x user pivot, summed, zero-filled ----

  predicate StrictlySorted(s: seq<string>) {
    forall i, j :: 0 <= i < j < |s| ==> StrLt(s[i], s[j])
  }

  function InsertLabel(s: seq<string>, x: string): (r: seq<string>)
    requires StrictlySorted(s)
    ensures StrictlySorted(r)
    ensures forall y :: y in r <==> y in s || y == x
  {
    if s == [] then [x]
    else if x == s[0] then s
    else if StrLt(x, s[0]) then
      var r := [x] + s;
      assert StrictlySorted(r) by {
        forall j | 0 < j < |s| ensures StrLt(x, s[j]) {
          StrLtTransitive(x, s[0], s[j]);
        }
        assert forall i :: 0 < i < |r| ==> r[i] == s[i - 1];
      }
      r
    else
      StrLtTotal(x, s[0]);
      var tail := InsertLabel(s[1..], x);
      var r := [s[0]] + tail;
      assert forall y :: y in s <==> y == s[0] || y in s[1..];
      assert forall y :: y in tail ==> StrLt(s[0], y);
      assert forall i :: 0 < i < |r| ==> r[i] == tail[i - 1];
      r
  }

  /** The distinct labels of `xs`, ascending: the index or the columns of a pivot table. */
  function Labels(xs: seq<string>): (r: seq<string>)
    ensures StrictlySorted(r)
    ensures forall y :: y in r <==> y in xs
  {
    if xs == [] then []
    else
      assert forall y :: y in xs <==> y in xs[..|xs| - 1] || y == xs[|xs| - 1];
      InsertLabel(Labels(xs[..|xs| - 1]), xs[|xs| - 1])
  }

  function ProjectNames(rows: seq<HoursRow>): (r: seq<string>)
    ensures forall p :: p in r <==> exists row :: row in rows && row.projectName == p
  {
    if rows == [] then []
    else
      assert forall row :: row in rows <==> row == rows[0] || row in rows[1..];
      [rows[0].projectName] + ProjectNames(rows[1..])
  }

  function UserNames(rows: seq<HoursRow>): (r: seq<string>)
    ensures forall u :: u in r <==> exists row :: row in rows && row.userName == u
  {
    if rows == [] then []
    else
      assert forall row :: row in rows <==> row == rows[0] || row in rows[1..];
      [rows[0].userName] + UserNames(rows[1..])
  }

  /** Sum of `totalHours` over the rows of project `p` and user `u`. */
  function CellHours(rows: seq<HoursRow>, p: string, u: string): int {
    if rows == [] then 0
    else (if rows[0].projectName == p && rows[0].userName == u then rows[0].totalHours else 0) + CellHours(rows[1..], p, u)
  }

  /** `fill_value=0`: a (project, user) pair with no row sums to 0. */
  lemma {:induction false} CellHoursZeroFill(rows: seq<HoursRow>, p: string, u: string)
    requires forall row :: row in rows ==> row.projectName != p || row.userName != u
    ensures CellHours(rows, p, u) == 0
  {
    if rows != [] {
      CellHoursZeroFill(rows[1..], p, u);
    }
  }

  datatype PivotTable = PivotTable(projects: seq<string>, users: seq<string>, cells: seq<seq<int>>)

  /**
   * `df.pivot_table(index="projectName", columns="userName", values="totalHours",
   * aggfunc="sum", fill_value=0)`: one row per distinct project and one column per distinct
   * user, both ascending, each cell the sum over the matching rows.
   */
  function Pivot(rows: seq<HoursRow>): (t: PivotTable)
    ensures StrictlySorted(t.projects) && forall p :: p in t.projects <==> exists row :: row in rows && row.projectName == p
    ensures StrictlySorted(t.users) && forall u :: u in t.users <==> exists row :: row in rows && row.userName == u
    ensures |t.cells| == |t.projects| && forall i :: 0 <= i < |t.cells| ==> |t.cells[i]| == |t.users|
    ensures forall i, j :: 0 <= i < |t.projects| && 0 <= j < |t.users| ==> t.cells[i][j] == CellHours(rows, t.projects[i], t.users[j])
  {
    var ps := Labels(ProjectNames(rows));
    var us := Labels(UserNames(rows));
    PivotTable(ps, us, seq(|ps|, i requires 0 <= i < |ps| => seq(|us|, j requires 0 <= j < |us| => CellHours(rows, ps[i], us[j]))))
  }

  function PlotEmployeeHours(rows: seq<HoursRow>, managerId: int, root: string): (d: Drawing<PivotTable>)
    ensures d.NoChart? <==> rows == []
    ensures d.Drawn? ==> d.dir == OutDir(root, managerId) && d.data == Pivot(rows)
                         && d.uri == FileUri(ChartFile(root, managerId, EmployeeHours))
  {
    if rows == [] then NoChart
    else Drawn(OutDir(root, managerId), Pivot(rows), FileUri(ChartFile(root, managerId, EmployeeHours)))
  }

  // ---- The chart map ----

  /** One entry of the (insertion-ordered) chart dictionary: key and file URI, or None. */
  datatype ChartEntry = ChartEntry(key: string, path: Option<string>)

  type ChartMap = seq<ChartEntry>

  datatype ChartSet = ChartSet(
    monthly: Drawing<seq<Point>>,
    variance: Drawing<seq<VarianceRow>>,
    employee: Drawing<PivotTable>
  ) {
    /** The dictionary `generate_all_charts` returns, in its literal's order. */
    function Paths(): (m: ChartMap)
      ensures |m| == 3
      ensures m[0] == ChartEntry(MonthlyHours.Key(), monthly.Uri())
      ensures m[1] == ChartEntry(DurationVariance.Key(), variance.Uri())
      ensures m[2] == ChartEntry(EmployeeHours.Key(), employee.Uri())
    {
      [ChartEntry(MonthlyHours.Key(), monthly.Uri()),
       ChartEntry(DurationVariance.Key(), variance.Uri()),
       ChartEntry(EmployeeHours.Key(), employee.Uri())]
    }
  }

  /**
   * `generate_all_charts(project_hours_df, variance_df, monthly_df, manager_id)`: the monthly
   * chart from the monthly frame, the variance chart from the variance frame, the employee
   * chart from the hours frame. The average-duration view takes no part.
   */
  function GenerateAllCharts(hours: seq<HoursRow>, variances: seq<VarianceRow>, months: seq<MonthlyRow>,
                             managerId: int, root: string): (c: ChartSet)
    ensures c.monthly == PlotMonthlyHours(months, managerId, root)
    ensures c.variance == PlotDurationVariance(variances, managerId, root)
    ensures c.employee == PlotEmployeeHours(hours, managerId, root)
  {
    ChartSet(PlotMonthlyHours(months, managerId, root),
             PlotDurationVariance(variances, managerId, root),
             PlotEmployeeHours(hours, managerId, root))
  }

  /** Every key is present whatever the data; a key's path is None exactly when its frame is empty. */
  lemma ChartMapShape(hours: seq<HoursRow>, variances: seq<VarianceRow>, months: seq<MonthlyRow>, managerId: int, root: string)
    ensures var m := GenerateAllCharts(hours, variances, months, managerId, root).Paths();
      && |m| == 3
      && m[0].key == "monthly_hours" && m[1].key == "duration_variance" && m[2].key == "employee_hours"
      && (m[0].path.None? <==> months == [])
      && (m[1].path.None? <==> variances == [])
      && (m[2].path.None? <==> hours == [])
      && (months != [] ==> m[0].path == Some(FileUri(ChartFile(root, managerId, MonthlyHours))))
      && (variances != [] ==> m[1].path == Some(FileUri(ChartFile(root, managerId, DurationVariance))))
      && (hours != [] ==> m[2].path == Some(FileUri(ChartFile(root, managerId, EmployeeHours))))
  {
  }
}
