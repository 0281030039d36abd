/**
 * Data access (data_analysis/data/queries.py): the SQL text each query issues, the bound
 * parameters it passes, and what each function returns for a given state of the database.
 * The SQL engine is not modelled: a view query answers with the stored rows of that view,
 * filtered by the bound manager id when one is bound.
 */
module Queries {
  import opened Wrappers
  import opened Failures

  /** A value in a result row; the views' columns are integers or text. */
  datatype Cell = IntCell(i: int) | TextCell(s: string)

  /** A row as `DataFrame.to_dict(orient="records")` gives it: column name to value. */
  type Record = map<string, Cell>

  /** The closed set of views the application reads. */
  datatype ViewName =
    | ProjectEmployeeTotalHours
    | AvgCompletedProjectDuration
    | ProjectDurationVariance
    | MonthlyProjectHours
  {
    function Name(): string {
      match this
      case ProjectEmployeeTotalHours => "project_employee_total_hours"
      case AvgCompletedProjectDuration => "avg_completed_project_duration"
      case ProjectDurationVariance => "project_duration_variance"
      case MonthlyProjectHours => "monthly_project_hours"
    }
  }

  /** A statement handed to the engine: its text and its bound parameters. */
  datatype Query = Query(sql: string, params: map<string, int>)

  /** `fetch_view`: the whole view, no parameters. */
  function FetchViewQuery(v: ViewName): (q: Query)
    ensures q.sql == "SELECT * FROM " + v.Name() && q.params == map[]
  {
    Query("SELECT * FROM " + v.Name(), map[])
  }

  /** The text of `fetch_view_by_manager`; it depends on the view alone. */
  function ByManagerSql(v: ViewName): string {
    "SELECT * FROM " + v.Name() + " WHERE \"" + v.Name() + "\".\"managerId\" = :mid"
  }

  /** `fetch_view_by_manager`: the manager id travels as the bound parameter `mid` only. */
  function FetchViewByManagerQuery(v: ViewName, managerId: int): (q: Query)
    ensures q.sql == ByManagerSql(v)
    ensures q.params.Keys == {"mid"} && q.params["mid"] == managerId
  {
    Query(ByManagerSql(v), map["mid" := managerId])
  }

  /** Two managers' queries for the same view have the same text; only the parameter differs. */
  lemma ManagerIdOnlyBound(v: ViewName, a: int, b: int)
    ensures FetchViewByManagerQuery(v, a).sql == FetchViewByManagerQuery(v, b).sql
    ensures a != b ==> FetchViewByManagerQuery(v, a) != FetchViewByManagerQuery(v, b)
  {
    assert FetchViewByManagerQuery(v, a).params["mid"] == a;
  }

  const ManagerNameSql: string := "SELECT name FROM \"workplanner\".\"User\" WHERE id = :mid"
  const ManagerIdsSql: string := "SELECT DISTINCT \"ownerId\" FROM \"workplanner\".\"Project\""

  // The rows of the four views, with the columns the core reads.
  datatype HoursRow = HoursRow(managerId: int, projectName: string, userName: string, totalHours: int)
  datatype AvgRow = AvgRow(managerId: int, columns: Record)
  datatype VarianceRow = VarianceRow(managerId: int, projectName: string, durationVarianceDays: int)
  datatype MonthlyRow = MonthlyRow(managerId: int, projectName: string, month: int, totalMonthlyHours: int)

  datatype User = User(id: int, name: string)
  datatype Project = Project(id: int, ownerId: int)

  /** What a query reads; a source in `unavailable` makes every query on it raise. */
  datatype Source = UserTable | ProjectTable | View(view: ViewName)

  datatype Database = Database(
    users: seq<User>,
    projects: seq<Project>,
    hours: seq<HoursRow>,
    durations: seq<AvgRow>,
    variances: seq<VarianceRow>,
    months: seq<MonthlyRow>,
    unavailable: set<Source>
  )

  /** The rows of `table` owned by `owner`, in table order (the engine's WHERE clause). */
  function Owned<R(!new)>(table: seq<R>, managerOf: R -> int, owner: int): (rows: seq<R>)
    ensures |rows| <= |table|
    ensures forall x :: x in rows <==> x in table && managerOf(x) == owner
    ensures forall x :: multiset(rows)[x] == if managerOf(x) == owner then multiset(table)[x] else 0
  {
    if table == [] then []
    else
      var init := Owned(table[..|table| - 1], managerOf, owner);
      var last := table[|table| - 1];
      assert table == table[..|table| - 1] + [last];
      assert multiset(table) == multiset(table[..|table| - 1]) + multiset{last};
      if managerOf(last) == owner then init + [last] else init
  }

  /** A query's answer together with the statement that produced it. */
  datatype Fetched<R> = Fetched(query: Query, rows: Result<seq<R>, Error>)

  /** The engine: the view's rows, restricted to the bound manager when `mid` is bound. */
  function Run<R(!new)>(db: Database, v: ViewName, table: seq<R>, managerOf: R -> int, q: Query): Fetched<R> {
    if View(v) in db.unavailable then Fetched(q, Err(DataUnavailable(v.Name())))
    else if "mid" in q.params then Fetched(q, Ok(Owned(table, managerOf, q.params["mid"])))
    else Fetched(q, Ok(table))
  }

  /** What an unfiltered view query returns: every row, or the database error. */
  predicate AllRows<R(==)>(db: Database, v: ViewName, table: seq<R>, f: Fetched<R>) {
    && f.query == FetchViewQuery(v)
    && (f.rows.Err? <==> View(v) in db.unavailable)
    && (f.rows.Err? ==> f.rows.error == DataUnavailable(v.Name()))
    && (f.rows.Ok? ==> f.rows.value == table)
  }

  /** What a by-manager view query returns: exactly that manager's rows, each as often as in the view, or the database error. */
  ghost predicate ManagerRows<R(!new)>(db: Database, v: ViewName, table: seq<R>, managerOf: R -> int, managerId: int, f: Fetched<R>) {
    && f.query == FetchViewByManagerQuery(v, managerId)
    && (f.rows.Err? <==> View(v) in db.unavailable)
    && (f.rows.Err? ==> f.rows.error == DataUnavailable(v.Name()))
    && (f.rows.Ok? ==> forall x :: x in f.rows.value <==> x in table && managerOf(x) == managerId)
    && (f.rows.Ok? ==> forall x :: multiset(f.rows.value)[x] == if managerOf(x) == managerId then multiset(table)[x] else 0)
  }

  function GetProjectEmployeeTotalHours(db: Database): (f: Fetched<HoursRow>)
    ensures AllRows(db, ProjectEmployeeTotalHours, db.hours, f)
  {
    Run(db, ProjectEmployeeTotalHours, db.hours, (r: HoursRow) => r.managerId, FetchViewQuery(ProjectEmployeeTotalHours))
  }

  function GetAvgCompletedProjectDuration(db: Database): (f: Fetched<AvgRow>)
    ensures AllRows(db, AvgCompletedProjectDuration, db.durations, f)
  {
    Run(db, AvgCompletedProjectDuration, db.durations, (r: AvgRow) => r.managerId, FetchViewQuery(AvgCompletedProjectDuration))
  }

  function GetProjectDurationVariance(db: Database): (f: Fetched<VarianceRow>)
    ensures AllRows(db, ProjectDurationVariance, db.variances, f)
  {
    Run(db, ProjectDurationVariance, db.variances, (r: VarianceRow) => r.managerId, FetchViewQuery(ProjectDurationVariance))
  }

  function GetMonthlyProjectHours(db: Database): (f: Fetched<MonthlyRow>)
    ensures AllRows(db, MonthlyProjectHours, db.months, f)
  {
    Run(db, MonthlyProjectHours, db.months, (r: MonthlyRow) => r.managerId, FetchViewQuery(MonthlyProjectHours))
  }

  function GetProjectEmployeeTotalHoursByManager(db: Database, managerId: int): (f: Fetched<HoursRow>)
    ensures ManagerRows(db, ProjectEmployeeTotalHours, db.hours, (r: HoursRow) => r.managerId, managerId, f)
  {
    Run(db, ProjectEmployeeTotalHours, db.hours, (r: HoursRow) => r.managerId,
        FetchViewByManagerQuery(ProjectEmployeeTotalHours, managerId))
  }

  function GetAvgCompletedProjectDurationHoursByManager(db: Database, managerId: int): (f: Fetched<AvgRow>)
    ensures ManagerRows(db, AvgCompletedProjectDuration, db.durations, (r: AvgRow) => r.managerId, managerId, f)
  {
    Run(db, AvgCompletedProjectDuration, db.durations, (r: AvgRow) => r.managerId,
        FetchViewByManagerQuery(AvgCompletedProjectDuration, managerId))
  }

  function GetProjectDurationVarianceHoursByManager(db: Database, managerId: int): (f: Fetched<VarianceRow>)
    ensures ManagerRows(db, ProjectDurationVariance, db.variances, (r: VarianceRow) => r.managerId, managerId, f)
  {
    Run(db, ProjectDurationVariance, db.variances, (r: VarianceRow) => r.managerId,
        FetchViewByManagerQuery(ProjectDurationVariance, managerId))
  }

  function GetMonthlyProjectHoursHoursByManager(db: Database, managerId: int): (f: Fetched<MonthlyRow>)
    ensures ManagerRows(db, MonthlyProjectHours, db.months, (r: MonthlyRow) => r.managerId, managerId, f)
  {
    Run(db, MonthlyProjectHours, db.months, (r: MonthlyRow) => r.managerId,
        FetchViewByManagerQuery(MonthlyProjectHours, managerId))
  }

  /** The first cell of the first row of `SELECT name ... WHERE id = :mid`, if there is a row. */
  function FirstName(users: seq<User>, managerId: int): (r: Option<string>)
    ensures r.None? <==> forall u :: u in users ==> u.id != managerId
    ensures r.Some? ==> exists i :: 0 <= i < |users| && users[i].id == managerId && users[i].name == r.value
                                    && forall j :: 0 <= j < i ==> users[j].id != managerId
  {
    if users == [] then None
    else if users[0].id == managerId then Some(users[0].name)
    else
      var r := FirstName(users[1..], managerId);
      assert forall u :: u in users ==> u == users[0] || u in users[1..];
      if r.Some? then
        var i :| 0 <= i < |users[1..]| && users[1..][i].id == managerId && users[1..][i].name == r.value
                  && forall j :: 0 <= j < i ==> users[1..][j].id != managerId;
        assert users[i + 1] == users[1..][i];
        assert forall j :: 1 <= j < i + 1 ==> users[j] == users[1..][j - 1];
        r
      else r
  }

  /** `fetch_manager`: the manager's name, None when no row matches; a database error propagates. */
  function FetchManager(db: Database, managerId: int): (r: Result<Option<string>, Error>)
    ensures r.Err? <==> UserTable in db.unavailable
    ensures r.Ok? ==> r.value == FirstName(db.users, managerId)
  {
    if UserTable in db.unavailable then Err(DataUnavailable(ManagerNameSql))
    else Ok(FirstName(db.users, managerId))
  }

  predicate NoDuplicates(s: seq<int>) {
    forall i, j :: 0 <= i < j < |s| ==> s[i] != s[j]
  }

  /** `SELECT DISTINCT`: each value once, in order of first occurrence. */
  function Distinct(s: seq<int>): (r: seq<int>)
    ensures NoDuplicates(r)
    ensures forall x :: x in r <==> x in s
    ensures |r| <= |s|
  {
    if s == [] then []
    else
      var init := Distinct(s[..|s| - 1]);
      var last := s[|s| - 1];
      assert s == s[..|s| - 1] + [last];
      if last in init then init else init + [last]
  }

  function Owners(projects: seq<Project>): (r: seq<int>)
    ensures |r| == |projects| && forall i :: 0 <= i < |r| ==> r[i] == projects[i].ownerId
  {
    if projects == [] then [] else [projects[0].ownerId] + Owners(projects[1..])
  }

  /**
   * `fetch_all_manager_ids`: never raises. Every project owner once; the empty list when the
   * table has no rows or when the database raises.
   */
  function FetchAllManagerIds(db: Database): (ids: seq<int>)
    ensures ProjectTable in db.unavailable ==> ids == []
    ensures ProjectTable !in db.unavailable ==>
      NoDuplicates(ids) && forall x :: x in ids <==> exists p :: p in db.projects && p.ownerId == x
    ensures ids == [] <==> ProjectTable in db.unavailable || db.projects == []
  {
    if ProjectTable in db.unavailable then []
    else
      var owners := Owners(db.projects);
      assert forall x :: x in owners <==> exists p :: p in db.projects && p.ownerId == x by {
        forall x ensures x in owners <==> exists p :: p in db.projects && p.ownerId == x {
          if x in owners {
            var i :| 0 <= i < |owners| && owners[i] == x;
            assert db.projects[i] in db.projects;
          }
        }
      }
      assert db.projects != [] ==> db.projects[0].ownerId in owners;
      Distinct(owners)
  }
}
