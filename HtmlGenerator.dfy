/**
 * HTML rendering (data_analysis/reports/html_generator.py): how the four frames and the chart
 * map are shaped into the template's arguments. Jinja is not modelled: a Renderer is any
 * function from a template name and the arguments to markup or a template error, so the same
 * arguments always give the same markup.
 */
module HtmlGenerator {
  import opened Wrappers
  import opened Failures
  import opened Queries
  import opened DiagramGenerator

  const TemplateName: string := "report.html"

  /** The keyword arguments of `template.render(...)`. */
  datatype RenderArgs = RenderArgs(
    managerName: Option<string>,
    projectHours: seq<Record>,
    avgDuration: Option<Record>,
    variance: seq<Record>,
    monthly: seq<Record>,
    charts: ChartMap
  )

  /** A template environment: template name and arguments to markup, or the template's error. */
  type Renderer = (string, RenderArgs) -> Result<string, string>

  function HoursRecord(r: HoursRow): Record {
    map["managerId" := IntCell(r.managerId), "projectName" := TextCell(r.projectName),
        "userName" := TextCell(r.userName), "totalHours" := IntCell(r.totalHours)]
  }

  function AvgRecord(r: AvgRow): Record {
    r.columns["managerId" := IntCell(r.managerId)]
  }

  function VarianceRecord(r: VarianceRow): Record {
    map["managerId" := IntCell(r.managerId), "projectName" := TextCell(r.projectName),
        "durationVarianceDays" := IntCell(r.durationVarianceDays)]
  }

  function MonthlyRecord(r: MonthlyRow): Record {
    map["managerId" := IntCell(r.managerId), "projectName" := TextCell(r.projectName),
        "month" := IntCell(r.month), "totalMonthlyHours" := IntCell(r.totalMonthlyHours)]
  }

  /** `df.to_dict(orient="records")`: one record per row, in row order. */
  function Records<R>(rows: seq<R>, record: R -> Record): (rs: seq<Record>)
    ensures |rs| == |rows|
    ensures forall i :: 0 <= i < |rows| ==> rs[i] == record(rows[i])
  {
    if rows == [] then [] else [record(rows[0])] + Records(rows[1..], record)
  }

  /**
   * The arguments `generate_html_report` hands to the template: the name and the chart map
   * unchanged (a missing name stays missing), three frames as full record lists, and the
   * average-duration frame as its first record only, or None when it has no rows.
   */
  function ShapeRenderArgs(managerName: Option<string>, hours: seq<HoursRow>, avg: seq<AvgRow>,
                           variances: seq<VarianceRow>, months: seq<MonthlyRow>, charts: ChartMap): (a: RenderArgs)
    ensures a.managerName == managerName && a.charts == charts
    ensures a.avgDuration.None? <==> avg == []
    ensures avg != [] ==> a.avgDuration == Some(AvgRecord(avg[0]))
    ensures |a.projectHours| == |hours| && forall i :: 0 <= i < |hours| ==> a.projectHours[i] == HoursRecord(hours[i])
    ensures |a.variance| == |variances| && forall i :: 0 <= i < |variances| ==> a.variance[i] == VarianceRecord(variances[i])
    ensures |a.monthly| == |months| && forall i :: 0 <= i < |months| ==> a.monthly[i] == MonthlyRecord(months[i])
  {
    RenderArgs(
      managerName,
      Records(hours, HoursRecord),
      if avg != [] then Some(Records(avg, AvgRecord)[0]) else None,
      Records(variances, VarianceRecord),
      Records(months, MonthlyRecord),
      charts)
  }

  /** `generate_html_report`: always the template `report.html`; a template error is raised. */
  function GenerateHtmlReport(render: Renderer, managerName: Option<string>, hours: seq<HoursRow>, avg: seq<AvgRow>,
                              variances: seq<VarianceRow>, months: seq<MonthlyRow>, charts: ChartMap): (r: Result<string, Error>)
    ensures var out := render(TemplateName, ShapeRenderArgs(managerName, hours, avg, variances, months, charts));
      && (r.Ok? <==> out.Ok?)
      && (r.Ok? ==> r.value == out.value)
      && (r.Err? ==> r.error == TemplateFailure(out.error))
  {
    match render(TemplateName, ShapeRenderArgs(managerName, hours, avg, variances, months, charts))
    case Ok(html) => Ok(html)
    case Err(e) => Err(TemplateFailure(e))
  }

  /**
   * Only the first average-duration row reaches the template: two frames that agree on their
   * first row (or are both empty) render alike when everything else agrees.
   */
  lemma AvgDurationFirstRowOnly(render: Renderer, managerName: Option<string>, hours: seq<HoursRow>,
                                avg1: seq<AvgRow>, avg2: seq<AvgRow>, variances: seq<VarianceRow>,
                                months: seq<MonthlyRow>, charts: ChartMap)
    requires (avg1 == [] && avg2 == []) || (avg1 != [] && avg2 != [] && avg1[0] == avg2[0])
    ensures GenerateHtmlReport(render, managerName, hours, avg1, variances, months, charts)
         == GenerateHtmlReport(render, managerName, hours, avg2, variances, months, charts)
  {
    var a1 := ShapeRenderArgs(managerName, hours, avg1, variances, months, charts);
    var a2 := ShapeRenderArgs(managerName, hours, avg2, variances, months, charts);
    assert a1.projectHours == a2.projectHours;
    assert a1.variance == a2.variance;
    assert a1.monthly == a2.monthly;
    assert a1 == a2;
  }
}
