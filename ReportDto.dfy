/** The report record (dto/report_dto.py) and its generated constructor. */
module Dto {
  import opened Wrappers
  import opened Failures
  import opened DiagramGenerator

  /**
   * One generated report. `managerName` is optional because `fetch_manager` may return None
   * and the dataclass does not check its field types.
   */
  datatype ReportDto = ReportDto(
    managerId: int,
    managerName: Option<string>,
    html: string,
    pdfPath: Option<string>,
    charts: ChartMap,
    fileName: string
  )

  /**
   * The dataclass constructor. All six fields are required and none has a default, so a call
   * that leaves out `file_name` raises TypeError instead of building a record.
   */
  function NewReportDto(managerId: int, managerName: Option<string>, html: string, pdfPath: Option<string>,
                        charts: ChartMap, fileName: Option<string>): (r: Result<ReportDto, Error>)
    ensures r.Err? <==> fileName.None?
    ensures r.Err? ==> r.error == MissingArgument("file_name")
    ensures r.Ok? ==> r.value == ReportDto(managerId, managerName, html, pdfPath, charts, fileName.value)
  {
    match fileName
    case None => Err(MissingArgument("file_name"))
    case Some(f) => Ok(ReportDto(managerId, managerName, html, pdfPath, charts, f))
  }
}
