/**
 * The timesheet dataset as the service loads it on every request: an ordered
 * table of rows with named columns, or nothing when the file is missing.
 */
module Dataset {
  import opened Wrappers

  /** The anomaly score column, carried through unchanged and never computed with. */
  datatype Score = Score(text: string)

  /** One row of the dataset; the columns the service reads. */
  datatype Row = Row(
    recordId: int,
    employeeId: string,
    employeeName: string,
    team: string,
    date: string,
    scheduledStart: string,
    scheduledEnd: string,
    actualStart: string,
    actualEnd: string,
    location: string,
    anomaly: int,
    anomalyReason: string,
    anomalyScore: Score)

  /** A cell value, as it appears in a JSON response object. */
  datatype Value = Int(i: int) | Str(s: string) | Num(score: Score)

  /** The failures a request can end with. */
  datatype ApiError =
    | DatasetUnavailable             // the dataset file is missing: a server-side failure
    | HttpError(status: int, detail: string)

  /** The column of `row` called `name` (`df[name]` for one row); None for an unknown column. */
  function Column(row: Row, name: string): (v: Option<Value>)
    ensures v.Some? <==> name in ColumnNames()
  {
    match name
    case "record_id" => Some(Int(row.recordId))
    case "employee_id" => Some(Str(row.employeeId))
    case "employee_name" => Some(Str(row.employeeName))
    case "team" => Some(Str(row.team))
    case "date" => Some(Str(row.date))
    case "scheduled_start" => Some(Str(row.scheduledStart))
    case "scheduled_end" => Some(Str(row.scheduledEnd))
    case "actual_start" => Some(Str(row.actualStart))
    case "actual_end" => Some(Str(row.actualEnd))
    case "location" => Some(Str(row.location))
    case "anomaly" => Some(Int(row.anomaly))
    case "anomaly_reason" => Some(Str(row.anomalyReason))
    case "anomaly_score" => Some(Num(row.anomalyScore))
    case _ => None
  }

  /** The names of the dataset columns the service reads. */
  function ColumnNames(): set<string> {
    {"record_id", "employee_id", "employee_name", "team", "date", "scheduled_start",
     "scheduled_end", "actual_start", "actual_end", "location", "anomaly",
     "anomaly_reason", "anomaly_score"}
  }

  /**
   * Reading the dataset file: its rows when it exists, and the server-side
   * failure when it does not. `file` is the file's content at request time.
   */
  function LoadData(file: Option<seq<Row>>): (r: Result<seq<Row>, ApiError>)
    ensures file.None? <==> r == Err(DatasetUnavailable)
    ensures file.Some? ==> r == Ok(file.value)
  {
    match file
    case None => Err(DatasetUnavailable)
    case Some(rows) => Ok(rows)
  }
}
