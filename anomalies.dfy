/**
 * The anomaly query behind `GET /api/anomalies`: keep the rows flagged as
 * anomalous, narrow them by an optional team (case-insensitively) and an
 * optional date (as an exact string), and project each kept row onto a fixed
 * list of twelve fields, in the dataset's own row order.
 */
module Anomalies {
  import opened Wrappers
  import opened Filtering
  import opened Text
  import opened Dataset

  /** One element of the response: field names paired with values, in response order. */
  type Record = seq<(string, Value)>

  /** The fields of a response record, in order. The `anomaly` flag itself is not among them. */
  const ProjectedFields: seq<string> := [
    "record_id", "employee_id", "employee_name", "team", "date", "scheduled_start",
    "scheduled_end", "actual_start", "actual_end", "location", "anomaly_reason",
    "anomaly_score"]

  /** Python truthiness of an optional query parameter: absent and empty both mean "no filter". */
  predicate Given(q: Option<string>) {
    q.Some? && q.value != ""
  }

  predicate IsAnomaly(row: Row) {
    row.anomaly == 1
  }

  predicate TeamMatches(row: Row, team: string) {
    Lower(row.team) == Lower(team)
  }

  predicate DateMatches(row: Row, date: string) {
    row.date == date
  }

  /** The team condition; always true when no team is given. */
  predicate TeamOk(row: Row, team: Option<string>) {
    Given(team) ==> TeamMatches(row, team.value)
  }

  /** The date condition; always true when no date is given. */
  predicate DateOk(row: Row, date: Option<string>) {
    Given(date) ==> DateMatches(row, date.value)
  }

  /** The rows the query returns, described as one condition on a single row. */
  predicate Selected(row: Row, team: Option<string>, date: Option<string>) {
    IsAnomaly(row) && TeamOk(row, team) && DateOk(row, date)
  }

  /** The value under `name` in a record: the first pair with that name. */
  function Get(rec: Record, name: string): (v: Option<Value>)
    ensures v.Some? <==> exists i :: 0 <= i < |rec| && rec[i].0 == name
  {
    if rec == [] then None
    else if rec[0].0 == name then Some(rec[0].1)
    else Get(rec[1..], name)
  }

  /** A name that occurs once, at position `k`, is looked up at position `k`. */
  lemma {:induction false} GetAt(rec: Record, k: nat)
    requires k < |rec|
    requires forall j :: 0 <= j < k ==> rec[j].0 != rec[k].0
    ensures Get(rec, rec[k].0) == Some(rec[k].1)
  {
    if k > 0 {
      GetAt(rec[1..], k - 1);
    }
  }

  /** The response record for one row: the projected fields, in order, with the row's values. */
  function Project(row: Row): (rec: Record)
    ensures |rec| == |ProjectedFields|
    ensures forall i :: 0 <= i < |rec| ==> rec[i].0 == ProjectedFields[i]
    ensures forall i :: 0 <= i < |rec| ==> Column(row, rec[i].0) == Some(rec[i].1)
  {
    [("record_id", Int(row.recordId)),
     ("employee_id", Str(row.employeeId)),
     ("employee_name", Str(row.employeeName)),
     ("team", Str(row.team)),
     ("date", Str(row.date)),
     ("scheduled_start", Str(row.scheduledStart)),
     ("scheduled_end", Str(row.scheduledEnd)),
     ("actual_start", Str(row.actualStart)),
     ("actual_end", Str(row.actualEnd)),
     ("location", Str(row.location)),
     ("anomaly_reason", Str(row.anomalyReason)),
     ("anomaly_score", Num(row.anomalyScore))]
  }

  /**
   * Looking a field up in a response record gives the row's column for each
   * of the twelve projected fields, and nothing for any other name, the
   * `anomaly` flag included.
   */
  lemma ProjectGet(row: Row, name: string)
    ensures Get(Project(row), name) == if name in ProjectedFields then Column(row, name) else None
  {
    var rec := Project(row);
    if name in ProjectedFields {
      var k :| 0 <= k < |ProjectedFields| && ProjectedFields[k] == name;
      GetAt(rec, k);
    }
  }

  /**
   * The filter chain: anomaly flag first, then the team, then the date, each
   * only when given. It keeps only dataset rows that the filters accept.
   */
  function SelectRows(rows: seq<Row>, team: Option<string>, date: Option<string>): (sel: seq<Row>)
    ensures |sel| <= |rows|
    ensures forall k :: 0 <= k < |sel| ==> sel[k] in rows && Selected(sel[k], team, date)
  {
    var anomalies := Filter(rows, IsAnomaly);
    var byTeam := if Given(team) then Filter(anomalies, r => TeamMatches(r, team.value)) else anomalies;
    var byDate := if Given(date) then Filter(byTeam, r => DateMatches(r, date.value)) else byTeam;
    assert forall k :: 0 <= k < |byTeam| ==> byTeam[k] in anomalies && TeamOk(byTeam[k], team);
    byDate
  }

  /** An optional filter step is a selection by its condition, which is vacuous when the filter is off. */
  lemma TeamStep(rows: seq<Row>, team: Option<string>)
    ensures (if Given(team) then Filter(rows, r => TeamMatches(r, team.value)) else rows)
            == Filter(rows, r => TeamOk(r, team))
  {
    if Given(team) {
      FilterExt(rows, r => TeamMatches(r, team.value), r => TeamOk(r, team));
    } else {
      FilterKeepsAll(rows, r => TeamOk(r, team));
    }
  }

  lemma DateStep(rows: seq<Row>, date: Option<string>)
    ensures (if Given(date) then Filter(rows, r => DateMatches(r, date.value)) else rows)
            == Filter(rows, r => DateOk(r, date))
  {
    if Given(date) {
      FilterExt(rows, r => DateMatches(r, date.value), r => DateOk(r, date));
    } else {
      FilterKeepsAll(rows, r => DateOk(r, date));
    }
  }

  /** The filter chain selects exactly the rows satisfying `Selected`, in one pass. */
  lemma SelectIsOnePass(rows: seq<Row>, team: Option<string>, date: Option<string>)
    ensures SelectRows(rows, team, date) == Filter(rows, r => Selected(r, team, date))
  {
    var teamOk := (r: Row) => TeamOk(r, team);
    var dateOk := (r: Row) => DateOk(r, date);
    var anomalyTeam := (r: Row) => IsAnomaly(r) && TeamOk(r, team);
    var anomalies := Filter(rows, IsAnomaly);
    TeamStep(anomalies, team);
    var byTeam := Filter(anomalies, teamOk);
    DateStep(byTeam, date);
    assert SelectRows(rows, team, date) == Filter(byTeam, dateOk);
    FilterFuse(rows, IsAnomaly, teamOk, anomalyTeam);
    FilterFuse(rows, anomalyTeam, dateOk, r => Selected(r, team, date));
  }

  /**
   * The query result: one record per selected row, in the order and with the
   * multiplicity of the selection. Every record is the projection of some
   * row of the dataset that the filters accept.
   */
  function Query(rows: seq<Row>, team: Option<string>, date: Option<string>): (res: seq<Record>)
    ensures |res| == |SelectRows(rows, team, date)| <= |rows|
    ensures forall i :: 0 <= i < |res| ==> res[i] == Project(SelectRows(rows, team, date)[i])
    ensures forall i :: 0 <= i < |res| ==>
              exists row :: row in rows && Selected(row, team, date) && res[i] == Project(row)
  {
    var sel := SelectRows(rows, team, date);
    assert forall i :: 0 <= i < |sel| ==> sel[i] in rows && Selected(sel[i], team, date);
    seq(|sel|, i requires 0 <= i < |sel| => Project(sel[i]))
  }

  /** `GET /api/anomalies`: the query over the dataset as loaded for this request. */
  function GetAnomalies(file: Option<seq<Row>>, team: Option<string>, date: Option<string>)
    : (r: Result<seq<Record>, ApiError>)
    ensures file.None? ==> r == Err(DatasetUnavailable)
    ensures file.Some? ==> r == Ok(Query(file.value, team, date))
  {
    match LoadData(file)
    case Err(e) => Err(e)
    case Ok(rows) => Ok(Query(rows, team, date))
  }

  /** The text under `name` in a record, when there is one. */
  function TextField(rec: Record, name: string): Option<string> {
    match Get(rec, name)
    case Some(Str(text)) => Some(text)
    case _ => None
  }

  /** `rec` is the response record of an anomaly row of `rows`. */
  ghost predicate ProjectsAnomalyOf(rec: Record, rows: seq<Row>) {
    exists row :: row in rows && IsAnomaly(row) && rec == Project(row)
  }

  /**
   * Whatever the filters, only rows flagged as anomalies are selected, and
   * every record returned is the projection of such a row of the dataset.
   */
  lemma OnlyAnomaliesReturned(rows: seq<Row>, team: Option<string>, date: Option<string>)
    ensures forall k :: 0 <= k < |SelectRows(rows, team, date)| ==> IsAnomaly(SelectRows(rows, team, date)[k])
    ensures forall i :: 0 <= i < |Query(rows, team, date)| ==>
              ProjectsAnomalyOf(Query(rows, team, date)[i], rows)
  {
    var res := Query(rows, team, date);
    forall i | 0 <= i < |res|
      ensures ProjectsAnomalyOf(res[i], rows)
    {
      var row := SelectRows(rows, team, date)[i];
      assert row in rows && IsAnomaly(row);
    }
  }

  /**
   * The selection is an order-preserving subsequence of the dataset in which
   * each accepted row occurs exactly as often as in the dataset, and every
   * other row not at all.
   */
  lemma SelectionKeepsOrderAndCount(rows: seq<Row>, team: Option<string>, date: Option<string>)
    ensures IsSubsequence(SelectRows(rows, team, date), rows)
    ensures forall row :: multiset(SelectRows(rows, team, date))[row] ==
                          if Selected(row, team, date) then multiset(rows)[row] else 0
  {
    SelectIsOnePass(rows, team, date);
    FilterIsSubsequence(rows, r => Selected(r, team, date));
    forall row
      ensures multiset(SelectRows(rows, team, date))[row] ==
              if Selected(row, team, date) then multiset(rows)[row] else 0
    {
      FilterCount(rows, r => Selected(r, team, date), row);
    }
  }

  /** Every row the filters accept is returned. */
  lemma SelectedRowsReturned(rows: seq<Row>, team: Option<string>, date: Option<string>, row: Row)
    requires row in rows && Selected(row, team, date)
    ensures Project(row) in Query(rows, team, date)
  {
    SelectIsOnePass(rows, team, date);
    var sel := SelectRows(rows, team, date);
    var k :| 0 <= k < |sel| && sel[k] == row;
    assert Query(rows, team, date)[k] == Project(row);
  }

  /**
   * Without a team and a date (absent or empty), the query returns the
   * projections of exactly the anomaly rows, in dataset order, each as often
   * as it occurs in the dataset.
   */
  lemma UnfilteredIsAllAnomalies(rows: seq<Row>, team: Option<string>, date: Option<string>)
    requires !Given(team) && !Given(date)
    ensures Query(rows, team, date) == Query(rows, None, None)
    ensures |Query(rows, team, date)| == |Filter(rows, IsAnomaly)|
    ensures forall i :: 0 <= i < |Query(rows, team, date)| ==>
              Query(rows, team, date)[i] == Project(Filter(rows, IsAnomaly)[i])
    ensures IsSubsequence(Filter(rows, IsAnomaly), rows)
    ensures forall row :: multiset(Filter(rows, IsAnomaly))[row] ==
                          if IsAnomaly(row) then multiset(rows)[row] else 0
  {
    SelectionKeepsOrderAndCount(rows, team, date);
  }

  /** The record of a row that passes a given team filter carries a team equal to it up to case. */
  lemma RecordTeamMatches(row: Row, team: Option<string>, date: Option<string>)
    requires Given(team) && Selected(row, team, date)
    ensures TextField(Project(row), "team").Some?
    ensures Lower(TextField(Project(row), "team").value) == Lower(team.value)
  {
    assert ProjectedFields[3] == "team";
    ProjectGet(row, "team");
  }

  /** The record of a row that passes a given date filter carries exactly that date. */
  lemma RecordDateMatches(row: Row, team: Option<string>, date: Option<string>)
    requires Given(date) && Selected(row, team, date)
    ensures TextField(Project(row), "date") == Some(date.value)
  {
    assert ProjectedFields[4] == "date";
    ProjectGet(row, "date");
  }

  /** With a team given, every returned record's team equals it up to case: no partial matches. */
  lemma TeamFilterExact(rows: seq<Row>, team: Option<string>, date: Option<string>)
    requires Given(team)
    ensures forall i :: 0 <= i < |Query(rows, team, date)| ==>
              TextField(Query(rows, team, date)[i], "team").Some? &&
              Lower(TextField(Query(rows, team, date)[i], "team").value) == Lower(team.value)
  {
    var sel := SelectRows(rows, team, date);
    forall i | 0 <= i < |sel|
      ensures TextField(Project(sel[i]), "team").Some? &&
              Lower(TextField(Project(sel[i]), "team").value) == Lower(team.value)
    {
      RecordTeamMatches(sel[i], team, date);
    }
  }

  /** With a date given, every returned record's date is that exact string. */
  lemma DateFilterExact(rows: seq<Row>, team: Option<string>, date: Option<string>)
    requires Given(date)
    ensures forall i :: 0 <= i < |Query(rows, team, date)| ==>
              TextField(Query(rows, team, date)[i], "date") == Some(date.value)
  {
    var sel := SelectRows(rows, team, date);
    forall i | 0 <= i < |sel|
      ensures TextField(Project(sel[i]), "date") == Some(date.value)
    {
      RecordDateMatches(sel[i], team, date);
    }
  }

  /** Team queries that agree up to case ("Sales", "sales") give identical results. */
  lemma TeamCaseInsensitive(rows: seq<Row>, team1: string, team2: string, date: Option<string>)
    requires Lower(team1) == Lower(team2)
    ensures Query(rows, Some(team1), date) == Query(rows, Some(team2), date)
  {
    var anomalies := Filter(rows, IsAnomaly);
    if team1 != "" {
      FilterExt(anomalies, r => TeamMatches(r, team1), r => TeamMatches(r, team2));
    }
    assert SelectRows(rows, Some(team1), date) == SelectRows(rows, Some(team2), date);
  }

  /** The same query with the date filter applied before the team filter. */
  function SelectRowsDateFirst(rows: seq<Row>, team: Option<string>, date: Option<string>): seq<Row> {
    var anomalies := Filter(rows, IsAnomaly);
    var byDate := if Given(date) then Filter(anomalies, r => DateMatches(r, date.value)) else anomalies;
    if Given(team) then Filter(byDate, r => TeamMatches(r, team.value)) else byDate
  }

  /** The team and date filters are independent: their order does not matter. */
  lemma FilterOrderIrrelevant(rows: seq<Row>, team: Option<string>, date: Option<string>)
    ensures SelectRows(rows, team, date) == SelectRowsDateFirst(rows, team, date)
  {
    var anomalies := Filter(rows, IsAnomaly);
    if Given(team) && Given(date) {
      FilterCommute(anomalies, r => TeamMatches(r, team.value), r => DateMatches(r, date.value));
    }
  }
}
