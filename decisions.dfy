/**
 * The decision recorder behind `POST /api/decision`: a decision about a
 * dataset row is appended to the decision log, which is created with its
 * first row when it does not exist yet. A decision about an unknown record
 * fails and leaves the log as it was.
 */
module Decisions {
  import opened Wrappers
  import opened Dataset

  /** The request body: a record id, the decision taken and an optional note. */
  datatype Decision = Decision(recordId: int, decision: string, note: Option<string>)

  /** One row of the decision log. No timestamp is written. */
  datatype DecisionRow = DecisionRow(recordId: int, decision: string, note: string)

  const Recorded: string := "recorded"
  const NotFound: ApiError := HttpError(404, "record_id not found")

  /** Whether some row of the dataset carries record id `id`. */
  function ContainsId(rows: seq<Row>, id: int): (b: bool)
    ensures b <==> exists k :: 0 <= k < |rows| && rows[k].recordId == id
  {
    rows != [] && (rows[0].recordId == id || ContainsId(rows[1..], id))
  }

  /** The note as written to the log: `note or ""`, so an absent note is the empty string. */
  function NoteText(note: Option<string>): (text: string)
    ensures note.None? ==> text == ""
    ensures note.Some? ==> text == note.value
  {
    if note.Some? && note.value != "" then note.value else ""
  }

  /** The log row built from a request: its id and decision, and its note or the empty string. */
  function MakeRow(d: Decision): (row: DecisionRow)
    ensures row.recordId == d.recordId && row.decision == d.decision
    ensures d.note.None? ==> row.note == ""
    ensures d.note.Some? ==> row.note == d.note.value
  {
    DecisionRow(d.recordId, d.decision, NoteText(d.note))
  }

  /** The rows of a decision log; a log that does not exist has none. */
  function LogRows(log: Option<seq<DecisionRow>>): seq<DecisionRow> {
    match log
    case None => []
    case Some(rows) => rows
  }

  /**
   * The log after recording `row`: a new log holding just `row`, or the
   * existing rows, unchanged and in order, followed by `row`.
   */
  function Appended(log: Option<seq<DecisionRow>>, row: DecisionRow): (rows: seq<DecisionRow>)
    ensures |rows| == |LogRows(log)| + 1
    ensures rows[..|LogRows(log)|] == LogRows(log)
    ensures rows[|LogRows(log)|] == row
  {
    match log
    case None => [row]
    case Some(earlier) => earlier + [row]
  }

  /** Every logged decision refers to a record of the dataset. */
  ghost predicate AllReferenced(log: Option<seq<DecisionRow>>, rows: seq<Row>) {
    forall k :: 0 <= k < |LogRows(log)| ==> ContainsId(rows, LogRows(log)[k].recordId)
  }

  /** Recording a decision about a known record keeps every logged decision referring to the dataset. */
  lemma AppendKeepsReferences(log: Option<seq<DecisionRow>>, rows: seq<Row>, row: DecisionRow)
    requires AllReferenced(log, rows)
    requires ContainsId(rows, row.recordId)
    ensures AllReferenced(Some(Appended(log, row)), rows)
  {
  }

  /** The decision log file; `None` while it does not exist. */
  class DecisionLog {
    var file: Option<seq<DecisionRow>>

    constructor (file: Option<seq<DecisionRow>>)
      ensures this.file == file
    {
      this.file := file;
    }

    /**
     * Records decision `d`, checking its record id against the dataset as
     * loaded for this request (`dataset`, None when the file is missing).
     */
    method PostDecision(dataset: Option<seq<Row>>, d: Decision) returns (r: Result<string, ApiError>)
      modifies this
      ensures dataset.None? ==> r == Err(DatasetUnavailable) && file == old(file)
      ensures dataset.Some? && !ContainsId(dataset.value, d.recordId) ==>
                r == Err(NotFound) && file == old(file)
      ensures dataset.Some? && ContainsId(dataset.value, d.recordId) ==>
                r == Ok(Recorded) && file == Some(Appended(old(file), MakeRow(d)))
      ensures dataset.Some? && old(AllReferenced(file, dataset.value)) ==> AllReferenced(file, dataset.value)
    {
      var rows: seq<Row>;
      match LoadData(dataset) {
        case Err(e) => return Err(e);
        case Ok(loaded) => rows := loaded;
      }
      if !ContainsId(rows, d.recordId) {
        return Err(NotFound);
      }
      var row := MakeRow(d);
      if AllReferenced(file, rows) {
        AppendKeepsReferences(file, rows, row);
      }
      if file.None? {
        file := Some([row]);
      } else {
        file := Some(file.value + [row]);
      }
      return Ok(Recorded);
    }
  }
}
