/**
 * A worked example over a two-row dataset: one anomaly row of team "Eng" and
 * one ordinary row of team "Sales".
 */
module Scenarios {
  import opened Wrappers
  import opened Dataset
  import opened Anomalies
  import opened Decisions

  function EngRow(): Row {
    Row(1, "E001", "Ada", "Eng", "2024-01-01", "09:00", "17:00", "09:40", "17:00",
        "Office", 1, "late start", Score("0.91"))
  }

  function SalesRow(): Row {
    Row(2, "E002", "Bo", "Sales", "2024-01-02", "09:00", "17:00", "09:00", "17:00",
        "Remote", 0, "", Score("0.02"))
  }

  function Sample(): seq<Row> {
    [EngRow(), SalesRow()]
  }

  /** With no filters only the anomaly row comes back; a team query in another case finds it too. */
  lemma QueryByTeamIgnoresCase()
    ensures Query(Sample(), None, None) == [Project(EngRow())]
    ensures Query(Sample(), Some("eng"), None) == [Project(EngRow())]
    ensures Query(Sample(), Some(""), Some("")) == [Project(EngRow())]
  {
  }

  /** A team that matches only non-anomalous rows, or only a prefix of a team name, finds nothing. */
  lemma QueryByTeamIsExact()
    ensures Query(Sample(), Some("sales"), None) == []
    ensures Query(Sample(), Some("En"), None) == []
  {
  }

  /** Dates are compared as strings: the same day written differently matches nothing. */
  lemma QueryByDateIsExact()
    ensures Query(Sample(), None, Some("2024-01-01")) == [Project(EngRow())]
    ensures Query(Sample(), None, Some("2024-1-1")) == []
  {
  }

  /** Decisions may be recorded about any dataset row, anomalous or not, but not about unknown ids. */
  method RecordTwoDecisions() {
    var log := new DecisionLog(None);
    var first := log.PostDecision(Some(Sample()), Decision(2, "ignore", None));
    assert first == Ok(Recorded);
    assert log.file == Some([DecisionRow(2, "ignore", "")]);
    var second := log.PostDecision(Some(Sample()), Decision(99, "x", Some("typo")));
    assert second == Err(NotFound);
    assert log.file == Some([DecisionRow(2, "ignore", "")]);
    assert ContainsId(Sample(), 1);
    var third := log.PostDecision(Some(Sample()), Decision(1, "approve", Some("ok")));
    assert third == Ok(Recorded);
    assert MakeRow(Decision(1, "approve", Some("ok"))) == DecisionRow(1, "approve", "ok");
    assert Appended(Some([DecisionRow(2, "ignore", "")]), DecisionRow(1, "approve", "ok"))
        == [DecisionRow(2, "ignore", ""), DecisionRow(1, "approve", "ok")];
    assert log.file == Some([DecisionRow(2, "ignore", ""), DecisionRow(1, "approve", "ok")]);
    var fourth := log.PostDecision(None, Decision(1, "approve", None));
    assert fourth == Err(DatasetUnavailable);
  }
}
