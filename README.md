# Timesheet Anomaly Radar — a Dafny model of its request logic

The service reads a timesheet dataset (one row per employee shift, with a
precomputed `anomaly` flag) and offers two operations worth modelling:

- **the anomaly query** (`GET /api/anomalies`): keep the rows whose `anomaly`
  flag is 1, narrow them by an optional team (compared after lower-casing both
  sides) and an optional date (compared as an exact string), and return each
  kept row as a record of twelve fields in a fixed order, in dataset order;
- **the decision recorder** (`POST /api/decision`): check that the record id
  exists in the dataset, then append `{record_id, decision, note or ""}` to the
  decision log, creating the log with that single row if it does not exist yet.

The dataset is an ordered `seq<Row>`; the file being missing is `None`, which
makes both operations fail with `DatasetUnavailable`. The query is pure and is
modelled as functions over sequences (`Anomalies.Query`), with one reference
definition, `Anomalies.Selected`, that says in a single condition which rows the
filter chain keeps. The decision log is the field `file:
Option<seq<DecisionRow>>` of the class `Decisions.DecisionLog`, and
`PostDecision` is a method whose postconditions give the new log in each case.

Files:

- `wrappers.dfy`: `Option` and `Result`.
- `filtering.dfy`: selection by a boolean mask (`Filter`) and what it keeps: an
  order-preserving subsequence, each kept row as often as in the input, and
  two selections fused into one or applied in either order.
- `text.dfy`: lower-casing of ASCII letters.
- `dataset.dfy`: the dataset row, cell values, column lookup by name, loading.
- `anomalies.dfy`: the anomaly query and its properties.
- `decisions.dfy`: the decision log and `PostDecision`.
- `scenarios.dfy`: a two-row dataset worked through both operations.

Where the code and its comments disagree, the model follows the code:

- The docstring of `post_decision` (app.py:125) says a timestamp is written with
  each decision. The row written (app.py:134-138) has only `record_id`,
  `decision` and `note`, and so does `DecisionRow`.
- The module docstring (app.py:15-16) says the service must be restarted to see
  dataset changes. Both handlers reload the dataset on every request
  (app.py:93, app.py:129), so each operation here takes the dataset as it is at
  call time as a parameter.
- The query's truthiness tests (app.py:97, app.py:99) make an empty team or
  date string mean "no filter", the same as an absent one (`Anomalies.Given`).
- `note or ""` (app.py:137) writes the note itself whenever one is given: an
  empty note and an absent note both become `""`.

## Model

| member | source | states |
|---|---|---|
| `Filtering.Filter` | app.py:95-100 | a boolean-mask selection returns at most as many rows as it is given, only rows of the input that satisfy the mask, and every input row that satisfies it |
| `Filtering.FilterIsSubsequence` | app.py:95-100 | a selection keeps the relative order of the rows it keeps |
| `Filtering.FilterCount` | app.py:95-100 | a selection keeps each accepted row exactly as often as it occurs and drops every other row |
| `Filtering.FilterKeepsAll` | app.py:97-100 | a selection whose mask holds for every row returns the input unchanged |
| `Filtering.FilterExt` | app.py:97-98 | two masks that agree on every row select the same rows |
| `Filtering.FilterFuse` | app.py:95-100 | two selections applied one after the other equal one selection by both conditions |
| `Filtering.FilterCommute` | app.py:97-100 | two selections may be applied in either order with the same result |
| `Text.LowerChar` | app.py:98 | lower-casing a character yields no upper-case letter, shifts A-Z to a-z and leaves every other character alone |
| `Text.Lower` | app.py:98 | lower-casing keeps the length, lower-cases each character in place and leaves no upper-case letter |
| `Text.LowerIdempotent` | app.py:98 | lower-casing twice is the same as lower-casing once |
| `Dataset.Column` | app.py:102-116 | looking a column up by name succeeds exactly for the dataset's thirteen column names |
| `Dataset.LoadData` | app.py:66-72 | loading fails with `DatasetUnavailable` exactly when the dataset file is missing, and otherwise yields its rows unchanged |
| `Anomalies.Get` | app.py:116 | a field lookup in a response record finds a value exactly when some field of the record has that name |
| `Anomalies.GetAt` | app.py:116 | a field name that occurs once in a record is looked up at its own position |
| `Anomalies.Project` | app.py:102-116 | a response record has exactly the twelve listed fields, in the listed order, each holding the row's value of the column of that name |
| `Anomalies.ProjectGet` | app.py:102-116 | looking up any of the twelve field names in a row's record gives that row's column; any other name, `anomaly` included, gives nothing |
| `Anomalies.SelectRows` | app.py:95-100 | the anomaly, team and date filter chain returns no more rows than the dataset has, each of them a dataset row that is an anomaly and passes the given filters; `Anomalies.SelectIsOnePass` pins it down as one selection by `Selected` |
| `Anomalies.TeamStep` | app.py:97-98 | the optional team step equals selection by the team condition, which is vacuous when no (or an empty) team is given |
| `Anomalies.DateStep` | app.py:99-100 | the optional date step equals selection by the date condition, which is vacuous when no (or an empty) date is given |
| `Anomalies.SelectIsOnePass` | app.py:95-100 | the anomaly, team and date filter chain selects exactly the rows satisfying the one-row condition `Selected` |
| `Anomalies.Query` | app.py:95-116 | the result has one record per selected row, the k-th record being the projection of the k-th selected row (so the selection's order and multiplicities carry over to the records), and each record is the projection of a dataset row that is an anomaly and passes both filters |
| `Anomalies.GetAnomalies` | app.py:81-117 | the endpoint fails with `DatasetUnavailable` when the dataset is missing and otherwise returns the query over the freshly loaded rows |
| `Anomalies.OnlyAnomaliesReturned` | app.py:95 | whatever the filters, every selected row has `anomaly == 1` and every returned record is the projection of such a row |
| `Anomalies.SelectionKeepsOrderAndCount` | app.py:95-116 | the selected rows form an order-preserving subsequence of the dataset holding each accepted row as often as the dataset does and no other row |
| `Anomalies.SelectedRowsReturned` | app.py:95-116 | every dataset row that is an anomaly and passes the given filters has its record in the result |
| `Anomalies.UnfilteredIsAllAnomalies` | app.py:95-116 | with no team and no date, or empty ones, the result equals the unfiltered query, and its records are, position by position, the projections of the anomaly rows, which form an order-preserving subsequence of the dataset holding each anomaly row as often as the dataset does |
| `Anomalies.TeamFilterExact` | app.py:97-98 | with a team given, every returned record's team equals it after lower-casing both, with no partial matches |
| `Anomalies.DateFilterExact` | app.py:99-100 | with a date given, every returned record's date is exactly that string |
| `Anomalies.RecordTeamMatches` | app.py:97-98 | the record of a row that passes a given team filter has a team field equal to the query after lower-casing both |
| `Anomalies.RecordDateMatches` | app.py:99-100 | the record of a row that passes a given date filter has exactly the query string as its date field |
| `Anomalies.TeamCaseInsensitive` | app.py:97-98 | two team queries that agree after lower-casing give identical results |
| `Anomalies.FilterOrderIrrelevant` | app.py:97-100 | applying the date filter before the team filter gives the same rows as the source's team-then-date order |
| `Decisions.ContainsId` | app.py:130 | the existence check holds exactly when some dataset row carries the record id |
| `Decisions.NoteText` | app.py:137 | the written note is the given note, and the empty string when none was given |
| `Decisions.MakeRow` | app.py:134-138 | the row written carries the request's record id and decision, and its note, or the empty string when no note was given |
| `Decisions.Appended` | app.py:140-146 | the log after an append has one more row: the earlier rows unchanged and in order, then the new row; a missing log becomes the new row alone |
| `Decisions.AppendKeepsReferences` | app.py:129-146 | appending a row whose record id exists keeps every logged decision referring to a dataset record |
| `Decisions.DecisionLog.PostDecision` | app.py:120-148 | a missing dataset fails and an unknown id fails with 404 "record_id not found", both leaving the log as it was (absent or identical); a known id appends exactly the row built from the request, creating the log if absent, and returns "recorded" |
| `Scenarios.QueryByTeamIgnoresCase` | app.py:95-98 | on a two-row sample, the unfiltered query and the query for team "eng" both return the one anomaly row of team "Eng"; empty parameters filter nothing |
| `Scenarios.QueryByTeamIsExact` | app.py:95-98 | a team whose only row is not an anomaly, or a prefix of a team name, returns nothing |
| `Scenarios.QueryByDateIsExact` | app.py:99-100 | the exact date string finds the anomaly row; the same day written without zero padding finds nothing |

## Left out

- HTTP wiring: the FastAPI application, CORS middleware, the documentation routes
  and the health endpoint (app.py:48-78), which always returns `{"status": "ok"}`.
- CSV parsing and writing (`read_csv`, `to_csv`): the dataset and the decision
  log are in-memory sequences. Pandas type coercion (empty cells read back as
  NaN, an empty note read back as NaN, numeric `employee_id` columns) is not
  modelled; `employee_id` is carried as a string.
- The CSV header of the decision log and the column alignment done by
  `pd.concat` when the existing file has other columns: the log is a sequence
  of three-field rows.
- The numeric meaning of `anomaly_score`: it is carried as an opaque `Score`.
- Columns of the dataset other than the thirteen the service reads.
- A dataset file lacking one of those thirteen columns: the source then fails
  with a `KeyError` while filtering or projecting (app.py:95-116), which the
  framework turns into a server error; a `Row` always has every column, so the
  model cannot express that case.
- Request validation by the schema library (app.py:42-45): a `Decision` is
  already a typed value.
- `Text.Lower`: folds only the ASCII letters A-Z, while Python's `str.lower`
  folds all of Unicode.
- Concurrent requests and the lost update caused by reading and rewriting the
  whole decision log: the model is sequential, and each `PostDecision` call is
  atomic.
- A rewrite that fails half-way and leaves the log truncated: writes do not fail
  in the model.
