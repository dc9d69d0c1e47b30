/**
 * The outcome table of carpo/record.py: the typed row that replaces the
 * sqlite row dictionary, the column list of FIELDS, and the display of
 * query results (`format_result`, `results_to_table`). The outcome of one
 * execution, `NotebookRun` of carpo/cli.py, lives here too because the
 * store consumes it.
 */
module Schema {
  import opened Common

  /**
   * One row of table `notebooks`. `success` is the stored INTEGER, `time`
   * the elapsed seconds (an opaque number here), `runDate` a Unix timestamp.
   */
  datatype Row = Row(
    notebookPath: string,
    gitSha: string,
    gitRoot: string,
    success: int,
    time: real,
    runDate: int)

  /** The column names of FIELDS, in schema order. */
  const Columns: seq<string> :=
    ["notebook_path", "git_sha", "git_root", "success", "time", "run_date"]

  /** The outcome of executing one notebook: `NotebookRun` of carpo/cli.py. */
  datatype NotebookRun = NotebookRun(path: string, success: bool, runTime: real, message: string)

  /** A terminal table: its optional title and its rows of cells. */
  datatype Table = Table(title: Option<string>, rows: seq<seq<string>>)

  /** Python's `str(bool(j))`. */
  function BoolStr(b: bool): (s: string)
    ensures s == "True" <==> b
    ensures s == "False" <==> !b
  {
    if b then "True" else "False"
  }

  /**
   * The formatted value of column number `column` of `row`, with the
   * formatter FIELDS gives that column. The two numeric formatters
   * ('{:.2f}s' and the strftime date) are parameters.
   */
  function FormatCell(column: nat, row: Row, formatTime: real -> string, formatDate: int -> string): (cell: string)
    requires column < |Columns|
    ensures Columns[column] == "notebook_path" ==> cell == row.notebookPath
    ensures Columns[column] == "git_sha" ==> cell == row.gitSha
    ensures Columns[column] == "git_root" ==> cell == row.gitRoot
    ensures Columns[column] == "success" ==> cell == BoolStr(row.success != 0)
    ensures Columns[column] == "time" ==> cell == formatTime(row.time)
    ensures Columns[column] == "run_date" ==> cell == formatDate(row.runDate)
  {
    match column
    case 0 => row.notebookPath
    case 1 => row.gitSha
    case 2 => row.gitRoot
    case 3 => BoolStr(row.success != 0)
    case 4 => formatTime(row.time)
    case _ => formatDate(row.runDate)
  }

  /** The table row of one result: one formatted cell per column, in column order. */
  function FormattedCells(row: Row, formatTime: real -> string, formatDate: int -> string): (cells: seq<string>)
    ensures |cells| == |Columns|
    ensures cells[0] == row.notebookPath && cells[1] == row.gitSha && cells[2] == row.gitRoot
    ensures cells[3] == "True" <==> row.success != 0
    ensures cells[4] == formatTime(row.time) && cells[5] == formatDate(row.runDate)
  {
    seq(|Columns|, k requires 0 <= k < |Columns| => FormatCell(k, row, formatTime, formatDate))
  }

  lemma ColumnsDistinct()
    ensures forall i, j :: 0 <= i < j < |Columns| ==> Columns[i] != Columns[j]
  {
  }

  /** `format_result`: maps every column name of a row to its formatted value. */
  method FormatResult(row: Row, formatTime: real -> string, formatDate: int -> string)
    returns (formatted: map<string, string>)
    ensures formatted.Keys == set c | c in Columns
    ensures forall k :: 0 <= k < |Columns| ==> formatted[Columns[k]] == FormatCell(k, row, formatTime, formatDate)
  {
    ColumnsDistinct();
    formatted := map[];
    for i := 0 to |Columns|
      invariant formatted.Keys == set c | c in Columns[..i]
      invariant forall k :: 0 <= k < i ==> formatted[Columns[k]] == FormatCell(k, row, formatTime, formatDate)
    {
      assert Columns[..i + 1] == Columns[..i] + [Columns[i]];
      formatted := formatted[Columns[i] := FormatCell(i, row, formatTime, formatDate)];
    }
    assert Columns[..|Columns|] == Columns;
  }

  /**
   * `results_to_table`: no results give an empty table titled "No Results";
   * otherwise a header row of column names and one formatted row per result,
   * in the order of the results.
   */
  method ResultsToTable(results: seq<Row>, formatTime: real -> string, formatDate: int -> string)
    returns (table: Table)
    ensures results == [] ==> table == Table(Some("No Results"), [])
    ensures results != [] ==> table.title == None && |table.rows| == |results| + 1 && table.rows[0] == Columns
    ensures results != [] ==> forall i :: 0 <= i < |results| ==>
      table.rows[i + 1] == FormattedCells(results[i], formatTime, formatDate)
  {
    if |results| == 0 {
      return Table(Some("No Results"), []);
    }
    var title := Columns;
    var rows := [title];
    for i := 0 to |results|
      invariant |rows| == i + 1 && rows[0] == Columns
      invariant forall j :: 0 <= j < i ==> rows[j + 1] == FormattedCells(results[j], formatTime, formatDate)
    {
      var formatted := FormatResult(results[i], formatTime, formatDate);
      var cells := seq(|title|, k requires 0 <= k < |title| => formatted[title[k]]);
      assert cells == FormattedCells(results[i], formatTime, formatDate);
      rows := rows + [cells];
    }
    table := Table(None, rows);
  }
}
