/**
 * The run-history store of carpo/record.py: the database file, the
 * `Records` object that opens it, appends outcomes and answers the two
 * queries (`already_run`, `status`). The sqlite file is modelled by `Store`:
 * whether it exists and the rows of its one table.
 */
module Record {
  import opened Common
  import opened Sorting
  import opened Schema
  import opened GitHistory

  /** The database file at one location. */
  class Store {
    /** Whether the file exists. */
    var present: bool
    /** The rows of table `notebooks`, in insertion order. */
    var rows: seq<Row>

    /** No file at the location yet. */
    constructor Missing()
      ensures !present && rows == []
    {
      present, rows := false, [];
    }

    /** A file written by an earlier run, holding `rows`. */
    constructor Existing(rows: seq<Row>)
      ensures present && this.rows == rows
    {
      present, this.rows := true, rows;
    }
  }

  /** The rows of one notebook: `WHERE notebook_path=?`. */
  function PathIs(notebookPath: string): Row -> bool
  {
    (r: Row) => r.notebookPath == notebookPath
  }

  /** `WHERE success=1 AND notebook_path=? AND git_sha=?`. */
  function SucceededAt(notebookPath: string, sha: string): Row -> bool
  {
    (r: Row) => r.success == 1 && r.notebookPath == notebookPath && r.gitSha == sha
  }

  /** The sort key of `ORDER BY run_date`. */
  function RunDateKey(): Row -> int
  {
    (r: Row) => r.runDate
  }

  /** `LIMIT n`. */
  function Limit<T>(s: seq<T>, n: nat): (r: seq<T>)
    ensures |r| == if |s| <= n then |s| else n
    ensures r == s[..|r|]
  {
    if |s| <= n then s else s[..n]
  }

  /**
   * The row `record_outcome` inserts: the outcome's path, the git facts of
   * that path, `int(success)`, the run time and the supplied clock reading.
   */
  function OutcomeRow(outcome: NotebookRun, info: GitInfo, runDate: int): (row: Row)
    ensures row.success == 0 || row.success == 1
    ensures row.success == 1 <==> outcome.success
    ensures row.notebookPath == outcome.path && row.gitSha == info.sha && row.gitRoot == info.root
    ensures row.time == outcome.runTime && row.runDate == runDate
  {
    Row(outcome.path, info.sha, info.root, if outcome.success then 1 else 0, outcome.runTime, runDate)
  }

  /**
   * `already_run` over the rows `rows`: false when the notebook is outside
   * git (empty sha); otherwise true exactly when some row records a success
   * of this path at the current sha.
   */
  function AlreadyRunIn(rows: seq<Row>, notebookPath: string, repo: Option<Repo>): (b: bool)
    ensures GetGitInfo(repo).sha == "" ==> !b
    ensures b <==>
              && repo.Some?
              && exists i :: 0 <= i < |rows| && rows[i].success == 1
                   && rows[i].notebookPath == notebookPath && rows[i].gitSha == repo.value.head
  {
    var sha := GetGitInfo(repo).sha;
    if sha == "" then false
    else
      FilterIsEmpty(rows, SucceededAt(notebookPath, sha));
      Limit(Filter(rows, SucceededAt(notebookPath, sha)), 1) != []
  }

  /**
   * The rows `status` shows, before formatting: the notebook's rows newest
   * run date first (ties in insertion order), then arranged by the branch
   * history as `sort_git_shas` does.
   */
  function ShownRows(rows: seq<Row>, notebookPath: string, repo: Option<Repo>, branch: string): (r: Result<seq<Row>, GitError>)
    ensures repo.None? ==> r.Ok?
    ensures repo.Some? ==> (r.Ok? <==> branch in repo.value.branches)
  {
    GitOrder(repo, SortBy(Filter(rows, PathIs(notebookPath)), RunDateKey(), IntGe()), branch)
  }

  /** The access object over one database file. */
  class Records {
    const db: Store

    /** The table exists once a `Records` is open. */
    ghost predicate Valid()
      reads db
    {
      db.present
    }

    /**
     * `Records(path)`: opens the store and creates the table when the file
     * did not exist; rows already stored are kept.
     */
    constructor (db: Store)
      modifies db
      ensures this.db == db && Valid()
      ensures db.rows == if old(db.present) then old(db.rows) else []
    {
      this.db := db;
      new;
      CreateTable();
    }

    /** `_create_table`: creates the empty table only if the file does not exist. */
    method CreateTable()
      modifies db
      ensures db.present
      ensures db.rows == if old(db.present) then old(db.rows) else []
    {
      if !db.present {
        db.present := true;
        db.rows := [];
      }
    }

    /**
     * `record_outcome`: appends exactly one row and leaves every earlier row
     * as it was. The git facts come from `repos`, the clock from `runDate`.
     */
    method RecordOutcome(outcome: NotebookRun, repos: map<string, Repo>, runDate: int)
      requires Valid()
      modifies db
      ensures Valid()
      ensures db.rows == old(db.rows) + [OutcomeRow(outcome, GetGitInfo(GetGitRepo(repos, outcome.path)), runDate)]
    {
      var info := GetGitInfo(GetGitRepo(repos, outcome.path));
      var row := OutcomeRow(outcome, info, runDate);
      db.rows := db.rows + [row];
    }

    /**
     * `already_run(notebook_path)` against the current contents of the store;
     * `onDisk` is the set of existing paths. The git lookup comes first, so a
     * path that does not exist raises.
     */
    function AlreadyRun(notebookPath: string, repos: map<string, Repo>, onDisk: set<string>): (r: Result<bool, GitError>)
      reads db
      ensures notebookPath !in onDisk ==> r == Err(NoSuchPath(notebookPath))
      ensures notebookPath in onDisk ==> r == Ok(AlreadyRunIn(db.rows, notebookPath, GetGitRepo(repos, notebookPath)))
      ensures notebookPath !in repos ==> r != Ok(true)
    {
      match FindRepo(repos, onDisk, notebookPath)
      case Err(e) => Err(e)
      case Ok(repo) => Ok(AlreadyRunIn(db.rows, notebookPath, repo))
    }

    /**
     * `status(notebook_path, branch)`: the table of the notebook's rows in
     * the order of `ShownRows`, titled with the path; an error when the path
     * does not exist (`onDisk` is the set of existing paths) or the branch
     * does not exist in the notebook's repository.
     */
    method Status(notebookPath: string, repos: map<string, Repo>, onDisk: set<string>, branch: string,
                  formatTime: real -> string, formatDate: int -> string)
      returns (r: Result<Table, GitError>)
      requires Valid()
      ensures notebookPath !in onDisk ==> r == Err(NoSuchPath(notebookPath))
      ensures var shown := ShownRows(db.rows, notebookPath, GetGitRepo(repos, notebookPath), branch);
        notebookPath in onDisk ==>
          && (r.Ok? <==> shown.Ok?)
          && (r.Ok? ==> r.value.title == Some(notebookPath))
          && (r.Ok? && shown.value == [] ==> r.value.rows == [])
          && (r.Ok? && shown.value != [] ==>
                && |r.value.rows| == |shown.value| + 1
                && r.value.rows[0] == Columns
                && (forall i :: 0 <= i < |shown.value| ==>
                      r.value.rows[i + 1] == FormattedCells(shown.value[i], formatTime, formatDate)))
    {
      var results := SortBy(Filter(db.rows, PathIs(notebookPath)), RunDateKey(), IntGe());
      var sorted := SortGitShas(repos, onDisk, notebookPath, results, branch);
      if sorted.Err? {
        return Err(sorted.error);
      }
      var table := ResultsToTable(sorted.value, formatTime, formatDate);
      r := Ok(table.(title := Some(notebookPath)));
    }
  }

  /** A recorded failure never makes a later `already_run` true. */
  lemma FailureNeverBlocks(rows: seq<Row>, row: Row, notebookPath: string, repo: Option<Repo>)
    requires row.success == 0
    ensures AlreadyRunIn(rows + [row], notebookPath, repo) == AlreadyRunIn(rows, notebookPath, repo)
  {
    var all := rows + [row];
    if AlreadyRunIn(all, notebookPath, repo) {
      var i :| 0 <= i < |all| && all[i].success == 1 && all[i].notebookPath == notebookPath
        && all[i].gitSha == repo.value.head;
      assert i < |rows|;
      assert rows[i] == all[i];
    } else if AlreadyRunIn(rows, notebookPath, repo) {
      AlreadyRunPersists(rows, [row], notebookPath, repo);
    }
  }

  /** Recording more outcomes never turns a true `already_run` false. */
  lemma AlreadyRunPersists(rows: seq<Row>, more: seq<Row>, notebookPath: string, repo: Option<Repo>)
    requires AlreadyRunIn(rows, notebookPath, repo)
    ensures AlreadyRunIn(rows + more, notebookPath, repo)
  {
    var i :| 0 <= i < |rows| && rows[i].success == 1 && rows[i].notebookPath == notebookPath
      && rows[i].gitSha == repo.value.head;
    assert (rows + more)[i] == rows[i];
  }

  /**
   * After a successful outcome is recorded for a notebook inside git, the
   * notebook counts as already run at that commit.
   */
  lemma SuccessMarksAlreadyRun(rows: seq<Row>, outcome: NotebookRun, repo: Repo, runDate: int)
    requires outcome.success
    ensures AlreadyRunIn(rows + [OutcomeRow(outcome, GetGitInfo(Some(repo)), runDate)], outcome.path, Some(repo))
  {
    var all := rows + [OutcomeRow(outcome, GetGitInfo(Some(repo)), runDate)];
    assert all[|rows|].success == 1;
  }

  /**
   * The store does not deduplicate: recording the same row twice stores it
   * twice, and gives the same `already_run` answer as recording it once.
   */
  lemma RecordingTwiceSameAnswer(rows: seq<Row>, row: Row, notebookPath: string, repo: Option<Repo>)
    ensures multiset(rows + [row] + [row])[row] == multiset(rows)[row] + 2
    ensures AlreadyRunIn(rows + [row] + [row], notebookPath, repo) == AlreadyRunIn(rows + [row], notebookPath, repo)
  {
    var once := rows + [row];
    var twice := once + [row];
    assert multiset(twice) == multiset(rows) + multiset{row, row};
    if AlreadyRunIn(twice, notebookPath, repo) {
      var i :| 0 <= i < |twice| && twice[i].success == 1 && twice[i].notebookPath == notebookPath
        && twice[i].gitSha == repo.value.head;
      var j := if i < |once| then i else |rows|;
      assert once[j] == twice[i];
    } else if AlreadyRunIn(once, notebookPath, repo) {
      AlreadyRunPersists(once, [row], notebookPath, repo);
    }
  }

  /**
   * `status` shows exactly the notebook's rows: each row of that path as
   * many times as it is stored, and no row of another path.
   */
  lemma ShownRowsAreThePathRows(rows: seq<Row>, notebookPath: string, repo: Option<Repo>, branch: string, x: Row)
    requires ShownRows(rows, notebookPath, repo, branch).Ok?
    ensures multiset(ShownRows(rows, notebookPath, repo, branch).value)[x]
         == if x.notebookPath == notebookPath then multiset(rows)[x] else 0
  {
    var results := SortBy(Filter(rows, PathIs(notebookPath)), RunDateKey(), IntGe());
    FilterCount(rows, PathIs(notebookPath), x);
    if repo.Some? {
      HistoryOrderPermutation(repo.value.branches[branch], results);
    }
  }

  /**
   * Within one sha the rows `status` shows are newest run date first; outside
   * git all of them are.
   */
  lemma ShownRowsNewestFirst(rows: seq<Row>, notebookPath: string, repo: Option<Repo>, branch: string, sha: string)
    requires ShownRows(rows, notebookPath, repo, branch).Ok?
    ensures SortedBy(Filter(ShownRows(rows, notebookPath, repo, branch).value, ShaIs(sha)), RunDateKey(), IntGe())
    ensures repo.None? ==> SortedBy(ShownRows(rows, notebookPath, repo, branch).value, RunDateKey(), IntGe())
  {
    var results := SortBy(Filter(rows, PathIs(notebookPath)), RunDateKey(), IntGe());
    IntOrdersAreTotalPreorders();
    SortBySorted(Filter(rows, PathIs(notebookPath)), RunDateKey(), IntGe());
    FilterSorted(results, ShaIs(sha), RunDateKey(), IntGe());
    if repo.Some? {
      HistoryOrderStable(repo.value.branches[branch], results, sha);
    }
  }
}
