/**
 * What the loop of `run` (carpo/cli.py) guarantees across a whole batch:
 * one row per execution and nothing else added to the store, one event per
 * notebook in processing order, and the skip rule of `already_run`; then
 * the runs the test suite walks through, and the discrepancy between the
 * loop as written and the loop as intended.
 */
module RunProperties {
  import opened Common
  import opened Schema
  import opened GitHistory
  import opened Record
  import opened Cli

  /** The runs among the events, in order. */
  function Runs(log: seq<Event>): seq<NotebookRun>
  {
    if log == [] then []
    else (if log[0].Ran? then [log[0].outcome] else []) + Runs(log[1..])
  }

  lemma RunsCons(e: Event, log: seq<Event>)
    ensures Runs([e] + log) == (if e.Ran? then [e.outcome] else []) + Runs(log)
  {
    assert ([e] + log)[0] == e && ([e] + log)[1..] == log;
  }

  /** `row` is the record of `run`: its path, its success flag and the notebook's current sha. */
  predicate RowRecords(row: Row, run: NotebookRun, repos: map<string, Repo>)
  {
    && row.notebookPath == run.path
    && (row.success == 1 <==> run.success)
    && row.gitSha == GetGitInfo(GetGitRepo(repos, run.path)).sha
  }

  /** From position `from` on, `rows` holds exactly one record per run, in order. */
  predicate RecordsFrom(rows: seq<Row>, from: nat, runs: seq<NotebookRun>, repos: map<string, Repo>)
  {
    && |rows| == from + |runs|
    && forall k :: 0 <= k < |runs| ==> RowRecords(rows[from + k], runs[k], repos)
  }

  /** Appending one record in front of the records of the later runs. */
  lemma RecordsFromCons(rows: seq<Row>, from: nat, run: NotebookRun, runs: seq<NotebookRun>, repos: map<string, Repo>)
    requires from < |rows| && RowRecords(rows[from], run, repos)
    requires RecordsFrom(rows, from + 1, runs, repos)
    ensures RecordsFrom(rows, from, [run] + runs, repos)
  {
    forall k | 0 <= k < |[run] + runs|
      ensures RowRecords(rows[from + k], ([run] + runs)[k], repos)
    {
      if k > 0 {
        assert ([run] + runs)[k] == runs[k - 1];
        assert from + k == (from + 1) + (k - 1);
      }
    }
  }

  lemma PrefixThenLast<T>(rows: seq<T>, before: seq<T>, last: T)
    requires |before| < |rows| && rows[..|before| + 1] == before + [last]
    ensures rows[..|before|] == before && rows[|before|] == last
  {
    assert rows[|before|] == (rows[..|before| + 1])[|before|];
    assert rows[..|before|] == (rows[..|before| + 1])[..|before|];
  }

  /** What one pass does to the store: nothing when skipped or stopped, one record when it ran. */
  lemma StepRecords(st: BatchState, notebookPath: string, force: bool, repos: map<string, Repo>,
                    engine: Execution, runDate: int)
    ensures var step := StepOf(st, notebookPath, force, repos, engine, runDate);
      && (step.Stop? ==> step.state.rows == st.rows)
      && (step.Next? && step.event.Skipped? ==> step.state == st)
      && (step.Next? ==> step.event.Path() == notebookPath)
      && (step.Next? && step.event.Ran? ==>
            && |step.state.rows| == |st.rows| + 1
            && step.state.rows[..|st.rows|] == st.rows
            && RowRecords(step.state.rows[|st.rows|], step.event.outcome, repos))
  {
    var step := StepOf(st, notebookPath, force, repos, engine, runDate);
    if step.Next? && step.event.Ran? {
      var row := OutcomeRow(step.event.outcome, GetGitInfo(GetGitRepo(repos, notebookPath)), runDate);
      assert step.state.rows == st.rows + [row];
    }
  }

  /**
   * The store after a batch is the store before it followed by exactly one
   * row per executed notebook, in order, each recording that execution;
   * earlier rows are untouched.
   */
  lemma {:induction false} BatchRecordsEachRun(inv: Invocation, i: nat, st: BatchState)
    requires inv.WellFormed() && i <= |inv.order|
    ensures var out := BatchFrom(inv, i, st);
      RecordsFrom(out.state.rows, |st.rows|, Runs(out.log), inv.repos) && out.state.rows[..|st.rows|] == st.rows
    decreases |inv.order| - i
  {
    if i < |inv.order| {
      var step := StepOf(st, inv.order[i], inv.force, inv.repos, inv.engine[i], inv.clock[i]);
      StepRecords(st, inv.order[i], inv.force, inv.repos, inv.engine[i], inv.clock[i]);
      if step.Next? {
        var rest := BatchFrom(inv, i + 1, step.state);
        assert BatchFrom(inv, i, st) == Prepend([step.event], rest);
        BatchRecordsEachRun(inv, i + 1, step.state);
        RunsCons(step.event, rest.log);
        if step.event.Ran? {
          RecordsAfterRun(st.rows, step.state.rows, step.event.outcome, rest.state.rows, Runs(rest.log), inv.repos);
        }
      } else {
        assert st.rows[..|st.rows|] == st.rows;
      }
    }
  }

  /** The record of one run followed by the records of the later runs. */
  lemma RecordsAfterRun(before: seq<Row>, next: seq<Row>, run: NotebookRun, rows: seq<Row>,
                        runs: seq<NotebookRun>, repos: map<string, Repo>)
    requires |next| == |before| + 1 && next[..|before|] == before && RowRecords(next[|before|], run, repos)
    requires RecordsFrom(rows, |next|, runs, repos) && rows[..|next|] == next
    ensures RecordsFrom(rows, |before|, [run] + runs, repos) && rows[..|before|] == before
  {
    assert next == before + [next[|before|]];
    PrefixThenLast(rows, before, next[|before|]);
    RecordsFromCons(rows, |before|, run, runs, repos);
  }

  /**
   * The events follow the processing order one notebook each, and the log
   * reaches the end of the order exactly when no exception ended the run.
   */
  lemma {:induction false} BatchFollowsOrder(inv: Invocation, i: nat, st: BatchState)
    requires inv.WellFormed() && i <= |inv.order|
    ensures var out := BatchFrom(inv, i, st);
      && i + |out.log| <= |inv.order|
      && (forall j :: 0 <= j < |out.log| ==> out.log[j].Path() == inv.order[i + j])
      && (out.abort.None? <==> i + |out.log| == |inv.order|)
    decreases |inv.order| - i
  {
    if i < |inv.order| {
      var step := StepOf(st, inv.order[i], inv.force, inv.repos, inv.engine[i], inv.clock[i]);
      if step.Next? {
        var out := BatchFrom(inv, i, st);
        var rest := BatchFrom(inv, i + 1, step.state);
        assert out.log == [step.event] + rest.log && out.abort == rest.abort;
        BatchFollowsOrder(inv, i + 1, step.state);
        StepRecords(st, inv.order[i], inv.force, inv.repos, inv.engine[i], inv.clock[i]);
        forall j | 0 <= j < |out.log| ensures out.log[j].Path() == inv.order[i + j] {
          if j > 0 {
            assert out.log[j] == rest.log[j - 1] && i + j == (i + 1) + (j - 1);
          }
        }
      }
    }
  }

  /**
   * A pass over a path that does not exist stops the run with nothing
   * changed. A pass skips its notebook, changing nothing, exactly when the
   * path exists, `force` is off and the store holds a success of that
   * notebook at its current commit.
   */
  lemma StepSkipsExactlyWhenAlreadyRun(st: BatchState, notebookPath: string, force: bool, repos: map<string, Repo>,
                                       engine: Execution, runDate: int)
    ensures var step := StepOf(st, notebookPath, force, repos, engine, runDate);
      (step.Next? && step.event.Skipped?) <==>
        && notebookPath in st.files
        && !force
        && notebookPath in repos
        && exists i :: 0 <= i < |st.rows| && st.rows[i].success == 1
             && st.rows[i].notebookPath == notebookPath && st.rows[i].gitSha == repos[notebookPath].head
    ensures var step := StepOf(st, notebookPath, force, repos, engine, runDate);
      step.Next? && step.event.Skipped? ==> step == Next(st, Skipped(notebookPath))
    ensures notebookPath !in st.files ==>
      StepOf(st, notebookPath, force, repos, engine, runDate) == Stop(st, Git(NoSuchPath(notebookPath)))
  {
    var step := StepOf(st, notebookPath, force, repos, engine, runDate);
    assert step.Next? && step.event.Skipped? <==> notebookPath in st.files && Skips(st.rows, notebookPath, repos, force);
  }

  /** With `--force` nothing is skipped. */
  lemma {:induction false} ForceSkipsNothing(inv: Invocation, i: nat, st: BatchState)
    requires inv.WellFormed() && i <= |inv.order| && inv.force
    ensures forall e :: e in BatchFrom(inv, i, st).log ==> e.Ran?
    decreases |inv.order| - i
  {
    if i < |inv.order| {
      var step := StepOf(st, inv.order[i], inv.force, inv.repos, inv.engine[i], inv.clock[i]);
      if step.Next? {
        ForceSkipsNothing(inv, i + 1, step.state);
        assert step.event.Ran?;
      }
    }
  }

  /** A notebook outside every repository is never skipped: it runs each time. */
  lemma {:induction false} OutsideGitSkipsNothing(inv: Invocation, i: nat, st: BatchState)
    requires inv.WellFormed() && i <= |inv.order|
    requires forall j :: i <= j < |inv.order| ==> inv.order[j] !in inv.repos
    ensures forall e :: e in BatchFrom(inv, i, st).log ==> e.Ran?
    decreases |inv.order| - i
  {
    if i < |inv.order| {
      var step := StepOf(st, inv.order[i], inv.force, inv.repos, inv.engine[i], inv.clock[i]);
      if step.Next? {
        assert inv.order[i] !in inv.repos;
        OutsideGitSkipsNothing(inv, i + 1, step.state);
        assert step.event.Ran?;
      }
    }
  }

  /** A pass never removes a recorded success. */
  lemma StepKeepsAlreadyRun(st: BatchState, current: string, force: bool, repos: map<string, Repo>,
                            engine: Execution, runDate: int, notebookPath: string)
    requires AlreadyRunIn(st.rows, notebookPath, GetGitRepo(repos, notebookPath))
    ensures var step := StepOf(st, current, force, repos, engine, runDate);
      step.Next? ==> AlreadyRunIn(step.state.rows, notebookPath, GetGitRepo(repos, notebookPath))
  {
    var step := StepOf(st, current, force, repos, engine, runDate);
    StepRecords(st, current, force, repos, engine, runDate);
    if step.Next? && step.event.Ran? {
      var row := step.state.rows[|st.rows|];
      assert step.state.rows == st.rows + [row];
      AlreadyRunPersists(st.rows, [row], notebookPath, GetGitRepo(repos, notebookPath));
    }
  }

  /**
   * Every event from position `from` on of a log starting at pass `i` whose
   * notebook is `notebookPath` is a skip of it.
   */
  predicate LaterPassesSkipped(log: seq<Event>, order: seq<string>, i: nat, from: nat, notebookPath: string)
  {
    forall j {:trigger log[j]} :: from <= j < |log| && i + j < |order| && order[i + j] == notebookPath ==>
      log[j] == Skipped(notebookPath)
  }

  lemma LaterPassesSkippedCons(e: Event, rest: seq<Event>, order: seq<string>, i: nat, from: nat, notebookPath: string)
    requires i < |order|
    requires from == 0 && order[i] == notebookPath ==> e == Skipped(notebookPath)
    requires LaterPassesSkipped(rest, order, i + 1, if from == 0 then 0 else from - 1, notebookPath)
    ensures LaterPassesSkipped([e] + rest, order, i, from, notebookPath)
  {
    forall j | from <= j < |[e] + rest| && i + j < |order| && order[i + j] == notebookPath
      ensures ([e] + rest)[j] == Skipped(notebookPath)
    {
      if j > 0 {
        assert ([e] + rest)[j] == rest[j - 1] && i + j == (i + 1) + (j - 1);
      }
    }
  }

  /** Without `force`, a pass over a notebook already run at its current commit that does not stop skips it. */
  lemma StepSkipsAlreadyRun(st: BatchState, notebookPath: string, repos: map<string, Repo>,
                            engine: Execution, runDate: int)
    requires AlreadyRunIn(st.rows, notebookPath, GetGitRepo(repos, notebookPath))
    ensures StepOf(st, notebookPath, false, repos, engine, runDate).Next? ==>
      StepOf(st, notebookPath, false, repos, engine, runDate) == Next(st, Skipped(notebookPath))
  {
  }

  /** One pass of a batch that did not stop puts its event in front of the rest of the log. */
  lemma BatchNext(inv: Invocation, i: nat, st: BatchState)
    requires inv.WellFormed() && i < |inv.order|
    requires StepOf(st, inv.order[i], inv.force, inv.repos, inv.engine[i], inv.clock[i]).Next?
    ensures var step := StepOf(st, inv.order[i], inv.force, inv.repos, inv.engine[i], inv.clock[i]);
      BatchFrom(inv, i, st).log == [step.event] + BatchFrom(inv, i + 1, step.state).log
  {
  }

  /** A batch whose log is not empty did not stop at its first pass. */
  lemma BatchNonEmpty(inv: Invocation, i: nat, st: BatchState)
    requires inv.WellFormed() && i <= |inv.order| && BatchFrom(inv, i, st).log != []
    ensures i < |inv.order|
    ensures var step := StepOf(st, inv.order[i], inv.force, inv.repos, inv.engine[i], inv.clock[i]);
      step.Next? && BatchFrom(inv, i, st).log == [step.event] + BatchFrom(inv, i + 1, step.state).log
  {
  }

  /**
   * Once the store holds a success of `notebookPath` at its current commit,
   * every later pass of that notebook in a batch without `force` is skipped.
   */
  lemma {:induction false} AlreadyRunStaysSkipped(inv: Invocation, i: nat, st: BatchState, notebookPath: string)
    requires inv.WellFormed() && i <= |inv.order| && !inv.force
    requires AlreadyRunIn(st.rows, notebookPath, GetGitRepo(inv.repos, notebookPath))
    ensures LaterPassesSkipped(BatchFrom(inv, i, st).log, inv.order, i, 0, notebookPath)
    decreases |inv.order| - i
  {
    if i < |inv.order| {
      var step := StepOf(st, inv.order[i], inv.force, inv.repos, inv.engine[i], inv.clock[i]);
      if step.Next? {
        BatchNext(inv, i, st);
        assert inv.order[i] == notebookPath ==> step.event == Skipped(notebookPath) by {
          if inv.order[i] == notebookPath {
            StepSkipsAlreadyRun(st, notebookPath, inv.repos, inv.engine[i], inv.clock[i]);
          }
        }
        StepKeepsAlreadyRun(st, inv.order[i], inv.force, inv.repos, inv.engine[i], inv.clock[i], notebookPath);
        AlreadyRunStaysSkipped(inv, i + 1, step.state, notebookPath);
        LaterPassesSkippedCons(step.event, BatchFrom(inv, i + 1, step.state).log, inv.order, i, 0, notebookPath);
      }
    }
  }

  /** A successful pass of a notebook inside git marks it as already run. */
  lemma StepSuccessMarksAlreadyRun(st: BatchState, notebookPath: string, force: bool, repos: map<string, Repo>,
                                   engine: Execution, runDate: int)
    requires notebookPath in repos
    ensures var step := StepOf(st, notebookPath, force, repos, engine, runDate);
      step.Next? && step.event.Ran? && step.event.outcome.success ==>
        AlreadyRunIn(step.state.rows, notebookPath, GetGitRepo(repos, notebookPath))
  {
    var step := StepOf(st, notebookPath, force, repos, engine, runDate);
    if step.Next? && step.event.Ran? && step.event.outcome.success {
      var repo := repos[notebookPath];
      assert step.event.outcome.path == notebookPath;
      assert step.state.rows == st.rows + [OutcomeRow(step.event.outcome, GetGitInfo(Some(repo)), runDate)];
      SuccessMarksAlreadyRun(st.rows, step.event.outcome, repo, runDate);
    }
  }

  /**
   * The log of a batch from pass `i` is the events of passes `i` to `j`
   * followed by the log of the same batch from pass `j`, started in the
   * state those passes left.
   */
  lemma {:induction false} BatchSuffix(inv: Invocation, i: nat, st: BatchState, j: nat)
    returns (before: seq<Event>, mid: BatchState)
    requires inv.WellFormed() && i <= |inv.order| && i <= j && j - i <= |BatchFrom(inv, i, st).log|
    ensures j <= |inv.order| && |before| == j - i
    ensures BatchFrom(inv, i, st).log == before + BatchFrom(inv, j, mid).log
    decreases j - i
  {
    BatchFollowsOrder(inv, i, st);
    if i == j {
      before, mid := [], st;
    } else {
      BatchNonEmpty(inv, i, st);
      var step := StepOf(st, inv.order[i], inv.force, inv.repos, inv.engine[i], inv.clock[i]);
      var rest;
      rest, mid := BatchSuffix(inv, i + 1, step.state, j);
      before := [step.event] + rest;
      assert [step.event] + (rest + BatchFrom(inv, j, mid).log) == ([step.event] + rest) + BatchFrom(inv, j, mid).log;
    }
  }

  /** Lifting `LaterPassesSkipped` over the events `before` of the passes from `start` to `j`. */
  lemma LaterPassesSkippedAfter(before: seq<Event>, after: seq<Event>, order: seq<string>,
                                start: nat, j: nat, notebookPath: string)
    requires start <= j && |before| == j - start
    requires LaterPassesSkipped(after, order, j, 1, notebookPath)
    ensures LaterPassesSkipped(before + after, order, start, j - start + 1, notebookPath)
  {
    var log := before + after;
    var k := |before|;
    forall n | k + 1 <= n < |log| && start + n < |order| && order[start + n] == notebookPath
      ensures log[n] == Skipped(notebookPath)
    {
      assert log[n] == after[n - k] && start + n == j + (n - k);
    }
  }

  /**
   * A batch whose first pass `i` runs a notebook inside git successfully
   * skips every later pass of it when `force` is off.
   */
  lemma SuccessSkipsNext(inv: Invocation, i: nat, st: BatchState)
    requires inv.WellFormed() && i < |inv.order| && !inv.force && inv.order[i] in inv.repos
    requires var log := BatchFrom(inv, i, st).log; log != [] && log[0].Ran? && log[0].outcome.success
    ensures LaterPassesSkipped(BatchFrom(inv, i, st).log, inv.order, i, 1, inv.order[i])
  {
    BatchNonEmpty(inv, i, st);
    var step := StepOf(st, inv.order[i], inv.force, inv.repos, inv.engine[i], inv.clock[i]);
    StepSuccessMarksAlreadyRun(st, inv.order[i], inv.force, inv.repos, inv.engine[i], inv.clock[i]);
    AlreadyRunStaysSkipped(inv, i + 1, step.state, inv.order[i]);
    LaterPassesSkippedCons(step.event, BatchFrom(inv, i + 1, step.state).log, inv.order, i, 1, inv.order[i]);
  }

  /**
   * A batch whose log from pass `start` is `full`, whose pass `j` runs a
   * notebook inside git successfully, skips every later pass of that
   * notebook when `force` is off; `before` are the events ahead of pass `j`
   * and `st` the state they left.
   */
  lemma SuccessSkipsRest(inv: Invocation, start: nat, j: nat, st: BatchState, before: seq<Event>, full: seq<Event>)
    requires inv.WellFormed() && start <= j < |inv.order| && !inv.force && inv.order[j] in inv.repos
    requires |before| == j - start && full == before + BatchFrom(inv, j, st).log
    requires j - start < |full| && full[j - start].Ran? && full[j - start].outcome.success
    ensures LaterPassesSkipped(full, inv.order, start, j - start + 1, inv.order[j])
  {
    var log := BatchFrom(inv, j, st).log;
    assert log != [] && log[0] == full[j - start];
    SuccessSkipsNext(inv, j, st);
    LaterPassesSkippedAfter(before, log, inv.order, start, j, inv.order[j]);
  }

  /**
   * Within one batch without `force`, after pass `j` ran a notebook inside
   * git successfully, every later pass of the same notebook is skipped.
   */
  lemma SuccessSkipsLaterPasses(inv: Invocation, i: nat, st: BatchState, j: nat)
    requires inv.WellFormed() && i <= j < |inv.order| && !inv.force && inv.order[j] in inv.repos
    requires var out := BatchFrom(inv, i, st);
      j - i < |out.log| && out.log[j - i].Ran? && out.log[j - i].outcome.success
    ensures LaterPassesSkipped(BatchFrom(inv, i, st).log, inv.order, i, j - i + 1, inv.order[j])
  {
    var before, mid := BatchSuffix(inv, i, st, j);
    SuccessSkipsRest(inv, i, j, mid, before, BatchFrom(inv, i, st).log);
  }

  /** A batch of one notebook is its single pass. */
  lemma SingleBatch(notebookPath: string, st: BatchState, force: bool, repos: map<string, Repo>,
                    engine: Execution, runDate: int)
    ensures BatchFrom(Invocation([notebookPath], force, repos, [engine], [runDate]), 0, st)
         == match StepOf(st, notebookPath, force, repos, engine, runDate)
            case Stop(next, e) => BatchOutcome(next, [], Some(e))
            case Next(next, event) => BatchOutcome(next, [event], None)
  {
  }

  /** A notebook with no row in the store has not run at any commit. */
  lemma NewNotebookNotRun(rows: seq<Row>, notebookPath: string, repo: Option<Repo>)
    requires forall k :: 0 <= k < |rows| ==> rows[k].notebookPath != notebookPath
    ensures !AlreadyRunIn(rows, notebookPath, repo)
  {
  }

  /** `run` on the single notebook `p`. */
  function RunOne(p: string, force: bool, repos: map<string, Repo>, engine: Execution, runDate: int, st: BatchState): BatchOutcome
  {
    BatchFrom(Invocation([p], force, repos, [engine], [runDate]), 0, st)
  }

  /**
   * A notebook that is not skipped and completes is reported as a success,
   * recorded, and its output written back.
   */
  lemma RunOneCompleted(p: string, force: bool, repos: map<string, Repo>, output: Document, elapsed: real,
                        runDate: int, st: BatchState)
    requires p in st.files && !Skips(st.rows, p, repos, force)
    ensures var run := NotebookRun(p, true, elapsed, "");
      RunOne(p, force, repos, Completed(output, elapsed), runDate, st)
        == BatchOutcome(BatchState(st.rows + [OutcomeRow(run, GetGitInfo(GetGitRepo(repos, p)), runDate)],
                                   st.files[p := output]),
                        [Ran(run)], None)
  {
    SingleBatch(p, st, force, repos, Completed(output, elapsed), runDate);
  }

  /**
   * A notebook that is not skipped and raises is reported as a failure with
   * the error text, recorded, and its file left as it was.
   */
  lemma RunOneRaised(p: string, force: bool, repos: map<string, Repo>, text: string, elapsed: real,
                     runDate: int, st: BatchState)
    requires p in st.files && !Skips(st.rows, p, repos, force)
    ensures var run := NotebookRun(p, false, elapsed, text);
      RunOne(p, force, repos, Raised(text, elapsed), runDate, st)
        == BatchOutcome(BatchState(st.rows + [OutcomeRow(run, GetGitInfo(GetGitRepo(repos, p)), runDate)], st.files),
                        [Ran(run)], None)
  {
    SingleBatch(p, st, force, repos, Raised(text, elapsed), runDate);
  }

  /**
   * A notebook file that is there and already ran at its current commit is
   * skipped without `force`, whatever the engine would do.
   */
  lemma RunOneSkipped(p: string, repos: map<string, Repo>, engine: Execution, runDate: int, st: BatchState)
    requires p in st.files && AlreadyRunIn(st.rows, p, GetGitRepo(repos, p))
    ensures RunOne(p, false, repos, engine, runDate, st) == BatchOutcome(st, [Skipped(p)], None)
  {
    SingleBatch(p, st, false, repos, engine, runDate);
  }

  /**
   * A notebook path that does not exist stops the run in the repository
   * lookup, with or without `force`: nothing is executed or recorded.
   */
  lemma RunOneMissing(p: string, force: bool, repos: map<string, Repo>, engine: Execution, runDate: int, st: BatchState)
    requires p !in st.files
    ensures RunOne(p, force, repos, engine, runDate, st) == BatchOutcome(st, [], Some(Git(NoSuchPath(p))))
  {
    SingleBatch(p, st, force, repos, engine, runDate);
  }

  /**
   * A notebook whose only row was recorded at another commit has not run at
   * the current one.
   */
  lemma NotRunAtNewCommit(rows: seq<Row>, row: Row, notebookPath: string, repo: Repo)
    requires forall k :: 0 <= k < |rows| ==> rows[k].notebookPath != notebookPath
    requires row.gitSha != repo.head
    ensures !AlreadyRunIn(rows + [row], notebookPath, Some(repo))
  {
    var all := rows + [row];
    assert forall k :: 0 <= k < |all| && all[k].notebookPath == notebookPath ==> k == |rows|;
  }

  /**
   * The scenario of test/test_carpo.py:46-58, for a new notebook inside git:
   * the first run executes it; after an edit that is not committed the
   * second run skips it and the edit stays in the file; after a new commit
   * the third run executes it again.
   */
  lemma RerunAfterNewCommit(p: string, rows: seq<Row>, files: map<string, Document>, edited: Document,
                            repo: Repo, newHead: Sha, out1: Document, out3: Document, e2: Execution,
                            t1: real, t3: real, d1: int, d2: int, d3: int)
    requires p in files
    requires forall k :: 0 <= k < |rows| ==> rows[k].notebookPath != p
    requires newHead != repo.head
    ensures var before := map[p := repo];
      var first := RunOne(p, false, before, Completed(out1, t1), d1, BatchState(rows, files));
      var second := RunOne(p, false, before, e2, d2, BatchState(first.state.rows, first.state.files[p := edited]));
      var third := RunOne(p, false, map[p := repo.(head := newHead)], Completed(out3, t3), d3, second.state);
      && first.log == [Ran(NotebookRun(p, true, t1, ""))] && first.state.files == files[p := out1]
      && second.log == [Skipped(p)] && second.state.files == first.state.files[p := edited]
      && third.log == [Ran(NotebookRun(p, true, t3, ""))] && third.state.files == second.state.files[p := out3]
  {
    var before := map[p := repo];
    var after := map[p := repo.(head := newHead)];
    var run1 := NotebookRun(p, true, t1, "");
    var rows2 := rows + [OutcomeRow(run1, GetGitInfo(Some(repo)), d1)];
    var st2 := BatchState(rows2, files[p := out1][p := edited]);
    assert GetGitRepo(before, p) == Some(repo) && GetGitRepo(after, p) == Some(repo.(head := newHead));
    NewNotebookNotRun(rows, p, Some(repo));
    RunOneCompleted(p, false, before, out1, t1, d1, BatchState(rows, files));
    SuccessMarksAlreadyRun(rows, run1, repo, d1);
    RunOneSkipped(p, before, e2, d2, st2);
    NotRunAtNewCommit(rows, OutcomeRow(run1, GetGitInfo(Some(repo)), d1), p, repo.(head := newHead));
    RunOneCompleted(p, false, after, out3, t3, d3, st2);
  }

  /**
   * The scenario of test/test_carpo.py:60-76, for a new notebook inside git
   * whose first version raises: the failure is recorded and the file kept;
   * the next run executes it again and succeeds; the run after that skips
   * it; a forced run executes it once more.
   */
  lemma FailureRerunsUntilSuccess(p: string, rows: seq<Row>, files: map<string, Document>, repo: Repo,
                                  text: string, input2: Document, out2: Document, input3: Document,
                                  e3: Execution, out4: Document, t1: real, t2: real, t4: real,
                                  d1: int, d2: int, d3: int, d4: int)
    requires p in files
    requires forall k :: 0 <= k < |rows| ==> rows[k].notebookPath != p
    ensures var repos := map[p := repo];
      var first := RunOne(p, false, repos, Raised(text, t1), d1, BatchState(rows, files));
      var second := RunOne(p, false, repos, Completed(out2, t2), d2,
                           BatchState(first.state.rows, first.state.files[p := input2]));
      var third := RunOne(p, false, repos, e3, d3, BatchState(second.state.rows, second.state.files[p := input3]));
      var fourth := RunOne(p, true, repos, Completed(out4, t4), d4, third.state);
      && first.log == [Ran(NotebookRun(p, false, t1, text))] && first.state.files == files
      && second.log == [Ran(NotebookRun(p, true, t2, ""))] && second.state.files == files[p := input2][p := out2]
      && third.log == [Skipped(p)] && third.state.files == second.state.files[p := input3]
      && fourth.log == [Ran(NotebookRun(p, true, t4, ""))] && fourth.state.files == third.state.files[p := out4]
  {
    var repos := map[p := repo];
    assert GetGitRepo(repos, p) == Some(repo);
    var row1 := OutcomeRow(NotebookRun(p, false, t1, text), GetGitInfo(Some(repo)), d1);
    var rows2 := rows + [row1];
    var st2 := BatchState(rows2, files[p := input2]);
    NewNotebookNotRun(rows, p, Some(repo));
    RunOneRaised(p, false, repos, text, t1, d1, BatchState(rows, files));
    var run2 := NotebookRun(p, true, t2, "");
    var rows3 := rows2 + [OutcomeRow(run2, GetGitInfo(Some(repo)), d2)];
    FailureNeverBlocks(rows, row1, p, Some(repo));
    RunOneCompleted(p, false, repos, out2, t2, d2, st2);
    var st3 := BatchState(rows3, st2.files[p := out2][p := input3]);
    SuccessMarksAlreadyRun(rows2, run2, repo, d2);
    RunOneSkipped(p, repos, e3, d3, st3);
    RunOneCompleted(p, true, repos, out4, t4, d4, st3);
  }

  /**
   * The scenario of test/test_carpo.py:38-44, for a notebook outside git: it
   * is executed on every run, and each run writes its own output.
   */
  lemma OutsideGitRunsEveryTime(p: string, st: BatchState, repos: map<string, Repo>, input: Document,
                                out1: Document, out2: Document, t1: real, t2: real, d1: int, d2: int)
    requires p in st.files && p !in repos
    ensures var first := RunOne(p, false, repos, Completed(out1, t1), d1, st);
      var second := RunOne(p, false, repos, Completed(out2, t2), d2, BatchState(first.state.rows, first.state.files[p := input]));
      && first.log == [Ran(NotebookRun(p, true, t1, ""))] && first.state.files == st.files[p := out1]
      && second.log == [Ran(NotebookRun(p, true, t2, ""))] && second.state.files == first.state.files[p := input][p := out2]
  {
    RunOneCompleted(p, false, repos, out1, t1, d1, st);
    var first := RunOne(p, false, repos, Completed(out1, t1), d1, st);
    RunOneCompleted(p, false, repos, out2, t2, d2, BatchState(first.state.rows, first.state.files[p := input]));
  }

  /**
   * What test/test_carpo.py:25-27 expects of a new notebook, which the
   * intended loop does and the loop as written does not: the notebook is
   * executed and its output written.
   */
  lemma AsWrittenRunExecutesNothing(p: string, st: BatchState, repos: map<string, Repo>, out: Document, t: real, d: int)
    requires p in st.files && p !in repos
    ensures var inv := Invocation([p], false, repos, [Completed(out, t)], [d]);
      BatchAsWritten(inv, st).log == [] && BatchAsWritten(inv, st).state.files == st.files
    ensures var intended := RunOne(p, false, repos, Completed(out, t), d, st);
      intended.log == [Ran(NotebookRun(p, true, t, ""))] && intended.state.files == st.files[p := out]
  {
    RunOneCompleted(p, false, repos, out, t, d, st);
  }

  /**
   * The scenario of test/test_carpo.py:29-36: one run over two new
   * notebooks executes both, writes both outputs, and records both
   * successes in order, inside git or not.
   */
  lemma RunsEveryNewNotebook(p1: string, p2: string, rows: seq<Row>, files: map<string, Document>,
                             repos: map<string, Repo>, out1: Document, out2: Document,
                             t1: real, t2: real, d1: int, d2: int)
    requires p1 != p2 && p1 in files && p2 in files
    requires forall k :: 0 <= k < |rows| ==> rows[k].notebookPath != p1 && rows[k].notebookPath != p2
    ensures var inv := Invocation([p1, p2], false, repos, [Completed(out1, t1), Completed(out2, t2)], [d1, d2]);
      var out := BatchFrom(inv, 0, BatchState(rows, files));
      && out.log == [Ran(NotebookRun(p1, true, t1, "")), Ran(NotebookRun(p2, true, t2, ""))]
      && out.abort.None?
      && out.state.files == files[p1 := out1][p2 := out2]
      && |out.state.rows| == |rows| + 2 && out.state.rows[..|rows|] == rows
      && RowRecords(out.state.rows[|rows|], NotebookRun(p1, true, t1, ""), repos)
      && RowRecords(out.state.rows[|rows| + 1], NotebookRun(p2, true, t2, ""), repos)
      && out.state.rows[|rows|].runDate == d1 && out.state.rows[|rows| + 1].runDate == d2
  {
    var inv := Invocation([p1, p2], false, repos, [Completed(out1, t1), Completed(out2, t2)], [d1, d2]);
    var run1 := NotebookRun(p1, true, t1, "");
    var run2 := NotebookRun(p2, true, t2, "");
    var row1 := OutcomeRow(run1, GetGitInfo(GetGitRepo(repos, p1)), d1);
    var rows2 := rows + [row1];
    var st2 := BatchState(rows2, files[p1 := out1]);
    NewNotebookNotRun(rows, p1, GetGitRepo(repos, p1));
    assert StepOf(BatchState(rows, files), p1, false, repos, Completed(out1, t1), d1) == Next(st2, Ran(run1));
    assert forall k :: 0 <= k < |rows2| ==> rows2[k].notebookPath != p2;
    NewNotebookNotRun(rows2, p2, GetGitRepo(repos, p2));
    var row2 := OutcomeRow(run2, GetGitInfo(GetGitRepo(repos, p2)), d2);
    var st3 := BatchState(rows2 + [row2], st2.files[p2 := out2]);
    assert StepOf(st2, p2, false, repos, Completed(out2, t2), d2) == Next(st3, Ran(run2));
    assert BatchFrom(inv, 1, st2) == Prepend([Ran(run2)], BatchOutcome(st3, [], None));
    assert BatchFrom(inv, 0, BatchState(rows, files)) == Prepend([Ran(run1)], BatchFrom(inv, 1, st2));
    assert (rows2 + [row2])[..|rows|] == rows;
  }
}
