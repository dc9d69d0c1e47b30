/**
 * The command `run` of carpo/cli.py: the notebooks are taken in sorted
 * order (or a supplied shuffle), each one is skipped when it already ran
 * successfully at its current commit and `--force` is off, and otherwise it
 * is executed and exactly one outcome is recorded. The notebook engine and
 * the clock are oracles handed in by the caller: `engine[i]` and `clock[i]`
 * are what executing the i-th notebook of the processing order yields.
 */
module Cli {
  import opened Common
  import opened Sorting
  import opened Schema
  import opened GitHistory
  import opened Record
  import Paths

  /** The text of a notebook file. */
  type Document = string

  /** What the notebook engine does with one notebook. */
  datatype Execution =
    | Completed(output: Document, elapsed: real)
    | Raised(text: string, elapsed: real)
    | Interrupted

  /**
   * The exceptions that end the whole run: the two that escape
   * `execute_notebook`, a GitPython error of the repository lookup, and the
   * AttributeError of looking up a method `Records` does not have.
   */
  datatype Abort = KeyboardInterrupt | FileNotFound(path: string) | Git(error: GitError) | AttributeError(name: string)

  /** The `(success, run_time, msg)` triple of `execute_notebook`. */
  datatype Attempt = Attempt(success: bool, runTime: real, msg: string)

  /** The result of one execution and the notebook files afterwards. */
  datatype Executed = Executed(attempt: Result<Attempt, Abort>, files: map<string, Document>)

  /** The notebook files on disk. */
  class Workspace {
    var files: map<string, Document>

    constructor (files: map<string, Document>)
      ensures this.files == files
    {
      this.files := files;
    }
  }

  /**
   * `execute_notebook` as a function of the files and the engine: a missing
   * file raises before execution; an interrupt propagates; an exception is a
   * failure whose message is the exception text, and the file is left as it
   * was; a completed run succeeds with an empty message and overwrites the
   * file with the executed notebook.
   */
  function Execute(files: map<string, Document>, notebookPath: string, engine: Execution): (r: Executed)
    ensures notebookPath !in files ==> r == Executed(Err(FileNotFound(notebookPath)), files)
    ensures notebookPath in files ==> (r.attempt.Err? <==> engine.Interrupted?)
    ensures notebookPath in files && engine.Interrupted? ==> r.attempt == Err(KeyboardInterrupt)
    ensures r.attempt.Err? ==> r.files == files
    ensures r.attempt.Ok? ==> (r.attempt.value.success <==> engine.Completed?)
    ensures r.attempt.Ok? ==> r.attempt.value.runTime == engine.elapsed
    ensures r.attempt.Ok? && r.attempt.value.success ==>
      r.attempt.value.msg == "" && r.files == files[notebookPath := engine.output]
    ensures r.attempt.Ok? && !r.attempt.value.success ==>
      r.attempt.value.msg == engine.text && r.files == files
  {
    if notebookPath !in files then Executed(Err(FileNotFound(notebookPath)), files)
    else
      match engine
      case Interrupted => Executed(Err(KeyboardInterrupt), files)
      case Raised(text, elapsed) => Executed(Ok(Attempt(false, elapsed, text)), files)
      case Completed(output, elapsed) => Executed(Ok(Attempt(true, elapsed, "")), files[notebookPath := output])
  }

  /** `execute_notebook(notebook_path)`: reads the file, runs the engine, writes back on success. */
  method ExecuteNotebook(ws: Workspace, notebookPath: string, engine: Execution)
    returns (attempt: Result<Attempt, Abort>)
    modifies ws
    ensures Executed(attempt, ws.files) == Execute(old(ws.files), notebookPath, engine)
  {
    if notebookPath !in ws.files {
      return Err(FileNotFound(notebookPath));
    }
    match engine
    case Interrupted =>
      attempt := Err(KeyboardInterrupt);
    case Raised(text, elapsed) =>
      attempt := Ok(Attempt(false, elapsed, text));
    case Completed(output, elapsed) =>
      ws.files := ws.files[notebookPath := output];
      attempt := Ok(Attempt(true, elapsed, ""));
  }

  datatype Color = Green | Red

  /** One line printed by `click.secho`. */
  datatype Line = Line(text: string, color: Color)

  function Verb(success: bool): (verb: string)
    ensures verb == "succeeded" <==> success
    ensures verb == "failed" <==> !success
  {
    if success then "succeeded" else "failed"
  }

  /** The colour of an outcome's lines. */
  function OutcomeColor(success: bool): (color: Color)
    ensures color == Green <==> success
  {
    if success then Green else Red
  }

  /**
   * "<file name> succeeded|failed in <time>": the headline begins with the
   * notebook's file name, then a space, then the verb of the outcome, then
   * " in " and the formatted run time.
   */
  function Headline(outcome: NotebookRun, formatSeconds: real -> string): (h: string)
    ensures var name := Paths.Basename(outcome.path);
      |h| > |name| && h[..|name|] == name && h[|name|] == ' '
    ensures var name := Paths.Basename(outcome.path); var v := Verb(outcome.success);
      |h| >= |name| + 1 + |v| + 4 && h[|name| + 1..|name| + 1 + |v|] == v
      && h[|name| + 1 + |v|..|name| + 1 + |v| + 4] == " in "
      && h[|name| + 1 + |v| + 4..] == formatSeconds(outcome.runTime)
  {
    var name := Paths.Basename(outcome.path);
    var v := Verb(outcome.success);
    var rest := " " + v + " in " + formatSeconds(outcome.runTime);
    assert (name + rest)[..|name|] == name;
    name + rest
  }

  /**
   * `log_outcome`: the headline, followed by the message only when there is
   * one; green for a success, red for a failure. The '{:.1f}s' formatting
   * is the parameter `formatSeconds`.
   */
  function LogOutcome(outcome: NotebookRun, formatSeconds: real -> string): (lines: seq<Line>)
    ensures |lines| == if outcome.message == "" then 1 else 2
    ensures lines[0] == Line(Headline(outcome, formatSeconds), OutcomeColor(outcome.success))
    ensures |lines| == 2 ==> lines[1] == Line(outcome.message, OutcomeColor(outcome.success))
  {
    var first := Line(Headline(outcome, formatSeconds), OutcomeColor(outcome.success));
    if outcome.message != "" then [first, Line(outcome.message, OutcomeColor(outcome.success))] else [first]
  }

  /**
   * The order `run` processes the notebooks in: sorted, or the supplied
   * permutation `shuffled` standing for `random.shuffle`.
   */
  function ProcessingOrder(notebooks: seq<string>, shuffle: bool, shuffled: seq<string>): (order: seq<string>)
    requires shuffle ==> multiset(shuffled) == multiset(notebooks)
    ensures multiset(order) == multiset(notebooks) && |order| == |notebooks|
    ensures !shuffle ==> forall i, j :: 0 <= i < j < |order| ==> LexLe(order[i], order[j])
  {
    var order := if shuffle then shuffled else SortStrings(notebooks);
    assert |multiset(order)| == |multiset(notebooks)|;
    order
  }

  /** What `run` reports for one notebook. */
  datatype Event = Skipped(notebookPath: string) | Ran(outcome: NotebookRun)
  {
    function Path(): string
    {
      match this
      case Skipped(p) => p
      case Ran(o) => o.path
    }
  }

  /** The rows of the store and the notebook files. */
  datatype BatchState = BatchState(rows: seq<Row>, files: map<string, Document>)

  /** Where a batch ends: the state, the events reported, and the exception that ended it, if any. */
  datatype BatchOutcome = BatchOutcome(state: BatchState, log: seq<Event>, abort: Option<Abort>)

  function Prepend(log: seq<Event>, out: BatchOutcome): BatchOutcome
  {
    out.(log := log + out.log)
  }

  lemma PrependPrepend(a: seq<Event>, b: seq<Event>, out: BatchOutcome)
    ensures Prepend(a, Prepend(b, out)) == Prepend(a + b, out)
  {
    assert a + (b + out.log) == (a + b) + out.log;
  }

  /**
   * What one invocation of `run` works from: the processing order, the
   * `--force` flag, the repositories, and what the engine and the clock
   * answer at each position of the order.
   */
  datatype Invocation = Invocation(order: seq<string>, force: bool, repos: map<string, Repo>,
                                   engine: seq<Execution>, clock: seq<int>)
  {
    predicate WellFormed()
    {
      |engine| == |order| && |clock| == |order|
    }
  }

  /**
   * The skip test of `run` for an existing notebook path. carpo/cli.py calls
   * `records.last_run`, which `Records` does not define; `already_run` is
   * the query it stands for.
   */
  function Skips(rows: seq<Row>, notebookPath: string, repos: map<string, Repo>, force: bool): (b: bool)
    ensures force ==> !b
    ensures notebookPath !in repos ==> !b
    ensures b ==> exists i :: 0 <= i < |rows| && rows[i].success == 1 && rows[i].notebookPath == notebookPath
  {
    AlreadyRunIn(rows, notebookPath, GetGitRepo(repos, notebookPath)) && !force
  }

  /** One pass of the loop of `run`: either an event and the state after it, or the exception that stops the run. */
  datatype Step = Next(state: BatchState, event: Event) | Stop(state: BatchState, abort: Abort)

  /**
   * The pass for `notebookPath`: stopped by the repository lookup of
   * `already_run` when the path does not exist; skipped, with nothing
   * changed, when `Skips` holds; otherwise executed, and when execution
   * returns, its outcome recorded with the current git facts and the clock
   * reading `runDate`.
   */
  function StepOf(st: BatchState, notebookPath: string, force: bool, repos: map<string, Repo>,
                  engine: Execution, runDate: int): Step
  {
    if notebookPath !in st.files then Stop(st, Git(NoSuchPath(notebookPath)))
    else if Skips(st.rows, notebookPath, repos, force) then Next(st, Skipped(notebookPath))
    else
      var ex := Execute(st.files, notebookPath, engine);
      match ex.attempt
      case Err(e) => Stop(BatchState(st.rows, ex.files), e)
      case Ok(a) =>
        var outcome := NotebookRun(notebookPath, a.success, a.runTime, a.msg);
        var row := OutcomeRow(outcome, GetGitInfo(GetGitRepo(repos, notebookPath)), runDate);
        Next(BatchState(st.rows + [row], ex.files), Ran(outcome))
  }

  /** The loop of `run` from position `i` of the order on. */
  function BatchFrom(inv: Invocation, i: nat, st: BatchState): BatchOutcome
    requires inv.WellFormed() && i <= |inv.order|
    decreases |inv.order| - i
  {
    if i == |inv.order| then BatchOutcome(st, [], None)
    else
      match StepOf(st, inv.order[i], inv.force, inv.repos, inv.engine[i], inv.clock[i])
      case Stop(next, e) => BatchOutcome(next, [], Some(e))
      case Next(next, event) => Prepend([event], BatchFrom(inv, i + 1, next))
  }

  /**
   * The body of the loop of `run` for one notebook: the event it reports, or
   * the exception that escapes it; the store and the files change as
   * `StepOf` says.
   */
  method RunNotebook(records: Records, ws: Workspace, notebookPath: string, force: bool,
                     repos: map<string, Repo>, engine: Execution, runDate: int)
    returns (r: Result<Event, Abort>)
    requires records.Valid()
    modifies records.db, ws
    ensures records.Valid()
    ensures var next := BatchState(records.db.rows, ws.files);
      StepOf(BatchState(old(records.db.rows), old(ws.files)), notebookPath, force, repos, engine, runDate)
        == if r.Ok? then Next(next, r.value) else Stop(next, r.error)
  {
    var alreadyRun := records.AlreadyRun(notebookPath, repos, ws.files.Keys);
    if alreadyRun.Err? {
      return Err(Git(alreadyRun.error));
    }
    if alreadyRun.value && !force {
      return Ok(Skipped(notebookPath));
    }
    var attempt := ExecuteNotebook(ws, notebookPath, engine);
    if attempt.Err? {
      return Err(attempt.error);
    }
    var outcome := NotebookRun(notebookPath, attempt.value.success, attempt.value.runTime, attempt.value.msg);
    records.RecordOutcome(outcome, repos, runDate);
    r := Ok(Ran(outcome));
  }

  /** The loop of `run` over the whole order, against an open store. */
  method RunBatch(records: Records, ws: Workspace, inv: Invocation)
    returns (log: seq<Event>, abort: Option<Abort>)
    requires records.Valid() && inv.WellFormed()
    modifies records.db, ws
    ensures records.Valid()
    ensures var out := BatchFrom(inv, 0, BatchState(old(records.db.rows), old(ws.files)));
      records.db.rows == out.state.rows && ws.files == out.state.files && log == out.log && abort == out.abort
  {
    ghost var start := BatchState(records.db.rows, ws.files);
    log, abort := [], None;
    var i := 0;
    while i < |inv.order|
      invariant 0 <= i <= |inv.order|
      invariant records.Valid()
      invariant BatchFrom(inv, 0, start) == Prepend(log, BatchFrom(inv, i, BatchState(records.db.rows, ws.files)))
    {
      var step := RunNotebook(records, ws, inv.order[i], inv.force, inv.repos, inv.engine[i], inv.clock[i]);
      if step.Err? {
        abort := Some(step.error);
        return;
      }
      PrependPrepend(log, [step.value], BatchFrom(inv, i + 1, BatchState(records.db.rows, ws.files)));
      log := log + [step.value];
      i := i + 1;
    }
  }

  /**
   * `run(notebooks, db_file, force, shuffle)`. The store is opened first
   * (creating it if needed); an exception from `execute_notebook` ends the
   * run at once, with nothing recorded for that notebook.
   */
  method Run(notebooks: seq<string>, db: Store, force: bool, shuffle: bool, shuffled: seq<string>,
             ws: Workspace, repos: map<string, Repo>, engine: seq<Execution>, clock: seq<int>)
    returns (log: seq<Event>, abort: Option<Abort>)
    requires shuffle ==> multiset(shuffled) == multiset(notebooks)
    requires |engine| == |notebooks| && |clock| == |notebooks|
    modifies db, ws
    ensures db.present
    ensures var start := BatchState(if old(db.present) then old(db.rows) else [], old(ws.files));
      var inv := Invocation(ProcessingOrder(notebooks, shuffle, shuffled), force, repos, engine, clock);
      var out := BatchFrom(inv, 0, start);
      db.rows == out.state.rows && ws.files == out.state.files && log == out.log && abort == out.abort
  {
    var order: seq<string>;
    if shuffle {
      order := shuffled;
    } else {
      order := SortStrings(notebooks);
    }
    assert order == ProcessingOrder(notebooks, shuffle, shuffled);
    var records := new Records(db);
    log, abort := RunBatch(records, ws, Invocation(order, force, repos, engine, clock));
  }

  /**
   * The loop of `run` as carpo/cli.py:80-81 writes it: the first pass calls
   * `records.last_run`, which `Records` does not define, so the run stops
   * with AttributeError before any notebook is executed or recorded.
   */
  function BatchAsWritten(inv: Invocation, st: BatchState): (out: BatchOutcome)
    ensures out.state == st && out.log == []
    ensures out.abort.Some? <==> inv.order != []
  {
    if inv.order == [] then BatchOutcome(st, [], None)
    else BatchOutcome(st, [], Some(AttributeError("last_run")))
  }
}
