# carpo: run history of Jupyter notebooks

carpo re-runs Jupyter notebooks and records every outcome in a small sqlite
database. Each row is one notebook run: the notebook's path, the commit
(git sha) the notebook was at, the name of the repository's root directory,
success, run time and run date. `carpo run` goes through the notebooks in
sorted order, or a shuffled order. It skips a notebook that already ran
successfully at its current commit, unless `--force` is given. Otherwise it
executes the notebook, overwrites it with the executed version on success,
and records exactly one outcome. `carpo show` prints, for each notebook, the
table `Records.status` builds: the notebook's rows, newest first, arranged
by the order of commits on a branch.

The model has one module per concern:

- `Common`: `Option` and `Result`.
- `Sorting`: Python's stable `sorted` as an insertion sort over a key and a
  total preorder. It also holds list filtering and Python's code-point
  ordering of strings.
- `Paths`: `os.path.basename` on POSIX paths.
- `Schema`: the `notebooks` table's columns, `format_result` and
  `results_to_table`.
- `GitHistory`: the repository facts of a notebook (`get_git_repo`,
  `get_git_info`) and `sort_git_shas`.
- `Record`: the database file (`Store`, a class whose rows the methods
  append to) and the `Records` class with `record_outcome`, `already_run`
  and `status`.
- `Cli`: `execute_notebook`, `log_outcome` and the `run` command. The
  notebook engine and the clock are oracles: `engine[i]` and `clock[i]` are
  what the i-th pass of the loop observes. `BatchFrom` is the reference
  definition of the loop; `RunBatch` and `Run` are the imperative loop,
  proved equal to it.
- `RunProperties`: what a whole run does to the store and the log. This
  module also restates as lemmas the five scenarios of test/test_carpo.py:
  `test_executes`, `test_executes_multiple`, `test_executes_repeatedly`,
  `test_executes_in_git` and `test_exceptions_in_git`.

The model follows the code as written except in the body of the `run`
loop, carpo/cli.py:81-85, which cannot run as written:

- carpo/cli.py:81 calls `records.last_run`, which `Records` does not define
  (see "## Findings"), so the first pass raises AttributeError.
- Were `last_run` replaced by `already_run`, `len(last_run)` at
  carpo/cli.py:82 would raise TypeError on the bool that `already_run`
  returns.
- carpo/cli.py:85 calls `results_to_table(last_run, notebook_path)` with two
  arguments, while `results_to_table` (carpo/record.py:41) takes one, so
  every skip would raise TypeError. test/test_carpo.py:51-53 expects a
  skipped run to succeed.

The loop is modelled twice: once as written (`Cli.BatchAsWritten`), and once
as the program and its tests evidently intend (`Cli.BatchFrom`, `Cli.Run`).
In the intended loop the test `already_run(path) and not force` replaces
the whole condition `len(last_run) > 0 and not force`, and a skip is the
`Skipped` event with no table printed.

The docstring of `status` (carpo/record.py:146) speaks of the times the
notebook "has run successfully". The query at carpo/record.py:148-149
selects every row of the path, failures included, and the model follows the
query.

GitPython's `Repo` raises NoSuchPathError for a path that does not exist,
and `get_git_repo` catches only InvalidGitRepositoryError. So `already_run`
and `status` raise for a notebook path that does not exist. The model passes
the set of existing paths to these operations, and the run loop stops with
that error before the skip test (`GitHistory.FindRepo`, `Cli.StepOf`).

## Model

| member | source | states |
|---|---|---|
| Sorting.SortBy | carpo/record.py:82 | the sorted list is a permutation of the input |
| Sorting.SortBySorted | carpo/record.py:82 | under a total preorder the result is ordered by the key |
| Sorting.SortByStable | carpo/record.py:82 | elements with equal keys keep their input order, as Python's sort guarantees |
| Sorting.InsertBySorted | carpo/record.py:82 | inserting into a sorted list keeps it sorted |
| Sorting.InsertByStable | carpo/record.py:82 | for every key, the elements with that key come out in the order of `[x] + s`: the inserted element goes before the elements with its key, which makes `SortBy` stable |
| Sorting.FilterCount | carpo/record.py:76-80 | filtering keeps every element the predicate accepts with its multiplicity and drops the others |
| Sorting.FilterIsEmpty | carpo/record.py:141-143 | a filter is empty exactly when no element satisfies the predicate |
| Sorting.FilterSorted | carpo/record.py:76-82 | a sublist picked by a filter of a sorted list is sorted |
| Sorting.LexLeTotal | carpo/cli.py:77 | any two strings are comparable under Python's string order |
| Sorting.LexLeTransitive | carpo/cli.py:77 | Python's string order is transitive |
| Sorting.LexOrderIsTotalPreorder | carpo/cli.py:77 | the string order is a total preorder, so `sorted` on names is well defined |
| Sorting.IntOrdersAreTotalPreorders | carpo/record.py:148-149 | ascending and descending integer orders are total preorders |
| Sorting.SortStrings | carpo/cli.py:77 | `sorted(notebooks)` is a permutation of the names in non-decreasing string order |
| Paths.LastSlash | carpo/record.py:66 | the position found holds '/' and no later position among the first n does |
| Paths.Basename | carpo/record.py:66 | the basename holds no '/', is a suffix of the path, and is preceded by '/' when shorter than the path |
| Paths.BasenameOfName | carpo/record.py:66 | a name without '/' is its own basename |
| Paths.BasenameIdempotent | carpo/record.py:66 | taking the basename twice changes nothing |
| Paths.BasenameOfJoin | carpo/record.py:66 | the basename of dir + "/" + name is name |
| Schema.BoolStr | carpo/record.py:18 | Python's `str(bool(j))`: "True" exactly for true, "False" exactly for false |
| Schema.FormatCell | carpo/record.py:14-22 | each column is formatted by the formatter FIELDS gives its name: the text columns unchanged, success by `str(bool(j))`, time and run date by the two formatters |
| Schema.FormattedCells | carpo/record.py:33-38 | one cell per column; the path, sha and root unchanged; the success cell is "True" exactly for a success; the time and run date cells are their formatters' output |
| Schema.ColumnsDistinct | carpo/record.py:14-21 | the six column names are pairwise distinct |
| Schema.FormatResult | carpo/record.py:33-38 | the formatted dict has exactly the column names as keys, each mapped to its field's formatter output |
| Schema.ResultsToTable | carpo/record.py:41-50 | no results give an empty table titled "No Results"; otherwise a header of column names, then one formatted row per result in order |
| GitHistory.GetGitRepo | carpo/record.py:56 | the repository that encloses an existing path, from the supplied map; a definition without a contract of its own, used by `FindRepo` |
| GitHistory.FindRepo | carpo/record.py:53-58 | an error exactly for a path that does not exist (NoSuchPathError escapes); otherwise the path's repository, or None exactly when it is outside every repository |
| GitHistory.GetGitInfo | carpo/record.py:61-66 | the sha is empty exactly outside git, and then so is the root; inside git the sha is the checked-out commit and the root is the basename of the working directory |
| GitHistory.HistoryIndex | carpo/record.py:82 | `commits.index(sha)`: the first position of the sha, and the length exactly when it is absent |
| GitHistory.GitOrder | carpo/record.py:69-82 | outside git the records are returned as they are; inside git the result is an error exactly when the branch is unknown |
| GitHistory.SortGitShas | carpo/record.py:69-82 | an error for a path that does not exist; otherwise the loop that splits the records computes `GitOrder`, and outside git it returns the records unchanged |
| GitHistory.HistoryOrder | carpo/record.py:75-82 | the in-history records stably sorted by commit position, then the others; a definition whose properties are the `HistoryOrder` lemmas below |
| GitHistory.HistoryOrderHalves | carpo/record.py:75-82 | the result is the sorted in-history records followed by the others |
| GitHistory.HistoryOrderPermutation | carpo/record.py:69-82 | the reordered records are a permutation of the input |
| GitHistory.HistoryOrderInHistoryFirst | carpo/record.py:82 | every record whose sha is on the branch comes before every record whose sha is not |
| GitHistory.HistoryOrderNewestFirst | carpo/record.py:82 | records on the branch are ordered by their commit's position in the branch's commit list (newest first) |
| GitHistory.HistoryOrderKeepsRest | carpo/record.py:79-82 | records off the branch keep their input order |
| GitHistory.HistoryOrderStable | carpo/record.py:82 | records of one sha keep their input order |
| GitHistory.HistoryOrderExample | carpo/record.py:69-82 | history c3, c2, c1 puts the c3 record first, then c1, then the unknown sha |
| Record.Store.Missing | carpo/record.py:122 | a location with no database file |
| Record.Store.Existing | carpo/record.py:122 | a database file holding the given rows |
| Record.Limit | carpo/record.py:141 | `LIMIT n` keeps the first min(n, length) rows |
| Record.OutcomeRow | carpo/record.py:128-130 | the inserted row has the outcome's path, the sha and root of its repository, success 1 exactly for a success (else 0), the run time, and the clock reading as run date |
| Record.AlreadyRunIn | carpo/record.py:134-143 | false outside git; otherwise true exactly when some row records a success of the path at the current sha |
| Record.Records.constructor | carpo/record.py:115-119 | opening leaves the table present, keeps the rows of an existing file, and starts empty otherwise |
| Record.Records.CreateTable | carpo/record.py:121-124 | the table is created, empty, only when the file does not exist |
| Record.Records.RecordOutcome | carpo/record.py:126-132 | appends exactly the outcome's row and keeps every earlier row |
| Record.Records.AlreadyRun | carpo/record.py:134-143 | an error for a path that does not exist; otherwise the query `AlreadyRunIn` over the current rows; never true for a notebook outside git |
| Record.ShownRows | carpo/record.py:147-151 | the rows `status` shows: always a result outside git, and inside git an error exactly when the branch is unknown |
| Record.Records.Status | carpo/record.py:145-153 | an error for a path that does not exist; for an existing path, an error exactly when the notebook is in git and the branch is unknown; otherwise a table titled with the path, listing the notebook's rows newest first and then in branch order |
| Record.FailureNeverBlocks | carpo/record.py:137-143 | recording a failure never changes the `already_run` answer |
| Record.AlreadyRunPersists | carpo/record.py:126-143 | once `already_run` holds, recording more outcomes never makes it false |
| Record.SuccessMarksAlreadyRun | carpo/record.py:126-143 | after a success inside git is recorded, the notebook counts as already run at that commit |
| Record.RecordingTwiceSameAnswer | carpo/record.py:126-143 | recording the same row again stores it twice but does not change `already_run` |
| Record.ShownRowsAreThePathRows | carpo/record.py:145-151 | `status` shows every row of the notebook as often as it is stored, and no row of another path |
| Record.ShownRowsNewestFirst | carpo/record.py:148-151 | within one sha the shown rows are newest run date first; outside git all of them are |
| Cli.Execute | carpo/cli.py:23-45 | a missing file aborts; an interrupt propagates as KeyboardInterrupt with files unchanged; an exception is a failure with its text as message; a completed run succeeds with an empty message and overwrites only that notebook |
| Cli.ExecuteNotebook | carpo/cli.py:23-45 | the attempt it returns and the files it leaves are those of `Execute` |
| Cli.Verb | carpo/cli.py:50-55 | "succeeded" exactly for a success, "failed" exactly for a failure |
| Cli.OutcomeColor | carpo/cli.py:50-55 | green exactly for a success, red otherwise |
| Cli.LogOutcome | carpo/cli.py:48-60 | the headline, in the outcome's colour, followed by a line with the message only when the message is non-empty |
| Cli.Headline | carpo/cli.py:50-57 | the headline is the notebook's file name, a space, the verb of the outcome ("succeeded" or "failed"), " in ", and the formatted run time |
| Cli.ProcessingOrder | carpo/cli.py:73-77 | the processing order is a permutation of the notebooks, and sorted when not shuffled |
| Cli.Skips | carpo/cli.py:81-82 | the skip test `already_run(path) and not force`, in place of the whole condition `len(last_run) > 0 and not force`: never with `--force`, never outside git, and only when a success of the path is stored |
| Cli.StepOf | carpo/cli.py:80-91 | one pass: stop for a path that does not exist, skip, or execute and record; a definition whose properties are `RunProperties.StepRecords` and `RunProperties.StepSkipsExactlyWhenAlreadyRun` |
| Cli.BatchFrom | carpo/cli.py:80-91 | the loop from one position of the order on, ending at the first exception; a definition whose properties are the `RunProperties` batch lemmas |
| Cli.RunNotebook | carpo/cli.py:81-91 | one pass of the loop changes the store and the files as `StepOf` says and reports its event or the exception that escapes |
| Cli.RunBatch | carpo/cli.py:80-91 | the loop leaves the store, the files, the log and the abort that `BatchFrom` defines |
| Cli.Run | carpo/cli.py:71-91 | `run` opens or creates the store, then processes the notebooks in `ProcessingOrder` with the outcome `BatchFrom` defines |
| Cli.BatchAsWritten | carpo/cli.py:80-81 | the loop as written executes and records nothing, and stops with an error exactly when there is a notebook |
| RunProperties.StepRecords | carpo/cli.py:82-91 | a skipped pass changes nothing; an executed pass appends exactly one row recording its outcome; an abort records nothing |
| RunProperties.BatchRecordsEachRun | carpo/cli.py:80-91 | a run keeps the earlier rows and appends exactly one row per executed notebook, in order, each with that notebook's path, success and sha |
| RunProperties.BatchFollowsOrder | carpo/cli.py:80 | the j-th event concerns the j-th notebook of the order, and the log covers the whole order exactly when nothing aborts |
| RunProperties.StepSkipsExactlyWhenAlreadyRun | carpo/cli.py:81-85 | a pass over a path that does not exist stops with nothing changed; a pass skips exactly when the path exists, `--force` is off, the notebook is in git and a success is stored at its current sha |
| RunProperties.ForceSkipsNothing | carpo/cli.py:82 | with `--force` every event of the run is an execution |
| RunProperties.OutsideGitSkipsNothing | carpo/cli.py:82 | notebooks outside git are never skipped |
| RunProperties.StepKeepsAlreadyRun | carpo/cli.py:80-91 | a pass never makes an already-run notebook count as not run |
| RunProperties.AlreadyRunStaysSkipped | carpo/cli.py:80-85 | a notebook already run when a run reaches it is skipped by every later pass that names it |
| RunProperties.StepSuccessMarksAlreadyRun | carpo/cli.py:88-90 | a successful execution inside git makes the notebook count as already run |
| RunProperties.SuccessSkipsLaterPasses | carpo/cli.py:80-91 | after a successful execution inside git, every later pass of the same run that names that notebook skips it (without `--force`) |
| RunProperties.SingleBatch | carpo/cli.py:80-91 | a run over one notebook is exactly one pass |
| RunProperties.NewNotebookNotRun | carpo/record.py:139-143 | a notebook with no stored rows has not run |
| RunProperties.RunOneCompleted | carpo/cli.py:86-91 | a notebook that is not skipped and completes is executed, written back and recorded as a success |
| RunProperties.RunOneRaised | carpo/cli.py:36-39 | a notebook that raises is recorded as a failure with the exception text and is left unchanged |
| RunProperties.RunOneSkipped | carpo/cli.py:82-85 | an existing notebook already run at its commit is neither executed nor recorded without `--force` |
| RunProperties.RunOneMissing | carpo/record.py:136 | a notebook path that does not exist stops the run in `already_run`, with or without `--force`, and nothing is executed or recorded |
| RunProperties.NotRunAtNewCommit | carpo/record.py:136-143 | a notebook whose only stored row is at another commit has not run at the current commit |
| RunProperties.RerunAfterNewCommit | test/test_carpo.py:46-58 | inside git a new notebook is executed and written back; the next run skips it and keeps an uncommitted edit; after a new commit it is executed again |
| RunProperties.FailureRerunsUntilSuccess | test/test_carpo.py:60-76 | a notebook that raises is reported failed and its file kept; the next run at the same commit executes it again and succeeds; the run after that skips it; a forced run executes it |
| RunProperties.RunsEveryNewNotebook | test/test_carpo.py:29-36 | one run over two new notebooks executes both, writes both outputs, keeps the earlier rows, and appends one row per notebook, in order, each recording that notebook's path, success, current sha and run date |
| RunProperties.OutsideGitRunsEveryTime | test/test_carpo.py:38-44 | outside git every run executes the notebook and writes its own output |
| RunProperties.AsWrittenRunExecutesNothing | test/test_carpo.py:25-27 | the loop as written stops before executing the one notebook, while the corrected loop executes it |

## Left out

- `dict_factory`, the `DB` context manager and the sqlite connection (carpo/record.py:28-30, 90-109): the model stores the table as a sequence of rows, and SQL text, commits and connections are not modelled.
- `get_default_home` (carpo/record.py:85-87): it reads the user's home directory; the store is passed in.
- GitPython (carpo/record.py:53-58, 66, 74): the repository of each notebook is an injected map (`repos`), with its head commit and the commit list of each branch, and the existing paths are an injected set. A repository whose HEAD has no commit is not modelled.
- Record.Records.RecordOutcome: the NoSuchPathError of `get_git_info` for a path that does not exist is not modelled; `run` records an outcome only after executing the file, which therefore exists.
- `int(time.time())` (carpo/record.py:129) and the timer in `execute_notebook` (carpo/cli.py:29-37): clock readings and elapsed times are inputs.
- The '{:.2f}s', '{:.1f}s' and strftime formatting (carpo/record.py:19-20, carpo/cli.py:57): floating-point and date formatting are function parameters.
- nbformat and nbconvert (carpo/cli.py:25-30, 41-42): the engine is an oracle result per pass; a notebook file is text, and parse or write errors other than a missing file are not modelled.
- `random.shuffle` (carpo/cli.py:73-75): the shuffled order is an input, required to be a permutation of the notebooks.
- click output (carpo/cli.py:83-85, 87): "Already ran" and "Executing" become the `Skipped` and `Ran` events of the log; the yellow colour and terminal table rendering are not modelled.
- `results_to_table(last_run, notebook_path)` at carpo/cli.py:85: as written the call raises TypeError (two arguments to a one-argument function), and with `already_run` there is no row list to print; the intended loop skips without printing a table, and the message and table output are not modelled.
- The default `branch='master'` of `status` and `default_branch='master'` of `sort_git_shas` (carpo/record.py:69, 145): `Record.Records.Status` and `GitHistory.SortGitShas` take the branch as an explicit parameter, and `show` (carpo/cli.py:94-102) is not modelled, so no caller relies on the default.
- Record.Records.Status: rows with equal run dates come out in insertion order; the order sqlite gives such ties is not specified.
- The `show` command (carpo/cli.py:94-102) and the click group: they only print `status` and parse arguments.
- Record.Records.constructor and Cli.Run: an unreadable or corrupt database file is not modelled.

## Findings

| source | as written | input that shows it | evidently intended | confidence | as-written member | corrected member |
|---|---|---|---|---|---|---|
| carpo/cli.py:81 | the loop calls `records.last_run(notebook_path)`, which `Records` does not define, so the first pass raises AttributeError and no notebook is executed or recorded | `carpo run` with any non-empty list of notebooks | the `records.already_run(notebook_path)` test: skip without `--force` once a success is stored at the current sha, as test/test_carpo.py:46-76 expects | high; not executed | RunProperties.AsWrittenRunExecutesNothing | Cli.Run |
