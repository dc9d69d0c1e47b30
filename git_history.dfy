/**
 * The git side of carpo/record.py: finding the repository of a notebook,
 * its root name and current sha (`get_git_info`), and ordering records by
 * the history of a branch (`sort_git_shas`). Repositories are values handed
 * in by the caller instead of being read from disk.
 */
module GitHistory {
  import opened Common
  import opened Sorting
  import opened Schema
  import Paths

  /** A commit hash: never empty. */
  type Sha = s: string | s != [] witness "0"

  /**
   * What the program reads from a repository: its working directory, the sha
   * of the commit checked out, and the commits of each branch, newest first
   * (the order of `iter_commits`). Commits are shas, so a row recorded
   * outside git (empty sha) is never on a branch.
   */
  datatype Repo = Repo(workingDir: string, head: Sha, branches: map<string, seq<Sha>>)

  /** `(root name, sha)`, both "" outside a repository. */
  datatype GitInfo = GitInfo(root: string, sha: string)

  /**
   * The GitPython errors that escape the program: `iter_commits` of a branch
   * the repository does not have, and `Repo` of a path that does not exist.
   */
  datatype GitError = UnknownBranch(branch: string) | NoSuchPath(path: string)

  /**
   * The repository enclosing an existing notebook path, searched through the
   * parent directories, is supplied as the map `repos`; a path outside every
   * repository is absent from it.
   */
  function GetGitRepo(repos: map<string, Repo>, notebookPath: string): Option<Repo>
  {
    if notebookPath in repos then Some(repos[notebookPath]) else None
  }

  /**
   * `get_git_repo(notebook_path)`. `onDisk` is the set of paths that exist.
   * `Repo` raises NoSuchPathError for a path that does not exist, and
   * `get_git_repo` catches only InvalidGitRepositoryError, so a missing path
   * is an error; an existing path outside every repository gives None.
   */
  function FindRepo(repos: map<string, Repo>, onDisk: set<string>, notebookPath: string): (r: Result<Option<Repo>, GitError>)
    ensures r.Err? <==> notebookPath !in onDisk
    ensures r.Err? ==> r.error == NoSuchPath(notebookPath)
    ensures r.Ok? ==> (r.value.Some? <==> notebookPath in repos)
    ensures r.Ok? && r.value.Some? ==> r.value.value == repos[notebookPath]
  {
    if notebookPath !in onDisk then Err(NoSuchPath(notebookPath)) else Ok(GetGitRepo(repos, notebookPath))
  }

  /**
   * `get_git_info`: the sha is empty exactly when there is no repository, and
   * then the root is empty too; otherwise they are the checked-out commit and
   * the last component of the working directory.
   */
  function GetGitInfo(repo: Option<Repo>): (info: GitInfo)
    ensures info.sha == "" <==> repo.None?
    ensures repo.None? ==> info == GitInfo("", "")
    ensures repo.Some? ==> info.sha == repo.value.head && info.root == Paths.Basename(repo.value.workingDir)
    ensures '/' !in info.root
  {
    match repo
    case None => GitInfo("", "")
    case Some(r) => GitInfo(Paths.Basename(r.workingDir), r.head)
  }

  /**
   * `commits.index(sha)`: the position of the first occurrence of `sha`, and
   * `|commits|` for a sha outside the history (where Python would raise; the
   * program asks only about shas it has found in `commits`).
   */
  function HistoryIndex(commits: seq<string>, sha: string): (k: nat)
    ensures k <= |commits|
    ensures k < |commits| <==> sha in commits
    ensures k < |commits| ==> commits[k] == sha && sha !in commits[..k]
  {
    if commits == [] then 0
    else if commits[0] == sha then 0
    else
      var k := HistoryIndex(commits[1..], sha);
      assert commits[1..][..k] == commits[1..k + 1];
      assert k < |commits| - 1 ==> commits[..k + 1] == [commits[0]] + commits[1..][..k];
      1 + k
  }

  function InHistory(commits: seq<string>): Row -> bool
  {
    (r: Row) => r.gitSha in commits
  }

  function NotInHistory(commits: seq<string>): Row -> bool
  {
    (r: Row) => r.gitSha !in commits
  }

  function ShaIs(sha: string): Row -> bool
  {
    (r: Row) => r.gitSha == sha
  }

  /** The sort key of `sort_git_shas`: the position of a record's sha in `commits`. */
  function HistoryKey(commits: seq<string>): Row -> int
  {
    (r: Row) => HistoryIndex(commits, r.gitSha)
  }

  /**
   * The order `sort_git_shas` produces: the records whose sha is in
   * `commits`, stably sorted by position (newest commit first), followed by
   * the other records in their original order.
   */
  function HistoryOrder(commits: seq<string>, records: seq<Row>): seq<Row>
  {
    SortBy(Filter(records, InHistory(commits)), HistoryKey(commits), IntLe())
      + Filter(records, NotInHistory(commits))
  }

  /**
   * The result of `sort_git_shas` for a notebook whose repository is `repo`:
   * the input unchanged outside git, an error for a missing branch, and the
   * history order of that branch otherwise.
   */
  function GitOrder(repo: Option<Repo>, records: seq<Row>, branch: string): (r: Result<seq<Row>, GitError>)
    ensures repo.None? ==> r == Ok(records)
    ensures repo.Some? ==> (r.Ok? <==> branch in repo.value.branches)
  {
    match repo
    case None => Ok(records)
    case Some(rp) =>
      if branch in rp.branches then Ok(HistoryOrder(rp.branches[branch], records))
      else Err(UnknownBranch(branch))
  }

  /**
   * `sort_git_shas(notebook_path, records, default_branch)`: the repository
   * lookup, which fails for a path that does not exist, then the loop that
   * splits the records into `ordered` and `not_ordered`, then the sort.
   */
  method SortGitShas(repos: map<string, Repo>, onDisk: set<string>, notebookPath: string, records: seq<Row>,
                     defaultBranch: string)
    returns (r: Result<seq<Row>, GitError>)
    ensures notebookPath !in onDisk ==> r == Err(NoSuchPath(notebookPath))
    ensures notebookPath in onDisk ==> r == GitOrder(GetGitRepo(repos, notebookPath), records, defaultBranch)
    ensures notebookPath in onDisk && notebookPath !in repos ==> r == Ok(records)
  {
    var found := FindRepo(repos, onDisk, notebookPath);
    if found.Err? {
      return Err(found.error);
    }
    var repo := found.value;
    if repo.None? {
      return Ok(records);
    }
    if defaultBranch !in repo.value.branches {
      return Err(UnknownBranch(defaultBranch));
    }
    var commits := repo.value.branches[defaultBranch];
    var ordered, notOrdered := [], [];
    for i := 0 to |records|
      invariant ordered == Filter(records[..i], InHistory(commits))
      invariant notOrdered == Filter(records[..i], NotInHistory(commits))
    {
      assert records[..i + 1] == records[..i] + [records[i]];
      FilterAppend(records[..i], [records[i]], InHistory(commits));
      FilterAppend(records[..i], [records[i]], NotInHistory(commits));
      if records[i].gitSha in commits {
        ordered := ordered + [records[i]];
      } else {
        notOrdered := notOrdered + [records[i]];
      }
    }
    assert records[..|records|] == records;
    r := Ok(SortBy(ordered, HistoryKey(commits), IntLe()) + notOrdered);
  }

  /** Every record of `HistoryOrder` before position `n` is in history; every one from `n` on is not. */
  lemma HistoryOrderHalves(commits: seq<string>, records: seq<Row>)
    ensures var h := HistoryOrder(commits, records);
      var n := |Filter(records, InHistory(commits))|;
      && n <= |h|
      && (forall i :: 0 <= i < n ==> h[i].gitSha in commits)
      && (forall i :: n <= i < |h| ==> h[i].gitSha !in commits)
  {
    var ordered := Filter(records, InHistory(commits));
    var sorted := SortBy(ordered, HistoryKey(commits), IntLe());
    var rest := Filter(records, NotInHistory(commits));
    assert |sorted| == |ordered| by {
      assert |multiset(sorted)| == |multiset(ordered)|;
    }
    forall i | 0 <= i < |sorted|
      ensures sorted[i].gitSha in commits
    {
      var y := sorted[i];
      assert y in multiset(ordered);
      FilterCount(records, InHistory(commits), y);
    }
    forall i | 0 <= i < |rest|
      ensures rest[i].gitSha !in commits
    {
      FilterCount(records, NotInHistory(commits), rest[i]);
    }
  }

  /** `sort_git_shas` returns a permutation of its input: nothing dropped, nothing duplicated. */
  lemma HistoryOrderPermutation(commits: seq<string>, records: seq<Row>)
    ensures multiset(HistoryOrder(commits, records)) == multiset(records)
  {
    var inside := Filter(records, InHistory(commits));
    var outside := Filter(records, NotInHistory(commits));
    forall x
      ensures multiset(inside)[x] + multiset(outside)[x] == multiset(records)[x]
    {
      FilterCount(records, InHistory(commits), x);
      FilterCount(records, NotInHistory(commits), x);
    }
    assert multiset(inside) + multiset(outside) == multiset(records);
  }

  /** Every record whose sha is in the history comes before every record whose sha is not. */
  lemma HistoryOrderInHistoryFirst(commits: seq<string>, records: seq<Row>)
    ensures var h := HistoryOrder(commits, records);
      forall i, j :: 0 <= i < j < |h| && h[j].gitSha in commits ==> h[i].gitSha in commits
  {
    HistoryOrderHalves(commits, records);
  }

  /**
   * The records in history are ordered by the position of their sha in
   * `commits`, newest commit first.
   */
  lemma HistoryOrderNewestFirst(commits: seq<string>, records: seq<Row>)
    ensures var h := HistoryOrder(commits, records);
      forall i, j :: 0 <= i < j < |h| && h[j].gitSha in commits ==>
        HistoryIndex(commits, h[i].gitSha) <= HistoryIndex(commits, h[j].gitSha)
  {
    HistoryOrderHalves(commits, records);
    var ordered := Filter(records, InHistory(commits));
    var sorted := SortBy(ordered, HistoryKey(commits), IntLe());
    IntOrdersAreTotalPreorders();
    SortBySorted(ordered, HistoryKey(commits), IntLe());
    var h := HistoryOrder(commits, records);
    forall i, j | 0 <= i < j < |h| && h[j].gitSha in commits
      ensures HistoryIndex(commits, h[i].gitSha) <= HistoryIndex(commits, h[j].gitSha)
    {
      assert h[i] == sorted[i] && h[j] == sorted[j];
      assert IntLe()(HistoryKey(commits)(sorted[i]), HistoryKey(commits)(sorted[j]));
    }
  }

  /** The records outside the history keep their original relative order. */
  lemma HistoryOrderKeepsRest(commits: seq<string>, records: seq<Row>)
    ensures Filter(HistoryOrder(commits, records), NotInHistory(commits))
         == Filter(records, NotInHistory(commits))
  {
    HistoryOrderHalves(commits, records);
    var ordered := Filter(records, InHistory(commits));
    var sorted := SortBy(ordered, HistoryKey(commits), IntLe());
    var rest := Filter(records, NotInHistory(commits));
    assert |sorted| == |ordered| by {
      assert |multiset(sorted)| == |multiset(ordered)|;
    }
    var h := HistoryOrder(commits, records);
    forall x | x in sorted
      ensures !NotInHistory(commits)(x)
    {
      var i :| 0 <= i < |sorted| && sorted[i] == x;
      assert h[i] == x;
    }
    FilterNone(sorted, NotInHistory(commits));
    FilterAppend(sorted, rest, NotInHistory(commits));
    FilterFilter(records, NotInHistory(commits), NotInHistory(commits));
  }

  /** Among the records in history, equal positions mean equal shas. */
  lemma SamePositionSameSha(commits: seq<string>, s: seq<Row>, sha: string)
    requires sha in commits
    requires forall x :: x in s ==> x.gitSha in commits
    ensures Filter(s, ShaIs(sha)) == Filter(s, HasKey(HistoryKey(commits), HistoryIndex(commits, sha)))
  {
    forall x | x in s
      ensures ShaIs(sha)(x) == HasKey(HistoryKey(commits), HistoryIndex(commits, sha))(x)
    {
    }
    FilterCongruent(s, ShaIs(sha), HasKey(HistoryKey(commits), HistoryIndex(commits, sha)));
  }

  /**
   * Stability: the records that share a sha appear in the order they had in
   * the input, whether that sha is in the history or not.
   */
  lemma HistoryOrderStable(commits: seq<string>, records: seq<Row>, sha: string)
    ensures Filter(HistoryOrder(commits, records), ShaIs(sha)) == Filter(records, ShaIs(sha))
  {
    HistoryOrderHalves(commits, records);
    var ordered := Filter(records, InHistory(commits));
    var sorted := SortBy(ordered, HistoryKey(commits), IntLe());
    var rest := Filter(records, NotInHistory(commits));
    assert |sorted| == |ordered| by {
      assert |multiset(sorted)| == |multiset(ordered)|;
    }
    var h := HistoryOrder(commits, records);
    FilterAppend(sorted, rest, ShaIs(sha));
    forall x | x in sorted
      ensures x.gitSha in commits
    {
      var i :| 0 <= i < |sorted| && sorted[i] == x;
      assert h[i] == x;
    }
    forall x | x in ordered
      ensures x.gitSha in commits
    {
      FilterCount(records, InHistory(commits), x);
    }
    if sha in commits {
      forall x | x in rest
        ensures !ShaIs(sha)(x)
      {
        FilterCount(records, NotInHistory(commits), x);
      }
      FilterNone(rest, ShaIs(sha));
      var k := HistoryIndex(commits, sha);
      SamePositionSameSha(commits, sorted, sha);
      SortByStable(ordered, HistoryKey(commits), IntLe(), k);
      SamePositionSameSha(commits, ordered, sha);
      FilterFilter(records, InHistory(commits), ShaIs(sha));
      assert Filter(sorted, ShaIs(sha)) + [] == Filter(sorted, ShaIs(sha));
    } else {
      FilterNone(sorted, ShaIs(sha));
      FilterFilter(records, NotInHistory(commits), ShaIs(sha));
    }
  }

  /**
   * The example of a branch `[c3, c2, c1]` (c3 newest) and records at c1, c3
   * and a foreign cX: the result is the c3 record, the c1 record, then cX.
   */
  lemma HistoryOrderExample(r1: Row, r3: Row, rx: Row)
    requires r1.gitSha == "c1" && r3.gitSha == "c3" && rx.gitSha == "cX"
    ensures HistoryOrder(["c3", "c2", "c1"], [r1, r3, rx]) == [r3, r1, rx]
  {
    var commits := ["c3", "c2", "c1"];
    ExampleSplit(r1, r3, rx);
    ExampleSort(r1, r3);
    assert [r3, r1] + [rx] == [r3, r1, rx];
  }

  lemma ExampleSplit(r1: Row, r3: Row, rx: Row)
    requires r1.gitSha == "c1" && r3.gitSha == "c3" && rx.gitSha == "cX"
    ensures Filter([r1, r3, rx], InHistory(["c3", "c2", "c1"])) == [r1, r3]
    ensures Filter([r1, r3, rx], NotInHistory(["c3", "c2", "c1"])) == [rx]
  {
    var commits := ["c3", "c2", "c1"];
    assert commits[2] == "c1" && commits[0] == "c3";
    assert "cX" !in commits;
    assert InHistory(commits)(r1) && InHistory(commits)(r3) && !InHistory(commits)(rx);
    assert [r1, r3, rx] == [r1] + ([r3] + ([rx] + []));
    FilterCons(rx, [], InHistory(commits));
    FilterCons(r3, [rx], InHistory(commits));
    FilterCons(r1, [r3, rx], InHistory(commits));
    FilterCons(rx, [], NotInHistory(commits));
    FilterCons(r3, [rx], NotInHistory(commits));
    FilterCons(r1, [r3, rx], NotInHistory(commits));
  }

  lemma ExampleSort(r1: Row, r3: Row)
    requires r1.gitSha == "c1" && r3.gitSha == "c3"
    ensures SortBy([r1, r3], HistoryKey(["c3", "c2", "c1"]), IntLe()) == [r3, r1]
  {
    var commits := ["c3", "c2", "c1"];
    assert HistoryIndex(commits, "c1") == 2;
    assert HistoryIndex(commits, "c3") == 0;
    assert [r1, r3][1..] == [r3];
    assert [r3][1..] == [];
    assert SortBy([r3], HistoryKey(commits), IntLe()) == [r3];
    assert [r1] + [r3] == [r1, r3];
  }
}
