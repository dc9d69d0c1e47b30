/** The one path operation the program needs: `os.path.basename` on POSIX paths. */
module Paths {

  /**
   * `path.rfind('/', 0, n)`: the position of the last '/' among the first `n`
   * characters, or -1 when there is none.
   */
  function LastSlash(path: string, n: nat): (k: int)
    requires n <= |path|
    ensures -1 <= k < n
    ensures k >= 0 ==> path[k] == '/'
    ensures forall j :: k < j < n ==> path[j] != '/'
  {
    if n == 0 then -1
    else if path[n - 1] == '/' then n - 1
    else LastSlash(path, n - 1)
  }

  /**
   * `os.path.basename(path)`: what follows the last '/' of `path` (all of
   * `path` when it holds no '/', and "" when it ends in '/').
   */
  function Basename(path: string): (name: string)
    ensures '/' !in name
    ensures |name| <= |path| && path[|path| - |name|..] == name
    ensures |name| < |path| ==> path[|path| - |name| - 1] == '/'
  {
    path[LastSlash(path, |path|) + 1..]
  }

  /** A name without '/' is its own basename, so `Basename` is idempotent. */
  lemma BasenameOfName(name: string)
    requires '/' !in name
    ensures Basename(name) == name
  {
  }

  lemma BasenameIdempotent(path: string)
    ensures Basename(Basename(path)) == Basename(path)
  {
    BasenameOfName(Basename(path));
  }

  /** Whatever precedes the last '/' does not change the basename. */
  lemma BasenameOfJoin(dir: string, name: string)
    requires '/' !in name
    ensures Basename(dir + "/" + name) == name
  {
    var path := dir + "/" + name;
    var k := LastSlash(path, |path|);
    assert path[|dir|] == '/';
    assert k >= |dir|;
    assert forall j :: |dir| < j < |path| ==> path[j] == name[j - |dir| - 1];
    assert path[|dir| + 1..] == name;
  }
}
