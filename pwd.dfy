/** `pwd`: the top level of the project the working directory lies in. The
    top-level keys of the project structure, the working directory and
    `pathExist` are parameters. */
module Pwd {
  import opened Wrappers
  import opened JsString

  /** Every top-level key exists under `path`. */
  predicate InTopLevel(path: string, topLevelKeys: seq<string>, pathExists: string -> bool) {
    forall i :: 0 <= i < |topLevelKeys| ==> pathExists(path + "/" + topLevelKeys[i])
  }

  /** `iAmInTopLevelOfWpdProject` */
  method IAmInTopLevel(path: string, topLevelKeys: seq<string>, pathExists: string -> bool) returns (r: bool)
    ensures r <==> InTopLevel(path, topLevelKeys, pathExists)
  {
    for i := 0 to |topLevelKeys|
      invariant forall j :: 0 <= j < i ==> pathExists(path + "/" + topLevelKeys[j])
    {
      if !pathExists(path + "/" + topLevelKeys[i]) {
        return false;
      }
    }
    return true;
  }

  /** The `n`-th candidate: the first `n` segments of `path` joined again. */
  function Candidate(path: string, n: nat): string
    requires n <= |Split(path, '/')|
  {
    Join(Split(path, '/')[..n], "/")
  }

  /** Some candidate from the whole path down to its first segment is a
      project's top level. */
  predicate InsideProject(path: string, topLevelKeys: seq<string>, pathExists: string -> bool) {
    exists n :: 1 <= n <= |Split(path, '/')| && InTopLevel(Candidate(path, n), topLevelKeys, pathExists)
  }

  /** `findTopLevelOfWpdProject`: the path itself, not the ancestor that
      matched, when any candidate matches, else `false` (`None`). It also
      says how many candidates it tried. */
  method FindTopLevel(path: string, topLevelKeys: seq<string>, pathExists: string -> bool)
    returns (r: Option<string>, tried: nat)
    ensures r.Some? <==> InsideProject(path, topLevelKeys, pathExists)
    ensures r.Some? ==> r.value == path
    ensures 1 <= tried <= |Split(path, '/')|
  {
    var parts := Split(path, '/');
    var explodedPath := parts;
    tried := 0;
    while |explodedPath| > 0
      invariant |explodedPath| <= |parts| && explodedPath == parts[..|explodedPath|]
      invariant tried == |parts| - |explodedPath|
      invariant forall n :: |explodedPath| < n <= |parts| ==> !InTopLevel(Candidate(path, n), topLevelKeys, pathExists)
      decreases |explodedPath|
    {
      var reconstructedPath := Join(explodedPath, "/");
      assert reconstructedPath == Candidate(path, |explodedPath|);
      tried := tried + 1;
      var found := IAmInTopLevel(reconstructedPath, topLevelKeys, pathExists);
      if found {
        return Some(path), tried;
      }
      explodedPath := explodedPath[..|explodedPath| - 1];
    }
    return None, tried;
  }

  /** `pwd()` for the working directory `cwd`. */
  method GetPwd(cwd: string, topLevelKeys: seq<string>, pathExists: string -> bool) returns (r: Option<string>)
    ensures r.Some? <==> InsideProject(cwd, topLevelKeys, pathExists)
    ensures r.Some? ==> r.value == cwd
  {
    var tried;
    r, tried := FindTopLevel(cwd, topLevelKeys, pathExists);
  }

  /** The whole path is the first candidate, and its first segment the
      last. */
  lemma CandidateEnds(path: string)
    ensures Candidate(path, |Split(path, '/')|) == path
    ensures Candidate(path, 1) == Split(path, '/')[0]
  {
    JoinSplit(path, '/');
    assert Split(path, '/')[..|Split(path, '/')|] == Split(path, '/');
  }
}
