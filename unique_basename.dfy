/** `generateUniqueBasename`: the first numbered name `<prefix><n>[.<ext>]`,
    n = 1, 2, ..., whose path does not exist, under a deadline read from the
    clock after every candidate. The set of existing paths and the clock
    readings are parameters. */
module UniqueBasename {
  import opened Wrappers
  import opened JsString

  const DefaultTimeout := 1000 * 60 * 5
  const TimeoutError := "Generate unique basename hit a timeout (5 mins)!"

  /** The candidate for a number; an empty prefix or extension is left out. */
  function Basename(prefix: string, n: nat, extension: string): string {
    prefix + NatToString(n) + (if extension != "" then "." + extension else "")
  }

  function CandidatePath(basePath: string, prefix: string, n: nat, extension: string): string {
    basePath + "/" + Basename(prefix, n, extension)
  }

  /** The absolute deadline: the given one, else five minutes after start. */
  function Deadline(timeout: Option<int>, startDate: int): int {
    if timeout.Some? then timeout.value else startDate + DefaultTimeout
  }

  lemma MiddleCancels(a: string, x: string, y: string, b: string)
    requires a + x + b == a + y + b
    ensures x == y
  {
    assert |x| == |y|;
    assert x == (a + x + b)[|a|..|a| + |x|];
    assert y == (a + y + b)[|a|..|a| + |y|];
  }

  /** Different numbers give different paths. */
  lemma CandidatePathInjective(basePath: string, prefix: string, extension: string, m: nat, n: nat)
    requires CandidatePath(basePath, prefix, m, extension) == CandidatePath(basePath, prefix, n, extension)
    ensures m == n
  {
    var e := if extension != "" then "." + extension else "";
    var a := basePath + "/" + prefix;
    assert CandidatePath(basePath, prefix, m, extension) == a + NatToString(m) + e;
    assert CandidatePath(basePath, prefix, n, extension) == a + NatToString(n) + e;
    MiddleCancels(a, NatToString(m), NatToString(n), e);
    NatToStringInjective(m, n);
  }

  function Candidates(basePath: string, prefix: string, extension: string, n: nat): set<string> {
    set i | 1 <= i <= n :: CandidatePath(basePath, prefix, i, extension)
  }

  /** The first `n` candidates are `n` distinct paths. */
  lemma {:induction false} CandidatesCount(basePath: string, prefix: string, extension: string, n: nat)
    ensures |Candidates(basePath, prefix, extension, n)| == n
  {
    if n > 0 {
      CandidatesCount(basePath, prefix, extension, n - 1);
      var prev := Candidates(basePath, prefix, extension, n - 1);
      var p := CandidatePath(basePath, prefix, n, extension);
      assert Candidates(basePath, prefix, extension, n) == prev + {p};
      if p in prev {
        var i :| 1 <= i <= n - 1 && CandidatePath(basePath, prefix, i, extension) == p;
        CandidatePathInjective(basePath, prefix, extension, i, n);
      }
    }
  }

  /** While every candidate so far exists, there were no more of them than
      existing paths; so the search ends. */
  lemma TakenCandidatesBound(basePath: string, prefix: string, extension: string, n: nat, paths: set<string>)
    requires forall i :: 1 <= i <= n ==> CandidatePath(basePath, prefix, i, extension) in paths
    ensures n <= |paths|
  {
    CandidatesCount(basePath, prefix, extension, n);
    SubsetSize(Candidates(basePath, prefix, extension, n), paths);
  }

  lemma SubsetSize(a: set<string>, b: set<string>)
    requires a <= b
    ensures |a| <= |b|
  {
    assert b == a + (b - a);
    assert a * (b - a) == {};
  }

  /** The paths of candidates 1..n all exist. */
  predicate AllTaken(basePath: string, prefix: string, extension: string, paths: set<string>, n: nat) {
    forall i :: 1 <= i <= n ==> CandidatePath(basePath, prefix, i, extension) in paths
  }

  /** Candidate `n` is the first whose path does not exist. */
  predicate FirstFree(basePath: string, prefix: string, extension: string, paths: set<string>, n: nat) {
    && n >= 1
    && CandidatePath(basePath, prefix, n, extension) !in paths
    && AllTaken(basePath, prefix, extension, paths, n - 1)
  }

  /** The clock read after each of the first `n` candidates was within the
      deadline. */
  predicate InTime(now: nat -> int, deadline: int, n: nat) {
    forall i :: 1 <= i <= n ==> now(i) <= deadline
  }

  /** `now(i)` is the clock read after the i-th candidate. On success the
      name is that of the first free candidate and no clock reading so far
      passed the deadline; on timeout some reading `n` passed it while every
      candidate before `n` was taken. */
  method GenerateUniqueBasename(basePath: string, prefix: string, extension: string, timeout: Option<int>,
                                startDate: int, now: nat -> int, paths: set<string>)
    returns (r: Result<string>)
    ensures r.Ok? ==> exists n: nat ::
      && r.value == Basename(prefix, n, extension)
      && FirstFree(basePath, prefix, extension, paths, n)
      && InTime(now, Deadline(timeout, startDate), n)
    ensures r.Err? ==> r.error == TimeoutError && exists n: nat ::
      && n >= 1
      && now(n) > Deadline(timeout, startDate)
      && AllTaken(basePath, prefix, extension, paths, n - 1)
      && InTime(now, Deadline(timeout, startDate), n - 1)
    ensures r.Ok? ==> StartsWith(r.value, prefix)
  {
    var deadline := Deadline(timeout, startDate);
    var candidate := "";
    var number: nat := 0;
    while candidate == ""
      invariant candidate == "" ==> AllTaken(basePath, prefix, extension, paths, number)
      invariant candidate != "" ==> candidate == Basename(prefix, number, extension)
                                    && FirstFree(basePath, prefix, extension, paths, number)
      invariant InTime(now, deadline, number)
      decreases |paths| + 1 - number, if candidate == "" then 1 else 0
    {
      TakenCandidatesBound(basePath, prefix, extension, number, paths);
      number := number + 1;
      var basename := Basename(prefix, number, extension);
      if CandidatePath(basePath, prefix, number, extension) !in paths {
        candidate := basename;
      }
      if now(number) > deadline {
        return Err(TimeoutError);
      }
    }
    assert StartsWith(candidate, prefix) by {
      assert candidate[..|prefix|] == prefix;
    }
    r := Ok(candidate);
  }
}
