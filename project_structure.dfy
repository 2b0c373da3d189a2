/** `loopOnProjectStructure`: a pre-order walk over a project-structure object.
    The callback is modelled by the sequence of calls it receives. */
module ProjectStructure {
  import opened JsString

  /** A structure value: file content, or a directory of named entries in key
      order. */
  datatype Node = File(content: string) | Dir(entries: seq<(string, Node)>)

  /** One callback call: `{ path, value, key }`. */
  datatype Visit = Visit(path: string, key: string, value: Node)

  /** The walk goes into a value only when it is an object with a key. */
  predicate Descends(v: Node) {
    v.Dir? && |v.entries| > 0
  }

  /** The calls for the entries of `dir` from index `i` on, under `path`. */
  function WalkFrom(dir: Node, i: nat, path: string): seq<Visit>
    requires dir.Dir? && i <= |dir.entries|
    decreases dir, |dir.entries| - i
  {
    if i == |dir.entries| then []
    else
      var key, value := dir.entries[i].0, dir.entries[i].1;
      var here := path + "/" + key;
      assert dir.entries[i] in dir.entries;
      [Visit(here, key, value)]
      + (if Descends(value) then WalkFrom(value, 0, here) else [])
      + WalkFrom(dir, i + 1, path)
  }

  /** The calls for `entries` under `initialPath`, in order. */
  function Walk(entries: seq<(string, Node)>, initialPath: string): seq<Visit> {
    WalkFrom(Dir(entries), 0, initialPath)
  }

  /** `loopOnProjectStructure(obj, callback)`: the path defaults to `"."`. */
  function LoopOnProjectStructure(obj: seq<(string, Node)>): seq<Visit> {
    Walk(obj, ".")
  }

  /** The number of keys of `dir` from index `i` on, nested ones included. */
  function SizeFrom(dir: Node, i: nat): nat
    requires dir.Dir? && i <= |dir.entries|
    decreases dir, |dir.entries| - i
  {
    if i == |dir.entries| then 0
    else
      assert dir.entries[i] in dir.entries;
      var value := dir.entries[i].1;
      1 + (if Descends(value) then SizeFrom(value, 0) else 0) + SizeFrom(dir, i + 1)
  }

  /** Every key is visited once: as many calls as keys. */
  lemma {:induction false} WalkVisitsEveryKey(dir: Node, i: nat, p: string)
    requires dir.Dir? && i <= |dir.entries|
    ensures |WalkFrom(dir, i, p)| == SizeFrom(dir, i)
    decreases dir, |dir.entries| - i
  {
    if i < |dir.entries| {
      assert dir.entries[i] in dir.entries;
      var value := dir.entries[i].1;
      if Descends(value) {
        WalkVisitsEveryKey(value, 0, p + "/" + dir.entries[i].0);
      }
      WalkVisitsEveryKey(dir, i + 1, p);
    }
  }

  /** Every call's path lies below `p` and ends with the call's own key. */
  predicate PathsBelow(w: seq<Visit>, p: string) {
    forall j :: 0 <= j < |w| ==> StartsWith(w[j].path, p + "/") && EndsWith(w[j].path, "/" + w[j].key)
  }

  /** Every call's path lies below the walk's start and ends with the call's
      own key. */
  lemma {:induction false} WalkPaths(dir: Node, i: nat, p: string)
    requires dir.Dir? && i <= |dir.entries|
    ensures PathsBelow(WalkFrom(dir, i, p), p)
    decreases dir, |dir.entries| - i
  {
    if i < |dir.entries| {
      var key, value := dir.entries[i].0, dir.entries[i].1;
      var here := p + "/" + key;
      assert dir.entries[i] in dir.entries;
      var sub := if Descends(value) then WalkFrom(value, 0, here) else [];
      if Descends(value) {
        WalkPaths(value, 0, here);
        PathsBelowDeeper(sub, p, key);
      }
      WalkPaths(dir, i + 1, p);
      FirstVisitBelow(p, key, value);
      PathsBelowCat([Visit(here, key, value)], sub, p);
      PathsBelowCat([Visit(here, key, value)] + sub, WalkFrom(dir, i + 1, p), p);
    }
  }

  lemma FirstVisitBelow(p: string, key: string, value: Node)
    ensures PathsBelow([Visit(p + "/" + key, key, value)], p)
  {
    var here := p + "/" + key;
    assert here[..|p + "/"|] == p + "/";
    assert here[|here| - |"/" + key|..] == "/" + key;
  }

  lemma PathsBelowCat(a: seq<Visit>, b: seq<Visit>, p: string)
    requires PathsBelow(a, p) && PathsBelow(b, p)
    ensures PathsBelow(a + b, p)
  {
    forall j | 0 <= j < |a + b|
      ensures StartsWith((a + b)[j].path, p + "/") && EndsWith((a + b)[j].path, "/" + (a + b)[j].key)
    {
      if j >= |a| {
        assert (a + b)[j] == b[j - |a|];
      }
    }
  }

  /** Below `p/key` is below `p`. */
  lemma PathsBelowDeeper(w: seq<Visit>, p: string, key: string)
    requires PathsBelow(w, p + "/" + key)
    ensures PathsBelow(w, p)
  {
    var here := p + "/" + key;
    forall j | 0 <= j < |w|
      ensures StartsWith(w[j].path, p + "/")
    {
      assert StartsWith(w[j].path, here + "/");
      assert w[j].path[..|p + "/"|] == (here + "/")[..|p + "/"|];
    }
  }

  /** A directory's call comes first, then its whole subtree, then the
      following siblings: the walk is in pre-order. */
  lemma PreOrder(key: string, value: Node, rest: seq<(string, Node)>, p: string)
    ensures var path := p + "/" + key;
      Walk([(key, value)] + rest, p)
      == [Visit(path, key, value)] + (if Descends(value) then Walk(value.entries, path) else []) + Walk(rest, p)
  {
    ShiftedWalk((key, value), rest, 0, p);
  }

  /** Walking from index `i + 1` of a directory with one more entry in front
      is walking from index `i` of the shorter one. */
  lemma {:induction false} ShiftedWalk(first: (string, Node), rest: seq<(string, Node)>, i: nat, p: string)
    requires i <= |rest|
    ensures WalkFrom(Dir([first] + rest), i + 1, p) == WalkFrom(Dir(rest), i, p)
    decreases |rest| - i
  {
    if i < |rest| {
      assert ([first] + rest)[i + 1] == rest[i];
      ShiftedWalk(first, rest, i + 1, p);
    }
  }

  /** Files and empty directories are leaves. */
  lemma LeavesNotEntered(key: string, value: Node, p: string)
    requires !Descends(value)
    ensures Walk([(key, value)], p) == [Visit(p + "/" + key, key, value)]
  {
    assert WalkFrom(Dir([(key, value)]), 1, p) == [];
  }
}
