/**
 Directory snapshots of the migration: a tree is flattened into a list of entries, rebuilt from the
 list in a new stage, and given its permissions; the stage must then have the same snapshot.

 A path is the sequence of names from the root, which is the empty path.
 */
module Snapshot {
  import opened Json

  type Path = seq<string>

  datatype Node = Dir(mode: nat) | File(mode: nat, content: string) | Link | Special

  type Tree = map<Path, Node>

  datatype Entry =
    | DirEntry(path: Path, mode: nat)
    | FileEntry(path: Path, mode: nat, size: nat, sha256: string)

  datatype Manifest = Manifest(rootMode: nat, entries: seq<Entry>)

  /**
   The locale's order of names, case folding, the form of a name, the hash, the process umask, and whether a
   directory's mode lets the process list it, enter it and change it.
   */
  datatype Platform = Platform(
    sorted: set<string> -> seq<string>, fold: string -> string, plain: string -> bool, sha: string -> string,
    masked: nat -> nat, opens: nat -> bool)

  /** The mode of a new stage. */
  const PRIVATE_MODE := 0x1c0

  function Members(names: seq<string>): set<string> {
    set n | n in names
  }

  /** The names that are not excluded, in their order. */
  function Keep(names: seq<string>, excluded: set<string>): seq<string> {
    if names == [] then []
    else (if names[0] in excluded then [] else [names[0]]) + Keep(names[1..], excluded)
  }

  ghost predicate NoRepeats<T>(s: seq<T>) {
    forall i, j :: 0 <= i < j < |s| ==> s[i] != s[j]
  }

  /**
   Sorting lists every name once, leaving names out does not reorder the others, and the umask leaves a
   private directory open to the process that makes it.
   */
  ghost predicate Lawful(env: Platform) {
    && env.opens(env.masked(PRIVATE_MODE))
    && (forall names: set<string> :: Members(env.sorted(names)) == names && NoRepeats(env.sorted(names)))
    && (forall names: set<string>, excluded: set<string> ::
          Keep(env.sorted(names), excluded) == env.sorted(names - excluded))
  }

  function Parent(p: Path): Path
    requires p != []
  {
    p[..|p| - 1]
  }

  /** A tree as a file system has it: a root directory, and every other node in a directory. */
  ghost predicate Rooted(t: Tree) {
    && [] in t && t[[]].Dir?
    && forall p :: p in t && p != [] ==> InDirectory(t, p)
  }

  predicate InDirectory(t: Tree, p: Path)
    requires p != []
  {
    Parent(p) in t && t[Parent(p)].Dir?
  }

  predicate IsBelow(p: Path, dir: Path) {
    |p| > |dir| && p[..|dir|] == dir
  }

  function Below(t: Tree, dir: Path): set<Path> {
    set p | p in t && IsBelow(p, dir)
  }

  /** The names in a directory. */
  function Names(t: Tree, dir: Path): set<string> {
    set p | p in t && |p| == |dir| + 1 && p[..|dir|] == dir :: p[|dir|]
  }

  /** No name has a forbidden character, and no two names fold to one. */
  predicate NamesOk(names: set<string>, env: Platform) {
    && (forall n :: n in names ==> env.plain(n))
    && (forall m, n :: m in names && n in names && env.fold(m) == env.fold(n) ==> m == n)
  }

  lemma ChildSmaller(t: Tree, dir: Path, name: string)
    requires dir + [name] in t
    ensures |Below(t, dir + [name])| < |Below(t, dir)|
  {
    var child := dir + [name];
    forall p | p in Below(t, child) ensures p in Below(t, dir) {
      assert p[..|dir|] == p[..|child|][..|dir|];
    }
    assert child in Below(t, dir) && child !in Below(t, child);
    Smaller(Below(t, child), Below(t, dir));
  }

  lemma Smaller(a: set<Path>, b: set<Path>)
    requires a < b
    ensures |a| < |b|
  {
    assert b == a + (b - a) && b - a != {};
  }

  function EntryOf(p: Path, node: Node, env: Platform): Entry
    requires node.Dir? || node.File?
  {
    if node.Dir? then DirEntry(p, node.mode) else FileEntry(p, node.mode, |node.content|, env.sha(node.content))
  }

  /** The entries of the named children that are not excluded, and of everything beneath them. */
  function WalkNames(t: Tree, dir: Path, names: seq<string>, excluded: set<string>, env: Platform): Option<seq<Entry>>
    decreases |Below(t, dir)|, |names|
  {
    if names == [] then Some([])
    else if names[0] in excluded then WalkNames(t, dir, names[1..], excluded, env)
    else
      var p := dir + [names[0]];
      if p !in t || t[p].Link? || t[p].Special? then None
      else
        var inner := Inside(t, dir, names[0], env);
        var rest := WalkNames(t, dir, names[1..], excluded, env);
        if inner.None? || rest.None? then None
        else Some([EntryOf(p, t[p], env)] + inner.value + rest.value)
  }

  /** What a child holds: nothing for a file. */
  function Inside(t: Tree, dir: Path, name: string, env: Platform): Option<seq<Entry>>
    requires dir + [name] in t
    decreases |Below(t, dir)|, 0
  {
    ChildSmaller(t, dir, name);
    if t[dir + [name]].Dir? then Walk(t, dir + [name], {}, env) else Some([])
  }

  /** The entries beneath a directory in the order of the walk, or nothing when the walk blocks. */
  function Walk(t: Tree, dir: Path, excluded: set<string>, env: Platform): Option<seq<Entry>>
    decreases |Below(t, dir)|, |env.sorted(Names(t, dir))| + 1
  {
    if NamesOk(Names(t, dir), env) then WalkNames(t, dir, env.sorted(Names(t, dir)), excluded, env) else None
  }

  function SnapshotOf(t: Tree, excluded: set<string>, env: Platform): Option<Manifest> {
    if [] !in t || !t[[]].Dir? then None
    else
      var entries := Walk(t, [], excluded, env);
      if entries.None? then None else Some(Manifest(t[[]].mode, entries.value))
  }

  // ---------------------------------------------------------------- the walk as a loop

  class Walker {
    var entries: seq<Entry>

    constructor ()
      ensures entries == []
    {
      entries := [];
    }

    method WalkDirectory(t: Tree, dir: Path, excluded: set<string>, env: Platform) returns (ok: bool)
      modifies this
      ensures ok <==> Walk(t, dir, excluded, env).Some?
      ensures ok ==> entries == old(entries) + Walk(t, dir, excluded, env).value
      decreases |Below(t, dir)|
    {
      if !NamesOk(Names(t, dir), env) {
        return false;
      }
      var names := env.sorted(Names(t, dir));
      var i := 0;
      ghost var before := entries;
      while i < |names|
        invariant i <= |names|
        invariant Joined(entries, WalkNames(t, dir, names[i..], excluded, env))
               == Joined(before, WalkNames(t, dir, names, excluded, env))
      {
        var p := dir + [names[i]];
        assert names[i..][1..] == names[i + 1..];
        if names[i] !in excluded {
          if p !in t || t[p].Link? || t[p].Special? {
            return false;
          }
          ghost var rest, here := WalkNames(t, dir, names[i + 1..], excluded, env), entries;
          ghost var inner := Inside(t, dir, names[i], env);
          entries := entries + [EntryOf(p, t[p], env)];
          if t[p].Dir? {
            ChildSmaller(t, dir, names[i]);
            var more := WalkDirectory(t, p, {}, env);
            if !more {
              return false;
            }
          }
          assert inner.Some? && entries == here + [EntryOf(p, t[p], env)] + inner.value;
          JoinedStep(here, [EntryOf(p, t[p], env)] + inner.value, rest);
          assert entries == here + ([EntryOf(p, t[p], env)] + inner.value);
        }
        i := i + 1;
      }
      return true;
    }
  }

  function Joined(before: seq<Entry>, more: Option<seq<Entry>>): Option<seq<Entry>> {
    if more.None? then None else Some(before + more.value)
  }

  lemma JoinedStep(before: seq<Entry>, head: seq<Entry>, rest: Option<seq<Entry>>)
    ensures Joined(before + head, rest) == Joined(before, Joined(head, rest))
  {
    if rest.Some? {
      assert (before + head) + rest.value == before + (head + rest.value);
    }
  }

  method SnapshotDirectory(t: Tree, excluded: set<string>, env: Platform) returns (r: Option<Manifest>)
    ensures r == SnapshotOf(t, excluded, env)
  {
    if [] !in t || !t[[]].Dir? {
      return None;
    }
    var walker := new Walker();
    var ok := walker.WalkDirectory(t, [], excluded, env);
    if !ok {
      return None;
    }
    assert [] + Walk(t, [], excluded, env).value == Walk(t, [], excluded, env).value;
    return Some(Manifest(t[[]].mode, walker.entries));
  }

  // ---------------------------------------------------------------- what a walk lists

  lemma {:induction false} PrefixIn(t: Tree, p: Path, k: nat)
    requires Rooted(t) && p in t && k <= |p|
    ensures p[..k] in t && (k < |p| ==> t[p[..k]].Dir?)
    decreases |p| - k
  {
    if k == |p| {
      assert p[..k] == p;
    } else {
      PrefixIn(t, p, k + 1);
      assert Parent(p[..k + 1]) == p[..k];
      assert InDirectory(t, p[..k + 1]);
    }
  }

  ghost predicate Lists(t: Tree, e: Entry, env: Platform) {
    e.path in t && (t[e.path].Dir? || t[e.path].File?) && e == EntryOf(e.path, t[e.path], env)
  }

  function PathsOf(es: seq<Entry>): set<Path> {
    set i | 0 <= i < |es| :: es[i].path
  }

  ghost predicate DistinctPaths(es: seq<Entry>) {
    forall i, j :: 0 <= i < j < |es| ==> es[i].path != es[j].path
  }

  /** A path at or below one of some names of a directory. */
  predicate Under(p: Path, dir: Path, names: seq<string>, excluded: set<string>) {
    IsBelow(p, dir) && p[|dir|] in names && p[|dir|] !in excluded
  }

  function AllUnder(t: Tree, dir: Path, names: seq<string>, excluded: set<string>): set<Path> {
    set p | p in t && Under(p, dir, names, excluded)
  }

  /** A list describes exactly the nodes at some paths, each once. */
  ghost predicate Describes(t: Tree, es: seq<Entry>, paths: set<Path>, env: Platform) {
    (forall i :: 0 <= i < |es| ==> Lists(t, es[i], env)) && PathsOf(es) == paths && DistinctPaths(es)
  }

  lemma DescribesBoth(t: Tree, a: seq<Entry>, b: seq<Entry>, p: set<Path>, q: set<Path>, env: Platform)
    requires Describes(t, a, p, env) && Describes(t, b, q, env) && p !! q
    ensures Describes(t, a + b, p + q, env)
  {
    forall x ensures x in PathsOf(a + b) <==> x in p + q {
      if x in p {
        var i :| 0 <= i < |a| && a[i].path == x;
        assert (a + b)[i].path == x;
      }
      if x in q {
        var i :| 0 <= i < |b| && b[i].path == x;
        assert (a + b)[|a| + i].path == x;
      }
    }
    forall i, j | 0 <= i < j < |a + b| ensures (a + b)[i].path != (a + b)[j].path {
      assert i < |a| ==> a[i].path in p;
      assert j >= |a| ==> b[j - |a|].path in q;
    }
  }

  lemma DescribesOne(t: Tree, p: Path, env: Platform)
    requires p in t && (t[p].Dir? || t[p].File?)
    ensures Describes(t, [EntryOf(p, t[p], env)], {p}, env)
  {
    var es := [EntryOf(p, t[p], env)];
    assert es[0].path == p;
  }

  /** The nodes under some names are the first name's node, what is below it, and the nodes under the others. */
  lemma UnderFirst(t: Tree, dir: Path, names: seq<string>, excluded: set<string>)
    requires names != [] && NoRepeats(names) && names[0] !in excluded && dir + [names[0]] in t
    ensures var p := dir + [names[0]];
            && AllUnder(t, dir, names, excluded) == {p} + Below(t, p) + AllUnder(t, dir, names[1..], excluded)
            && {p} !! Below(t, p) && ({p} + Below(t, p)) !! AllUnder(t, dir, names[1..], excluded)
  {
    var p, tail := dir + [names[0]], names[1..];
    forall q | q in t && IsBelow(q, dir) ensures q[|dir|] == names[0] <==> q == p || IsBelow(q, p) {
      assert q[..|p|] == q[..|dir|] + [q[|dir|]];
    }
    forall q | IsBelow(q, p) || q == p ensures IsBelow(q, dir) {
      assert q[..|dir|] == q[..|p|][..|dir|];
    }
    assert names[0] !in tail;
    assert forall n :: n in names <==> n == names[0] || n in tail;
  }

  lemma UnderExcluded(t: Tree, dir: Path, names: seq<string>, excluded: set<string>)
    requires names != [] && names[0] in excluded
    ensures AllUnder(t, dir, names, excluded) == AllUnder(t, dir, names[1..], excluded)
  {
    assert forall n :: n in names <==> n == names[0] || n in names[1..];
  }

  /** Only directories have anything below them, and every path below one goes through one of its names. */
  lemma BelowIsUnder(t: Tree, p: Path, env: Platform)
    requires Rooted(t) && Lawful(env) && p in t
    ensures if t[p].Dir? then AllUnder(t, p, env.sorted(Names(t, p)), {}) == Below(t, p) else Below(t, p) == {}
  {
    forall q | q in Below(t, p) ensures t[p].Dir? && q[|p|] in env.sorted(Names(t, p)) {
      PrefixIn(t, q, |p|);
      PrefixIn(t, q, |p| + 1);
      assert q[..|p| + 1][..|p|] == p;
      assert q[|p|] in Names(t, p);
      assert q[|p|] in Members(env.sorted(Names(t, p)));
    }
  }

  /** The walk lists exactly the nodes under the names it is given. */
  lemma {:induction false} NamesDescribe(t: Tree, dir: Path, names: seq<string>, excluded: set<string>, env: Platform)
    requires Rooted(t) && Lawful(env) && NoRepeats(names) && WalkNames(t, dir, names, excluded, env).Some?
    requires forall n :: n in names ==> dir + [n] in t
    ensures Describes(t, WalkNames(t, dir, names, excluded, env).value, AllUnder(t, dir, names, excluded), env)
    decreases |Below(t, dir)|, |names|
  {
    if names == [] {
      assert AllUnder(t, dir, names, excluded) == {};
    } else if names[0] in excluded {
      UnderExcluded(t, dir, names, excluded);
      NamesDescribe(t, dir, names[1..], excluded, env);
    } else {
      var p := dir + [names[0]];
      var inner, rest := Inside(t, dir, names[0], env).value, WalkNames(t, dir, names[1..], excluded, env).value;
      InsideDescribes(t, dir, names[0], env);
      NamesDescribe(t, dir, names[1..], excluded, env);
      UnderFirst(t, dir, names, excluded);
      DescribesOne(t, p, env);
      DescribesBoth(t, [EntryOf(p, t[p], env)], inner, {p}, Below(t, p), env);
      DescribesBoth(t, [EntryOf(p, t[p], env)] + inner, rest, {p} + Below(t, p),
          AllUnder(t, dir, names[1..], excluded), env);
    }
  }

  lemma {:induction false} InsideDescribes(t: Tree, dir: Path, name: string, env: Platform)
    requires Rooted(t) && Lawful(env) && dir + [name] in t && Inside(t, dir, name, env).Some?
    ensures Describes(t, Inside(t, dir, name, env).value, Below(t, dir + [name]), env)
    decreases |Below(t, dir)|, 0
  {
    var p := dir + [name];
    ChildSmaller(t, dir, name);
    BelowIsUnder(t, p, env);
    if t[p].Dir? {
      WalkDescribes(t, p, {}, env);
    }
  }

  lemma {:induction false} WalkDescribes(t: Tree, dir: Path, excluded: set<string>, env: Platform)
    requires Rooted(t) && Lawful(env) && Walk(t, dir, excluded, env).Some?
    ensures Describes(t, Walk(t, dir, excluded, env).value, AllUnder(t, dir, env.sorted(Names(t, dir)), excluded), env)
    decreases |Below(t, dir)|, |env.sorted(Names(t, dir))| + 1
  {
    var names := env.sorted(Names(t, dir));
    assert Members(names) == Names(t, dir);
    forall n | n in names ensures dir + [n] in t {
      assert n in Members(names);
      var p :| p in t && |p| == |dir| + 1 && p[..|dir|] == dir && p[|dir|] == n;
      assert p == dir + [n];
    }
    NamesDescribe(t, dir, names, excluded, env);
  }

  // ---------------------------------------------------------------- leaving out root entries

  /** The tree without the excluded root entries. */
  function Kept(t: Tree, excluded: set<string>): Tree {
    map p | p in t && (p == [] || p[0] !in excluded) :: t[p]
  }

  lemma KeptRooted(t: Tree, excluded: set<string>)
    requires Rooted(t)
    ensures Rooted(Kept(t, excluded))
  {
    var u := Kept(t, excluded);
    forall p | p in u && p != [] ensures InDirectory(u, p) {
      assert InDirectory(t, p);
      assert Parent(p) != [] ==> Parent(p)[0] == p[0];
    }
  }

  /** Two trees agree below a directory. */
  ghost predicate AgreeBelow(t: Tree, u: Tree, dir: Path) {
    forall p :: IsBelow(p, dir) ==> (p in t <==> p in u) && (p in t ==> t[p] == u[p])
  }

  lemma AgreeDeeper(t: Tree, u: Tree, dir: Path, name: string)
    requires AgreeBelow(t, u, dir)
    ensures AgreeBelow(t, u, dir + [name])
  {
    forall p | IsBelow(p, dir + [name]) ensures IsBelow(p, dir) {
      assert p[..|dir|] == p[..|dir| + 1][..|dir|];
    }
  }

  lemma SameNames(t: Tree, u: Tree, dir: Path)
    requires AgreeBelow(t, u, dir)
    ensures Names(t, dir) == Names(u, dir) && Below(t, dir) == Below(u, dir)
  {
    forall p | |p| == |dir| + 1 && p[..|dir|] == dir ensures p in t <==> p in u {
      assert IsBelow(p, dir);
    }
  }

  /** The walk of a directory depends on what is below it alone. */
  lemma {:induction false} WalkLocal(t: Tree, u: Tree, dir: Path, env: Platform)
    requires AgreeBelow(t, u, dir)
    ensures Walk(t, dir, {}, env) == Walk(u, dir, {}, env)
    decreases |Below(t, dir)|, |env.sorted(Names(t, dir))| + 1
  {
    SameNames(t, u, dir);
    NamesLocal(t, u, dir, env.sorted(Names(t, dir)), env);
  }

  lemma {:induction false} NamesLocal(t: Tree, u: Tree, dir: Path, names: seq<string>, env: Platform)
    requires AgreeBelow(t, u, dir)
    ensures WalkNames(t, dir, names, {}, env) == WalkNames(u, dir, names, {}, env)
    decreases |Below(t, dir)|, |names|
  {
    if names != [] {
      var p := dir + [names[0]];
      assert IsBelow(p, dir);
      if p in t && (t[p].Dir? || t[p].File?) {
        ChildSmaller(t, dir, names[0]);
        AgreeDeeper(t, u, dir, names[0]);
        WalkLocal(t, u, p, env);
      }
      NamesLocal(t, u, dir, names[1..], env);
    }
  }

  lemma {:induction false} RootNamesKept(t: Tree, names: seq<string>, excluded: set<string>, env: Platform)
    ensures WalkNames(t, [], names, excluded, env) == WalkNames(Kept(t, excluded), [], Keep(names, excluded), {}, env)
    decreases |names|
  {
    if names != [] {
      var u, n := Kept(t, excluded), names[0];
      RootNamesKept(t, names[1..], excluded, env);
      if n !in excluded {
        var p := [] + [n];
        assert p == [n] && p[0] == n;
        assert Keep(names, excluded)[0] == n && Keep(names, excluded)[1..] == Keep(names[1..], excluded);
        assert AgreeBelow(t, u, p) by {
          forall q | IsBelow(q, p) ensures q[0] == n {
            assert q[0] == q[..1][0];
          }
        }
        WalkLocal(t, u, p, env);
      } else {
        assert Keep(names, excluded) == Keep(names[1..], excluded);
      }
    }
  }

  /** A snapshot that leaves out root entries is the whole snapshot of the tree without them. */
  lemma SnapshotOfKept(t: Tree, excluded: set<string>, env: Platform)
    requires Rooted(t) && Lawful(env) && SnapshotOf(t, excluded, env).Some?
    ensures SnapshotOf(Kept(t, excluded), {}, env) == SnapshotOf(t, excluded, env)
  {
    var u := Kept(t, excluded);
    forall n ensures n in Names(u, []) <==> n in Names(t, []) - excluded {
      if n in Names(t, []) && n !in excluded {
        var p :| p in t && |p| == 1 && p[..0] == [] && p[0] == n;
        assert p in u;
      }
    }
    assert Names(u, []) == Names(t, []) - excluded;
    RootNamesKept(t, env.sorted(Names(t, [])), excluded, env);
  }

  // ---------------------------------------------------------------- the stage

  /** Shallower directories first, then the locale's order. */
  predicate Before(a: Entry, b: Entry, less: (Path, Path) -> bool) {
    |a.path| < |b.path| || (|a.path| == |b.path| && less(a.path, b.path))
  }

  function InsertEntry(e: Entry, es: seq<Entry>, less: (Path, Path) -> bool): (r: seq<Entry>)
    ensures forall x :: x in r <==> x == e || x in es
  {
    if es == [] then [e]
    else if Before(es[0], e, less) then [es[0]] + InsertEntry(e, es[1..], less)
    else [e] + es
  }

  /** The directories of a snapshot, sorted by depth. */
  function Directories(es: seq<Entry>, less: (Path, Path) -> bool): seq<Entry> {
    if es == [] then []
    else
      var init := Directories(es[..|es| - 1], less);
      if es[|es| - 1].DirEntry? then InsertEntry(es[|es| - 1], init, less) else init
  }

  predicate ByDepth(es: seq<Entry>) {
    forall i, j :: 0 <= i < j < |es| ==> |es[i].path| <= |es[j].path|
  }

  lemma {:induction false} InsertByDepth(e: Entry, es: seq<Entry>, less: (Path, Path) -> bool)
    requires ByDepth(es)
    ensures ByDepth(InsertEntry(e, es, less))
  {
    if es != [] && Before(es[0], e, less) {
      InsertByDepth(e, es[1..], less);
      var r := InsertEntry(e, es[1..], less);
      forall j | 0 <= j < |r| ensures |es[0].path| <= |r[j].path| {
        assert r[j] in r;
      }
    }
  }

  lemma {:induction false} InsertDistinct(e: Entry, es: seq<Entry>, less: (Path, Path) -> bool)
    requires DistinctPaths(es) && forall x :: x in es ==> x.path != e.path
    ensures DistinctPaths(InsertEntry(e, es, less))
  {
    if es != [] && Before(es[0], e, less) {
      InsertDistinct(e, es[1..], less);
      var r := InsertEntry(e, es[1..], less);
      forall j | 0 <= j < |r| ensures es[0].path != r[j].path {
        assert r[j] in r;
      }
    }
  }

  lemma {:induction false} DirectoriesFacts(es: seq<Entry>, less: (Path, Path) -> bool)
    requires DistinctPaths(es)
    ensures ByDepth(Directories(es, less)) && DistinctPaths(Directories(es, less))
    ensures forall x :: x in Directories(es, less) <==> x in es && x.DirEntry?
  {
    if es != [] {
      var init, last := es[..|es| - 1], es[|es| - 1];
      DirectoriesFacts(init, less);
      assert forall x :: x in es <==> x in init || x == last;
      if last.DirEntry? {
        var ds := Directories(init, less);
        forall x | x in ds ensures x.path != last.path {
          var k :| 0 <= k < |init| && init[k] == x;
          assert es[k] == x;
        }
        InsertByDepth(last, ds, less);
        InsertDistinct(last, ds, less);
      }
    }
  }

  /** Something new may be put at the path: it lies in a directory that the process may change. */
  predicate Changeable(t: Tree, p: Path, env: Platform) {
    p == [] || (InDirectory(t, p) && env.opens(t[Parent(p)].mode))
  }

  /** The mode a directory of the stage is made with, before its permissions are set. */
  function MadeMode(k: Tree, p: Path, env: Platform): nat {
    env.masked(if p != [] && p in k && k[p].Dir? then k[p].mode else PRIVATE_MODE)
  }

  /** The directory of a path is made with a mode that lets the process fill it. */
  predicate Fillable(k: Tree, p: Path, env: Platform) {
    p != [] ==> env.opens(MadeMode(k, Parent(p), env))
  }

  ghost predicate AllFillable(k: Tree, paths: set<Path>, env: Platform) {
    forall p :: p in paths ==> Fillable(k, p, env)
  }

  /** A directory tree under construction, with the order of its calls. */
  class Stage {
    var tree: Tree
    /** Paths in the order in which they were made, and in which their modes were set. */
    var made: seq<Path>
    var chmods: seq<Path>

    constructor ()
      ensures tree == map[] && made == [] && chmods == []
    {
      tree, made, chmods := map[], [], [];
    }

    /** `mkdir`: the path must be new, in a directory that may be changed; the umask applies. */
    method Mkdir(p: Path, mode: nat, env: Platform) returns (ok: bool)
      modifies this`tree, this`made
      ensures ok <==> p !in old(tree) && Changeable(old(tree), p, env)
      ensures tree == if ok then old(tree)[p := Dir(env.masked(mode))] else old(tree)
      ensures made == if ok then old(made) + [p] else old(made)
    {
      if p in tree || !Changeable(tree, p, env) {
        return false;
      }
      tree := tree[p := Dir(env.masked(mode))];
      made := made + [p];
      return true;
    }

    /** Copies one file of the source exclusively and sets its mode; the copy must have the expected digest. */
    method CopyFile(source: Tree, e: Entry, env: Platform) returns (ok: bool)
      requires e.FileEntry?
      modifies this`tree, this`made
      ensures ok <==> e.path in source && source[e.path].File? && e.path !in old(tree)
                      && Changeable(old(tree), e.path, env)
                      && |source[e.path].content| == e.size && env.sha(source[e.path].content) == e.sha256
      ensures ok ==> tree == old(tree)[e.path := File(e.mode, source[e.path].content)] && made == old(made) + [e.path]
      ensures !ok ==> forall p :: p in old(tree) ==> p in tree && tree[p] == old(tree)[p]
    {
      if e.path !in source || !source[e.path].File? || e.path in tree || !Changeable(tree, e.path, env) {
        return false;
      }
      var content := source[e.path].content;
      tree := tree[e.path := File(e.mode, content)];
      made := made + [e.path];
      return |content| == e.size && env.sha(content) == e.sha256;
    }

    method Chmod(p: Path, mode: nat) returns (ok: bool)
      modifies this`tree, this`chmods
      ensures ok <==> p in old(tree) && old(tree)[p].Dir?
      ensures tree == if ok then old(tree)[p := Dir(mode)] else old(tree)
      ensures chmods == if ok then old(chmods) + [p] else old(chmods)
    {
      if p !in tree || !tree[p].Dir? {
        return false;
      }
      tree := tree[p := Dir(mode)];
      chmods := chmods + [p];
      return true;
    }
  }

  // ---------------------------------------------------------------- copying and permissions

  /** The entries of a snapshot describe the whole kept tree except its root. */
  ghost predicate DescribesTree(k: Tree, es: seq<Entry>, env: Platform) {
    Rooted(k) && Describes(k, es, k.Keys - {[]}, env)
  }

  lemma SnapshotDescribes(t: Tree, excluded: set<string>, env: Platform)
    requires Rooted(t) && Lawful(env) && SnapshotOf(t, excluded, env).Some?
    ensures DescribesTree(Kept(t, excluded), SnapshotOf(t, excluded, env).value.entries, env)
  {
    var k := Kept(t, excluded);
    KeptRooted(t, excluded);
    SnapshotOfKept(t, excluded, env);
    WalkDescribes(k, [], {}, env);
    BelowIsUnder(k, [], env);
    assert Below(k, []) == k.Keys - {[]};
  }

  lemma EntryFor(k: Tree, es: seq<Entry>, p: Path, env: Platform)
    requires DescribesTree(k, es, env) && p in k && p != []
    ensures (k[p].Dir? || k[p].File?) && EntryOf(p, k[p], env) in es
  {
    assert p in PathsOf(es);
    var i :| 0 <= i < |es| && es[i].path == p;
    assert Lists(k, es[i], env);
  }

  lemma EntryIsListed(k: Tree, es: seq<Entry>, e: Entry, env: Platform)
    requires DescribesTree(k, es, env) && e in es
    ensures Lists(k, e, env) && e.path != []
  {
    var i :| 0 <= i < |es| && es[i] == e;
    assert Lists(k, es[i], env) && es[i].path in PathsOf(es);
  }

  lemma EarlierByDepth(dirs: seq<Entry>, i: nat, e: Entry)
    requires ByDepth(dirs) && i < |dirs| && e in dirs && |e.path| < |dirs[i].path|
    ensures e.path in PathsOf(dirs[..i])
  {
    var j :| 0 <= j < |dirs| && dirs[j] == e;
    assert dirs[..i][j].path == e.path;
  }

  lemma NotEarlier(dirs: seq<Entry>, i: nat)
    requires DistinctPaths(dirs) && i < |dirs|
    ensures dirs[i].path !in PathsOf(dirs[..i])
  {
    forall j | 0 <= j < i ensures dirs[..i][j].path != dirs[i].path {
      assert dirs[..i][j] == dirs[j];
    }
  }

  /** The parent of the next directory has been made: it is shallower, so it came earlier. */
  lemma ParentMade(k: Tree, es: seq<Entry>, dirs: seq<Entry>, i: nat, less: (Path, Path) -> bool, env: Platform)
    requires DescribesTree(k, es, env) && dirs == Directories(es, less) && i < |dirs|
    ensures dirs[i].path != [] && dirs[i].path !in PathsOf(dirs[..i])
    ensures Parent(dirs[i].path) == [] || Parent(dirs[i].path) in PathsOf(dirs[..i])
  {
    DirectoriesFacts(es, less);
    assert dirs[i] in dirs;
    NotEarlier(dirs, i);
    EntryIsListed(k, es, dirs[i], env);
    var p := dirs[i].path;
    assert InDirectory(k, p);
    if Parent(p) != [] {
      EntryFor(k, es, Parent(p), env);
      EarlierByDepth(dirs, i, EntryOf(Parent(p), k[Parent(p)], env));
    }
  }

  lemma PathsSnoc(es: seq<Entry>, n: nat)
    requires n < |es|
    ensures PathsOf(es[..n + 1]) == PathsOf(es[..n]) + {es[n].path}
  {
    var a, b := es[..n], es[..n + 1];
    assert b == a + [es[n]];
    forall p ensures p in PathsOf(b) <==> p in PathsOf(a) || p == es[n].path {
      if p in PathsOf(a) {
        var i :| 0 <= i < |a| && a[i].path == p;
        assert b[i].path == p;
      }
      if p in PathsOf(b) {
        var i :| 0 <= i < |b| && b[i].path == p;
        assert i < |a| ==> a[i].path == p;
      }
      assert b[n].path == es[n].path;
    }
  }

  /** Everything is made after the directory it lies in. */
  ghost predicate ParentsFirst(made: seq<Path>) {
    forall i :: 0 <= i < |made| && made[i] != [] ==> Parent(made[i]) in made[..i]
  }

  lemma MadeStep(made: seq<Path>, p: Path)
    requires ParentsFirst(made) && (p != [] ==> Parent(p) in made)
    ensures ParentsFirst(made + [p])
  {
    forall i | 0 <= i < |made + [p]| && (made + [p])[i] != [] ensures Parent((made + [p])[i]) in (made + [p])[..i] {
      if i < |made| {
        assert (made + [p])[..i] == made[..i];
      } else {
        assert (made + [p])[..i] == made;
      }
    }
  }

  /** Makes every directory, unless one has to be made in a directory whose mode forbids it. */
  method MakeDirectories(stage: Stage, ghost k: Tree, es: seq<Entry>, less: (Path, Path) -> bool, env: Platform)
    returns (ok: bool)
    requires DescribesTree(k, es, env)
    requires stage.tree == map[[] := Dir(env.masked(PRIVATE_MODE))] && stage.made == [[]]
    modifies stage`tree, stage`made
    ensures ok <==> AllFillable(k, PathsOf(Directories(es, less)), env)
    ensures ok ==> stage.tree.Keys == {[]} + PathsOf(Directories(es, less))
    ensures AsMade(stage.tree, k, stage.made, env)
    ensures ParentsFirst(stage.made)
  {
    hide DescribesTree, Fillable, Directories;
    var dirs := Directories(es, less);
    for i := 0 to |dirs|
      invariant stage.tree.Keys == {[]} + PathsOf(dirs[..i])
      invariant AllFillable(k, PathsOf(dirs[..i]), env)
      invariant AsMade(stage.tree, k, stage.made, env)
      invariant ParentsFirst(stage.made)
    {
      PathsSnoc(dirs, i);
      ok := MakeDirectory(stage, k, es, dirs, i, less, env);
      if !ok {
        assert dirs[i].path in PathsOf(dirs);
        return;
      }
    }
    assert dirs[..|dirs|] == dirs;
    return true;
  }

  method MakeDirectory(stage: Stage, ghost k: Tree, es: seq<Entry>, dirs: seq<Entry>, i: nat,
                       less: (Path, Path) -> bool, env: Platform)
    returns (ok: bool)
    requires DescribesTree(k, es, env) && dirs == Directories(es, less) && i < |dirs|
    requires stage.tree.Keys == {[]} + PathsOf(dirs[..i])
    requires AsMade(stage.tree, k, stage.made, env) && ParentsFirst(stage.made)
    modifies stage`tree, stage`made
    ensures ok <==> Fillable(k, dirs[i].path, env)
    ensures stage.tree.Keys == old(stage.tree.Keys) + if ok then {dirs[i].path} else {}
    ensures AsMade(stage.tree, k, stage.made, env) && ParentsFirst(stage.made)
  {
    ParentMade(k, es, dirs, i, less, env);
    DirectoryMode(k, es, dirs, i, less, env);
    hide DescribesTree, Directories;
    assert Parent(dirs[i].path) in stage.tree;
    MadeStep(stage.made, dirs[i].path);
    ok := stage.Mkdir(dirs[i].path, dirs[i].mode, env);
  }

  lemma DirectoryMode(k: Tree, es: seq<Entry>, dirs: seq<Entry>, i: nat, less: (Path, Path) -> bool, env: Platform)
    requires DescribesTree(k, es, env) && dirs == Directories(es, less) && i < |dirs|
    ensures dirs[i].DirEntry? && dirs[i].path in k && k[dirs[i].path] == Dir(dirs[i].mode)
  {
    DirectoriesFacts(es, less);
    assert dirs[i] in dirs;
    EntryIsListed(k, es, dirs[i], env);
  }

  /** Directories with the modes they were made with. */
  ghost predicate AsMade(u: Tree, k: Tree, made: seq<Path>, env: Platform) {
    forall p :: p in u ==> u[p] == Dir(MadeMode(k, p, env)) && p in made
  }

  function FilePaths(es: seq<Entry>): set<Path> {
    set i | 0 <= i < |es| && es[i].FileEntry? :: es[i].path
  }

  lemma FilePathsSnoc(es: seq<Entry>, n: nat)
    requires n < |es|
    ensures FilePaths(es[..n + 1]) == FilePaths(es[..n]) + if es[n].FileEntry? then {es[n].path} else {}
  {
    var a, b := es[..n], es[..n + 1];
    assert b == a + [es[n]];
    forall p ensures p in FilePaths(b) <==> p in FilePaths(a) || (es[n].FileEntry? && p == es[n].path) {
      if p in FilePaths(a) {
        var i :| 0 <= i < |a| && a[i].FileEntry? && a[i].path == p;
        assert b[i].path == p && b[i].FileEntry?;
      }
      if p in FilePaths(b) {
        var i :| 0 <= i < |b| && b[i].FileEntry? && b[i].path == p;
        assert i < |a| ==> a[i].path == p && a[i].FileEntry?;
      }
      assert b[n].path == es[n].path;
    }
  }

  /** Directories and files of a described tree are told apart by their paths. */
  lemma PathsSplit(k: Tree, es: seq<Entry>, less: (Path, Path) -> bool, env: Platform)
    requires DescribesTree(k, es, env)
    ensures PathsOf(Directories(es, less)) == set p | p in k && p != [] && k[p].Dir?
    ensures FilePaths(es) == set p | p in k && p != [] && k[p].File?
    ensures forall p :: p in k ==> k[p].Dir? || k[p].File?
  {
    var dirs := Directories(es, less);
    DirectoriesFacts(es, less);
    forall p | p in k && p != [] ensures (k[p].Dir? || k[p].File?) && EntryOf(p, k[p], env) in es {
      EntryFor(k, es, p, env);
    }
    forall p | p in PathsOf(dirs) ensures p in k && p != [] && k[p].Dir? {
      var i :| 0 <= i < |dirs| && dirs[i].path == p;
      assert dirs[i] in dirs;
      EntryIsListed(k, es, dirs[i], env);
    }
    forall p | p in k && p != [] && k[p].Dir? ensures p in PathsOf(dirs) {
      var e := EntryOf(p, k[p], env);
      assert e in dirs;
      var i :| 0 <= i < |dirs| && dirs[i] == e;
      assert dirs[i].path == p;
    }
    forall p | p in FilePaths(es) ensures p in k && p != [] && k[p].File? {
      var i :| 0 <= i < |es| && es[i].FileEntry? && es[i].path == p;
      EntryIsListed(k, es, es[i], env);
    }
    forall p | p in k && p != [] && k[p].File? ensures p in FilePaths(es) {
      var e := EntryOf(p, k[p], env);
      var i :| 0 <= i < |es| && es[i] == e;
      assert es[i].path == p;
    }
  }

  /** A stage holds the same nodes as a tree; only the modes of directories may still differ. */
  ghost predicate Copied(u: Tree, k: Tree) {
    u.Keys == k.Keys && forall p :: p in k ==> if k[p].Dir? then u[p].Dir? else u[p] == k[p]
  }

  ghost predicate FilesCopied(u: Tree, k: Tree, dirs: set<Path>, files: set<Path>, env: Platform) {
    && u.Keys == {[]} + dirs + files
    && (forall p :: p in {[]} + dirs ==> p in u && u[p] == Dir(MadeMode(k, p, env)))
    && (forall p :: p in files ==> p in u && p in k && u[p] == k[p])
  }

  lemma FileReady(source: Tree, k: Tree, es: seq<Entry>, n: nat, u: Tree, less: (Path, Path) -> bool, env: Platform)
    requires DescribesTree(k, es, env) && n < |es| && es[n].FileEntry?
    requires forall p :: p in k ==> p in source && source[p] == k[p]
    requires FilesCopied(u, k, PathsOf(Directories(es, less)), FilePaths(es[..n]), env)
    ensures var e := es[n];
            && e.path != [] && e.path !in u && InDirectory(u, e.path)
            && (Changeable(u, e.path, env) <==> Fillable(k, e.path, env))
            && e.path in source && source[e.path].File?
            && File(e.mode, source[e.path].content) == k[e.path]
            && |source[e.path].content| == e.size && env.sha(source[e.path].content) == e.sha256
  {
    var e := es[n];
    EntryIsListed(k, es, e, env);
    PathsSplit(k, es, less, env);
    assert InDirectory(k, e.path);
  }

  lemma FileStep(k: Tree, es: seq<Entry>, n: nat, u: Tree, dirs: set<Path>, env: Platform)
    requires n < |es| && FilesCopied(u, k, dirs, FilePaths(es[..n]), env)
    requires es[n].FileEntry? ==> es[n].path in k && es[n].path !in u
    ensures FilesCopied(if es[n].FileEntry? then u[es[n].path := k[es[n].path]] else u, k, dirs,
                        FilePaths(es[..n + 1]), env)
  {
    FilePathsSnoc(es, n);
  }

  /** Copies every file, unless one has to be put in a directory whose mode forbids it. */
  method CopyFiles(stage: Stage, source: Tree, ghost k: Tree, es: seq<Entry>, less: (Path, Path) -> bool, env: Platform)
    returns (ok: bool)
    requires DescribesTree(k, es, env) && forall p :: p in k ==> p in source && source[p] == k[p]
    requires FilesCopied(stage.tree, k, PathsOf(Directories(es, less)), {}, env)
    requires Accounted(stage.tree, stage.made)
    modifies stage`tree, stage`made
    ensures ok <==> AllFillable(k, FilePaths(es), env)
    ensures ok ==> Copied(stage.tree, k)
    ensures ok ==> ParentsFirst(stage.made)
  {
    hide FilesCopied, DescribesTree, Fillable, Directories;
    ghost var dirs := PathsOf(Directories(es, less));
    assert FilePaths(es[..0]) == {};
    for n := 0 to |es|
      invariant FilesCopied(stage.tree, k, dirs, FilePaths(es[..n]), env)
      invariant Accounted(stage.tree, stage.made)
      invariant AllFillable(k, FilePaths(es[..n]), env)
    {
      FilePathsSnoc(es, n);
      ok := CopyEntry(stage, source, k, es, n, less, env);
      if !ok {
        assert es[n].path in FilePaths(es);
        return;
      }
    }
    assert es[..|es|] == es;
    AllCopied(stage.tree, k, es, less, env);
    return true;
  }

  lemma AllCopied(u: Tree, k: Tree, es: seq<Entry>, less: (Path, Path) -> bool, env: Platform)
    requires DescribesTree(k, es, env) && FilesCopied(u, k, PathsOf(Directories(es, less)), FilePaths(es), env)
    ensures Copied(u, k)
  {
    PathsSplit(k, es, less, env);
  }

  /** Every node of the stage was made, and after its parent. */
  ghost predicate Accounted(u: Tree, made: seq<Path>) {
    ParentsFirst(made) && forall p :: p in u ==> p in made
  }

  method CopyEntry(stage: Stage, source: Tree, ghost k: Tree, es: seq<Entry>, n: nat, less: (Path, Path) -> bool,
                   env: Platform)
    returns (ok: bool)
    requires DescribesTree(k, es, env) && n < |es| && forall p :: p in k ==> p in source && source[p] == k[p]
    requires FilesCopied(stage.tree, k, PathsOf(Directories(es, less)), FilePaths(es[..n]), env)
    requires Accounted(stage.tree, stage.made)
    modifies stage`tree, stage`made
    ensures ok <==> es[n].DirEntry? || Fillable(k, es[n].path, env)
    ensures ok ==> FilesCopied(stage.tree, k, PathsOf(Directories(es, less)), FilePaths(es[..n + 1]), env)
    ensures ok ==> Accounted(stage.tree, stage.made)
  {
    EntryIsListed(k, es, es[n], env);
    if es[n].FileEntry? {
      FileReady(source, k, es, n, stage.tree, less, env);
      FileStep(k, es, n, stage.tree, PathsOf(Directories(es, less)), env);
      MadeStep(stage.made, es[n].path);
      ok := stage.CopyFile(source, es[n], env);
    } else {
      FileStep(k, es, n, stage.tree, PathsOf(Directories(es, less)), env);
      ok := true;
    }
  }

  /** The tree can be copied: every directory that holds something may be filled with the mode it is made with. */
  ghost predicate Copyable(k: Tree, env: Platform) {
    forall p :: p in k ==> Fillable(k, p, env)
  }

  lemma CopyableSplit(k: Tree, es: seq<Entry>, less: (Path, Path) -> bool, env: Platform)
    requires DescribesTree(k, es, env)
    ensures Copyable(k, env) <==>
            AllFillable(k, PathsOf(Directories(es, less)), env) && AllFillable(k, FilePaths(es), env)
  {
    PathsSplit(k, es, less, env);
    hide DescribesTree, Directories, MadeMode;
    forall p | p in k && p != [] ensures p in PathsOf(Directories(es, less)) || p in FilePaths(es) {}
  }

  /** A file in a directory of mode 0555: whoever may not change such a directory cannot copy it. */
  lemma ReadOnlyDirectoryBlocks(content: string, env: Platform)
    requires !env.opens(env.masked(0x16d))
    ensures var t: Tree := map[[] := Dir(0x1ed), ["d"] := Dir(0x16d), ["d", "f"] := File(0x124, content)];
            Rooted(t) && !Copyable(Kept(t, {}), env)
  {
    var t: Tree := map[[] := Dir(0x1ed), ["d"] := Dir(0x16d), ["d", "f"] := File(0x124, content)];
    var p := ["d", "f"];
    assert Parent(p) == ["d"] && Parent(["d"]) == [];
    assert p in Kept(t, {}) && !Fillable(Kept(t, {}), p, env);
  }

  lemma DirectoriesMade(u: Tree, k: Tree, es: seq<Entry>, made: seq<Path>, less: (Path, Path) -> bool, env: Platform)
    requires AsMade(u, k, made, env) && u.Keys == {[]} + PathsOf(Directories(es, less)) && ParentsFirst(made)
    ensures FilesCopied(u, k, PathsOf(Directories(es, less)), {}, env) && Accounted(u, made)
  {}

  /**
   Copies a snapshot of an unchanging source into a stage that must not exist yet. Directories are made with
   the modes of the source, so that one that holds something must have a mode that allows filling it.
   */
  method CopySnapshotToNewStage(stage: Stage, source: Tree, excluded: set<string>, expected: Manifest,
    less: (Path, Path) -> bool, env: Platform) returns (ok: bool)
    requires Rooted(source) && Lawful(env) && SnapshotOf(source, excluded, env) == Some(expected)
    requires stage.made == []
    modifies stage`tree, stage`made
    ensures ok <==> old(stage.tree) == map[] && Copyable(Kept(source, excluded), env)
    ensures ok ==> Copied(stage.tree, Kept(source, excluded)) && ParentsFirst(stage.made)
    ensures old(stage.tree) != map[] ==> stage.tree == old(stage.tree)
  {
    if stage.tree != map[] {
      return false;
    }
    ghost var k := Kept(source, excluded);
    SnapshotDescribes(source, excluded, env);
    CopyableSplit(k, expected.entries, less, env);
    hide DescribesTree, Directories, Copyable, AllFillable, AsMade, FilesCopied, PathsOf, FilePaths;
    ok := stage.Mkdir([], PRIVATE_MODE, env);
    MadeStep([], []);
    ok := MakeDirectories(stage, k, expected.entries, less, env);
    if !ok {
      return;
    }
    DirectoriesMade(stage.tree, k, expected.entries, stage.made, less, env);
    ok := CopyFiles(stage, source, k, expected.entries, less, env);
    if !ok {
      return;
    }
    var after := SnapshotDirectory(source, excluded, env);
    return after == Some(expected);
  }

  /** Deeper directories come first, and the root last. */
  ghost predicate DeepestFirst(chmods: seq<Path>) {
    forall i, j :: 0 <= i < j < |chmods| ==> |chmods[i]| >= |chmods[j]|
  }

  /** No directory still to come is deeper than one already done. */
  ghost predicate NoneDeeper(chmods: seq<Path>, dirs: seq<Entry>, i: nat)
    requires i <= |dirs|
  {
    forall j, c :: 0 <= j < i && 0 <= c < |chmods| ==> |dirs[j].path| <= |chmods[c]|
  }

  lemma DeepestStep(chmods: seq<Path>, dirs: seq<Entry>, i: nat)
    requires ByDepth(dirs) && i < |dirs| && DeepestFirst(chmods) && NoneDeeper(chmods, dirs, i + 1)
    ensures DeepestFirst(chmods + [dirs[i].path]) && NoneDeeper(chmods + [dirs[i].path], dirs, i)
  {}

  ghost predicate ModesSet(u: Tree, k: Tree, dirs: seq<Entry>, i: nat)
    requires i <= |dirs|
  {
    Copied(u, k) && forall j :: i <= j < |dirs| ==>
        dirs[j].path in u && dirs[j].path in k && u[dirs[j].path] == k[dirs[j].path]
  }

  lemma ModeStep(u: Tree, k: Tree, es: seq<Entry>, i: nat, less: (Path, Path) -> bool, env: Platform)
    requires DescribesTree(k, es, env) && i < |Directories(es, less)| && ModesSet(u, k, Directories(es, less), i + 1)
    ensures var e := Directories(es, less)[i];
            && e.DirEntry? && e.path in u && u[e.path].Dir? && k[e.path] == Dir(e.mode)
            && ModesSet(u[e.path := Dir(e.mode)], k, Directories(es, less), i)
  {
    var dirs := Directories(es, less);
    DirectoriesFacts(es, less);
    assert dirs[i] in dirs;
    EntryIsListed(k, es, dirs[i], env);
  }

  method ApplySnapshotPermissions(stage: Stage, expected: Manifest, ghost k: Tree, less: (Path, Path) -> bool,
                                  env: Platform)
    returns (ok: bool)
    requires DescribesTree(k, expected.entries, env) && k[[]] == Dir(expected.rootMode) && Copied(stage.tree, k)
    requires stage.chmods == []
    modifies stage`tree, stage`chmods
    ensures ok && stage.tree == k && DeepestFirst(stage.chmods)
  {
    var dirs := Directories(expected.entries, less);
    DirectoriesFacts(expected.entries, less);
    var i: nat := |dirs|;
    while i > 0
      invariant i <= |dirs| && ModesSet(stage.tree, k, dirs, i)
      invariant DeepestFirst(stage.chmods) && NoneDeeper(stage.chmods, dirs, i)
    {
      i := i - 1;
      ModeStep(stage.tree, k, expected.entries, i, less, env);
      DeepestStep(stage.chmods, dirs, i);
      ok := stage.Chmod(dirs[i].path, dirs[i].mode);
      if !ok {
        return;
      }
    }
    ok := stage.Chmod([], expected.rootMode);
    AllModesSet(stage.tree, k, expected.entries, less, env);
  }

  lemma AllModesSet(u: Tree, k: Tree, es: seq<Entry>, less: (Path, Path) -> bool, env: Platform)
    requires DescribesTree(k, es, env) && ModesSet(u, k, Directories(es, less), 0) && u[[]] == k[[]]
    ensures u == k
  {
    var dirs := Directories(es, less);
    PathsSplit(k, es, less, env);
    forall p | p in k ensures u[p] == k[p] {
      if p != [] && k[p].Dir? {
        assert p in PathsOf(dirs);
        var j :| 0 <= j < |dirs| && dirs[j].path == p;
      }
    }
  }

  /**
   The round trip, for a source that can be copied: the copy of an unchanging source, after its permissions are
   set, is the source without its excluded root entries, and its own snapshot is the one it was made from.
   */
  method StageOwner(source: Tree, excluded: set<string>, less: (Path, Path) -> bool, env: Platform)
    returns (stage: Stage, expected: Option<Manifest>, staged: Option<Manifest>)
    requires Rooted(source) && Lawful(env)
    ensures expected == SnapshotOf(source, excluded, env)
    ensures staged == if Copyable(Kept(source, excluded), env) then expected else None
    ensures staged.Some? ==>
              && fresh(stage) && stage.tree == Kept(source, excluded)
              && ParentsFirst(stage.made) && DeepestFirst(stage.chmods)
              && forall p :: p in stage.tree && p != [] ==> p[0] !in excluded
  {
    stage := new Stage();
    expected := SnapshotDirectory(source, excluded, env);
    if expected.None? {
      return stage, expected, None;
    }
    ghost var k := Kept(source, excluded);
    SnapshotDescribes(source, excluded, env);
    SnapshotOfKept(source, excluded, env);
    var ok := CopySnapshotToNewStage(stage, source, excluded, expected.value, less, env);
    if ok {
      ok := ApplySnapshotPermissions(stage, expected.value, k, less, env);
    }
    if !ok {
      return stage, expected, None;
    }
    staged := SnapshotDirectory(stage.tree, {}, env);
  }
}
