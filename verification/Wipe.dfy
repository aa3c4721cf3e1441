/**
  cores/ardulinux/main.cpp: rmrf and unlink_cb, the wipe of a directory tree. nftw() is called
  with FTW_DEPTH and FTW_PHYS, so it reports everything below a directory before the directory
  itself and never follows a symbolic link (nftw() in the System Interfaces volume of
  POSIX.1-2017); the order among siblings is up to it.
 */
module Wipe {
  type Path = seq<string>

  /** Siblings come in the order in which nftw happens to visit them. A symbolic link is a Leaf. */
  datatype Tree = Leaf(name: string) | Dir(name: string, kids: seq<Tree>)

  ghost predicate WellFormed(t: Tree) {
    t.Dir? ==> (forall k :: k in t.kids ==> WellFormed(k)) && DistinctNames(t.kids)
  }

  ghost predicate DistinctNames(ts: seq<Tree>) {
    forall i, j :: 0 <= i < j < |ts| ==> ts[i].name != ts[j].name
  }

  /** The order in which the callback sees the entries of `t`, which lies in directory `at`. */
  function PostOrder(t: Tree, at: Path): seq<Path>
    decreases t
  {
    (if t.Dir? then PostOrderAll(t.kids, at + [t.name]) else []) + [at + [t.name]]
  }

  function PostOrderAll(ts: seq<Tree>, at: Path): seq<Path>
    decreases ts
  {
    if ts == [] then [] else PostOrder(ts[0], at) + PostOrderAll(ts[1..], at)
  }

  /** `names` leads from the root of `t` to one of its entries. */
  predicate InTree(t: Tree, names: seq<string>)
    decreases t
  {
    && names != [] && names[0] == t.name
    && (|names| == 1 || (t.Dir? && exists k :: k in t.kids && InTree(k, names[1..])))
  }

  /** The callback sees every entry of the tree, and nothing else. */
  lemma {:induction false} VisitsAreEntries(t: Tree, at: Path, p: Path)
    ensures p in PostOrder(t, at) <==> at <= p && InTree(t, p[|at|..])
    decreases t
  {
    var here := at + [t.name];
    if t.Dir? {
      ForestVisitsAreEntries(t.kids, here, p);
    }
    if at <= p && p[|at|..] != [] && p[|at|..][0] == t.name {
      assert p == at + p[|at|..];
      assert here <= p && p[|here|..] == p[|at|..][1..];
      assert |p[|at|..]| == 1 ==> p == here;
    }
  }

  lemma {:induction false} ForestVisitsAreEntries(ts: seq<Tree>, at: Path, p: Path)
    ensures p in PostOrderAll(ts, at) <==> at <= p && exists k :: k in ts && InTree(k, p[|at|..])
    decreases ts
  {
    if ts != [] {
      VisitsAreEntries(ts[0], at, p);
      ForestVisitsAreEntries(ts[1..], at, p);
      assert ts == [ts[0]] + ts[1..];
    }
  }

  // ---- the order puts children first ----

  /** Descendants come earlier, and nothing comes twice. */
  ghost predicate ChildrenFirst(v: seq<Path>) {
    && (forall i, j :: 0 <= i < |v| && 0 <= j < |v| && v[i] < v[j] ==> j < i)
    && (forall i, j :: 0 <= i < j < |v| ==> v[i] != v[j])
  }

  /** Every path of `v` lies in directory `at`, under one of `names`. */
  ghost predicate Under(v: seq<Path>, at: Path, names: set<string>) {
    forall i :: 0 <= i < |v| ==> at < v[i] && v[i][|at|] in names
  }

  lemma ConcatChildrenFirst(a: seq<Path>, b: seq<Path>, at: Path, m: set<string>, n: set<string>)
    requires ChildrenFirst(a) && ChildrenFirst(b) && Under(a, at, m) && Under(b, at, n) && m !! n
    ensures ChildrenFirst(a + b) && Under(a + b, at, m + n)
  {
    forall i, j | 0 <= i < |a| && 0 <= j < |b|
      ensures !(a[i] <= b[j]) && !(b[j] <= a[i])
    {
      assert a[i][|at|] in m && b[j][|at|] in n;
    }
    var v := a + b;
    forall i, j | 0 <= i < |v| && 0 <= j < |v| && v[i] < v[j]
      ensures j < i
    {
      assert (i < |a|) == (j < |a|);
    }
  }

  function Names(ts: seq<Tree>): set<string> {
    set t | t in ts :: t.name
  }

  lemma {:induction false} TreeChildrenFirst(t: Tree, at: Path)
    requires WellFormed(t)
    ensures ChildrenFirst(PostOrder(t, at)) && Under(PostOrder(t, at), at, {t.name})
    ensures forall p :: p in PostOrder(t, at) ==> at + [t.name] <= p
    decreases t
  {
    var here := at + [t.name];
    if t.Dir? {
      ForestChildrenFirst(t.kids, here);
      var below := PostOrderAll(t.kids, here);
      assert forall i :: 0 <= i < |below| ==> here < below[i] && below[i][|at|] == t.name;
    }
  }

  lemma {:induction false} ForestChildrenFirst(ts: seq<Tree>, at: Path)
    requires (forall t :: t in ts ==> WellFormed(t)) && DistinctNames(ts)
    ensures ChildrenFirst(PostOrderAll(ts, at)) && Under(PostOrderAll(ts, at), at, Names(ts))
    decreases ts
  {
    if ts != [] {
      TreeChildrenFirst(ts[0], at);
      ForestChildrenFirst(ts[1..], at);
      assert ts == [ts[0]] + ts[1..];
      assert Names(ts) == {ts[0].name} + Names(ts[1..]);
      ConcatChildrenFirst(PostOrder(ts[0], at), PostOrderAll(ts[1..], at), at, {ts[0].name}, Names(ts[1..]));
    }
  }

  // ---- the wipe ----

  function Elements(v: seq<Path>): set<Path> {
    set p | p in v
  }

  /** Every entry but those outside the wiped tree has its parent directory. */
  ghost predicate IsTree(paths: set<Path>, root: Path) {
    root in paths && forall p :: p in paths && root < p ==> p[..|p| - 1] in paths
  }

  predicate Empty(paths: set<Path>, dir: Path) {
    forall p :: p in paths ==> !(dir < p)
  }

  class FileSystem {
    var paths: set<Path>

    constructor (paths: set<Path>)
      ensures this.paths == paths
    {
      this.paths := paths;
    }

    /** remove(): only ever called on a file or an empty directory, which the precondition states. */
    method Remove(path: Path, fails: bool) returns (rv: int)
      requires path in paths && Empty(paths, path)
      modifies this
      ensures rv == 0 <==> !fails
      ensures paths == if fails then old(paths) else old(paths) - {path}
    {
      if fails {
        return -1;
      }
      paths := paths - {path};
      rv := 0;
    }

    /** unlink_cb: the entry at level 0, the root itself, is left alone. */
    method UnlinkCb(path: Path, level: nat, fails: bool) returns (rv: int)
      requires level > 0 ==> path in paths && Empty(paths, path)
      modifies this
      ensures rv == 0 <==> level == 0 || !fails
      ensures paths == if level == 0 || fails then old(paths) else old(paths) - {path}
    {
      rv := 0;
      if 0 < level {
        rv := Remove(path, fails);
      }
    }

    /** nftw reports entry `i`: it calls unlink_cb with the entry's path and depth below the root. */
    method Visit(ghost t: Tree, at: Path, ghost i: nat, ghost before: set<Path>, path: Path, fails: Path -> bool)
      returns (rv: int)
      requires OnDisk(t, at, before) && i < |PostOrder(t, at)| && path == PostOrder(t, at)[i]
      requires paths == Left(PostOrder(t, at), i, at + [t.name], before)
      modifies this
      ensures var v, root := PostOrder(t, at), at + [t.name];
              && paths == Left(v, if rv == 0 then i + 1 else i, root, before)
              && (rv == 0 <==> Allowed(path, root, fails))
              && (rv != 0 ==> path in paths && IsTree(paths * Elements(v), root))
    {
      WalkStep(t, at, i, before);
      rv := UnlinkCb(path, |path| - (|at| + 1), fails(path));
    }

    /**
      rmrf: nftw calls unlink_cb on each entry until one call fails. `fails` says which removals
      the system refuses. `done` counts the entries visited without a failure.
     */
    method Rmrf(t: Tree, at: Path, fails: Path -> bool) returns (rv: int, ghost done: nat)
      requires OnDisk(t, at, paths)
      modifies this
      ensures var v, root := PostOrder(t, at), at + [t.name];
              && done <= |v|
              && paths == Left(v, done, root, old(paths))
              && IsTree(paths * Elements(v), root)
              && (rv == 0 <==> done == |v|)
              && NoneFails(v, done, root, fails)
              && (rv == 0 ==> paths * Elements(v) == {root})
              && (rv == 0 ==> forall p :: p in paths <==> p in old(paths) && !(root < p))
              && (rv != 0 ==> v[done] in paths && !Allowed(v[done], root, fails))
    {
      var visits, root := PostOrder(t, at), at + [t.name];
      ghost var before := paths;
      WalkStart(t, at, before);
      rv, done := 0, 0;
      var i := 0;
      while i < |visits|
        invariant rv == 0 && 0 <= i == done <= |visits|
        invariant paths == Left(visits, i, root, before)
        invariant NoneFails(visits, i, root, fails)
      {
        rv := Visit(t, at, i, before, visits[i], fails);
        if rv != 0 {
          return;
        }
        i, done := i + 1, done + 1;
      }
      WalkEnd(t, at, before);
    }
  }

  /** The root is never removed; anything else is unless the system refuses. */
  predicate Allowed(path: Path, root: Path, fails: Path -> bool) {
    path == root || !fails(path)
  }

  /** The system refuses none of the first `n` removals; the root is not removed. */
  ghost predicate NoneFails(v: seq<Path>, n: nat, root: Path, fails: Path -> bool)
    requires n <= |v|
  {
    forall i :: 0 <= i < n ==> Allowed(v[i], root, fails)
  }

  /** The tree as it lies on the disk: all of it, and nothing else below its root. */
  ghost predicate OnDisk(t: Tree, at: Path, paths: set<Path>) {
    && WellFormed(t)
    && forall p :: at + [t.name] <= p ==> (p in paths <==> InTree(t, p[|at|..]))
  }

  lemma OnDiskIsVisited(t: Tree, at: Path, paths: set<Path>)
    requires OnDisk(t, at, paths)
    ensures Elements(PostOrder(t, at)) <= paths
    ensures forall p :: p in paths && at + [t.name] <= p ==> p in PostOrder(t, at)
  {
    forall p
      ensures p in PostOrder(t, at) ==> p in paths
      ensures p in paths && at + [t.name] <= p ==> p in PostOrder(t, at)
    {
      VisitsAreEntries(t, at, p);
      if p in PostOrder(t, at) {
        assert at + [t.name] <= p;
      }
    }
  }

  lemma WalkStart(t: Tree, at: Path, before: set<Path>)
    ensures Left(PostOrder(t, at), 0, at + [t.name], before) == before
  {
  }

  /** Visiting the entries before `i` has left a tree in which entry `i` exists and is empty. */
  lemma WalkStep(t: Tree, at: Path, i: nat, before: set<Path>)
    requires OnDisk(t, at, before) && i < |PostOrder(t, at)|
    ensures var v, root := PostOrder(t, at), at + [t.name];
            var paths := Left(v, i, root, before);
            && v[i] in paths && Empty(paths, v[i]) && IsTree(paths * Elements(v), root)
            && |root| <= |v[i]| && (|v[i]| == |root| <==> v[i] == root)
            && Left(v, i + 1, root, before) == (if v[i] == root then paths else paths - {v[i]})
  {
    var v, root := PostOrder(t, at), at + [t.name];
    OnDiskIsVisited(t, at, before);
    TreeChildrenFirst(t, at);
    TreeParents(t, at);
    assert v[i] in v;
    VisitIsEmpty(v, i, root, before);
    VisitNext(v, i, root, before);
    RestIsTree(v, i, root, before);
  }

  /** A walk that met no failure has left exactly the bare root. */
  lemma WalkEnd(t: Tree, at: Path, before: set<Path>)
    requires OnDisk(t, at, before)
    ensures var v, root := PostOrder(t, at), at + [t.name];
            var paths := Left(v, |v|, root, before);
            && paths * Elements(v) == {root} && IsTree(paths * Elements(v), root)
            && forall p :: p in paths <==> p in before && !(root < p)
  {
    var v, root := PostOrder(t, at), at + [t.name];
    OnDiskIsVisited(t, at, before);
    TreeChildrenFirst(t, at);
    TreeParents(t, at);
    assert v[|v| - 1] == root;
    RestIsTree(v, |v|, root, before);
    WholeWalk(v, root, before);
  }

  lemma WholeWalk(v: seq<Path>, root: Path, before: set<Path>)
    requires Elements(v) <= before && root in v && forall p :: p in v ==> root <= p
    requires forall p :: p in before && root <= p ==> p in v
    ensures var paths := Left(v, |v|, root, before);
            paths * Elements(v) == {root} && forall p :: p in paths <==> p in before && !(root < p)
  {
    var paths := Left(v, |v|, root, before);
    assert v[..|v|] == v;
    assert root in Elements(v);
    assert paths == before - (Elements(v) - {root});
    forall p
      ensures p in paths <==> p in before && !(root < p)
    {
      if p in before && root < p {
        assert p in Elements(v) && p != root;
      } else if p in v {
        assert root <= p;
        assert !(root < p) ==> p == root;
      }
    }
  }

  lemma DescendantsEarlier(v: seq<Path>, i: nat, p: Path)
    requires ChildrenFirst(v) && i < |v| && p in v && v[i] < p
    ensures p in v[..i]
  {
    var j :| 0 <= j < |v| && v[j] == p;
    assert j < i && v[..i][j] == p;
  }

  lemma AncestorsLater(v: seq<Path>, i: nat, p: Path, ancestor: Path)
    requires ChildrenFirst(v) && i <= |v| && p in v && ancestor in v && ancestor < p && p !in v[..i]
    ensures ancestor !in v[..i]
  {
    assert v == v[..i] + v[i..];
    var j :| i <= j < |v| && v[j] == p;
    var k :| 0 <= k < |v| && v[k] == ancestor;
    assert i <= j < k;
    forall l | 0 <= l < i
      ensures v[..i][l] != ancestor
    {
      assert v[l] != v[k];
    }
  }

  /** What is left after the first `i` visits: the root is never removed. */
  ghost function Left(v: seq<Path>, i: nat, root: Path, before: set<Path>): set<Path>
    requires i <= |v|
  {
    before - (Elements(v[..i]) - {root})
  }

  /** What nftw reports next still exists, and everything below it is gone. */
  lemma VisitIsEmpty(v: seq<Path>, i: nat, root: Path, before: set<Path>)
    requires ChildrenFirst(v) && i < |v| && Elements(v) <= before
    requires forall p :: p in v ==> root <= p
    requires forall p :: p in before && root <= p ==> p in v
    ensures v[i] in Left(v, i, root, before) && Empty(Left(v, i, root, before), v[i])
  {
    assert v[i] in v && v[i] in Elements(v);
    assert v[i] !in v[..i];
    forall p | v[i] < p
      ensures p !in Left(v, i, root, before)
    {
      assert root <= v[i] && root < p;
      if p in before {
        DescendantsEarlier(v, i, p);
      }
    }
  }

  lemma VisitNext(v: seq<Path>, i: nat, root: Path, before: set<Path>)
    requires i < |v|
    ensures Left(v, i + 1, root, before)
            == if v[i] == root then Left(v, i, root, before) else Left(v, i, root, before) - {v[i]}
  {
    assert v[..i + 1] == v[..i] + [v[i]];
  }

  /** Cutting a post-order walk short leaves a tree. */
  lemma RestIsTree(v: seq<Path>, i: nat, root: Path, before: set<Path>)
    requires ChildrenFirst(v) && i <= |v| && Elements(v) <= before && root in v && ParentsIn(v, root)
    ensures IsTree(Left(v, i, root, before) * Elements(v), root)
  {
    var rest := Left(v, i, root, before) * Elements(v);
    forall p | p in rest && root < p
      ensures p[..|p| - 1] in rest
    {
      var parent := p[..|p| - 1];
      assert p in v && parent in v;
      AncestorsLater(v, i, p, parent);
    }
  }

  ghost predicate ParentsIn(v: seq<Path>, root: Path) {
    forall p :: p in v && root < p ==> p[..|p| - 1] in v
  }

  lemma {:induction false} TreeParents(t: Tree, at: Path)
    requires WellFormed(t)
    ensures ParentsIn(PostOrder(t, at), at + [t.name])
    decreases t
  {
    if t.Dir? {
      ForestParents(t.kids, at + [t.name]);
      ForestChildrenFirst(t.kids, at + [t.name]);
    }
  }

  lemma {:induction false} ForestParents(ts: seq<Tree>, at: Path)
    requires (forall t :: t in ts ==> WellFormed(t)) && DistinctNames(ts)
    ensures forall p :: p in PostOrderAll(ts, at) ==>
              at < p && (p[..|p| - 1] == at || p[..|p| - 1] in PostOrderAll(ts, at))
    decreases ts
  {
    if ts != [] {
      var first := PostOrder(ts[0], at);
      TreeParents(ts[0], at);
      TreeChildrenFirst(ts[0], at);
      ForestParents(ts[1..], at);
      forall p | p in first
        ensures at < p && (p[..|p| - 1] == at || p[..|p| - 1] in first)
      {
        assert at + [ts[0].name] <= p;
        assert p == at + [ts[0].name] ==> p[..|p| - 1] == at;
      }
    }
  }
}
