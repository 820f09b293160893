/**
  The mount namespace being built under the sandbox root: the log of mounts made
  so far, the tree of paths visible through them, and the few system calls that
  change either. Paths are relative to the sandbox root. The kernel's answers are
  arbitrary functions of the call number.
 */
module Namespace {
  import opened Text
  import opened Paths

  // ----- the visible tree -----

  datatype Node = Absent | Directory | File

  type Tree = Path -> Node

  /** The root is a directory, and so is the parent of everything that exists. */
  ghost predicate ParentClosed(t: Tree) {
    && t(ROOT) == Directory
    && forall p: Path {:trigger Parent(p)} :: |p| > 0 && t(p) != Absent ==> t(Parent(p)) == Directory
  }

  lemma {:induction false} AncestorsExist(t: Tree, a: Path, p: Path)
    requires ParentClosed(t) && t(p) != Absent && a < p
    ensures t(a) == Directory
    decreases |p|
  {
    if a != Parent(p) {
      AncestorsExist(t, a, Parent(p));
    }
  }

  /** Some ancestor is a file, so `stat` answers ENOTDIR rather than ENOENT. */
  predicate BelowFile(t: Tree, p: Path) {
    |p| > 0 && (t(Parent(p)) == File || (t(Parent(p)) == Absent && BelowFile(t, Parent(p))))
  }

  function With(t: Tree, path: Path, node: Node): Tree {
    p => if p == path then node else t(p)
  }

  /** The tree once the subtree of `shown` at `source` is mounted on `target`. */
  function Mounted(t: Tree, target: Path, shown: Tree, source: Path): Tree {
    p => if target <= p then shown(source + p[|target|..]) else t(p)
  }

  lemma MountedStaysClosed(t: Tree, target: Path, shown: Tree, source: Path)
    requires ParentClosed(t) && ParentClosed(shown)
    requires t(target) == shown(source) != Absent
    ensures ParentClosed(Mounted(t, target, shown, source))
  {
    var r := Mounted(t, target, shown, source);
    assert source + target[|target|..] == source;
    forall p: Path | |p| > 0 && r(p) != Absent
      ensures r(Parent(p)) == Directory
    {
      if target < p {
        assert Parent(source + p[|target|..]) == source + Parent(p)[|target|..];
      } else if target != p {
        assert !(target <= Parent(p));
      }
    }
    if target == ROOT {
      assert source + ROOT[0..] == source;
    }
  }

  /** Where nothing was, a mount hides nothing. */
  lemma MountHidesNothing(before: Tree, grown: Tree, host: Tree, target: Path, source: Path)
    requires ParentClosed(before) && before(target) == Absent
    requires forall p :: before(p) != Absent ==> grown(p) == before(p)
    ensures forall p :: before(p) != Absent ==> Mounted(grown, target, host, source)(p) == before(p)
  {
    forall p | before(p) != Absent
      ensures Mounted(grown, target, host, source)(p) == before(p)
    {
      NothingBelowAbsent(before, target, p);
    }
  }

  lemma NothingBelowAbsent(t: Tree, target: Path, p: Path)
    requires ParentClosed(t) && t(target) == Absent && t(p) != Absent
    ensures !(target <= p)
  {
    assert target <= p && |target| == |p| ==> target == p;
    if target < p {
      AncestorsExist(t, target, p);
    }
  }

  // ----- the log of mounts -----

  /** Why a mount was made: the classes of the plan, in the order it mounts them. */
  datatype Policy = Earlier | Bind | Leftover | Overlay | Writable | WorkingDir | Completed

  datatype Mount = Mount(target: Path, policy: Policy, source: Path, readOnly: bool)

  type Log = seq<Mount>

  /** Host directories mounted on their own paths. */
  function PlainMounts(paths: seq<Path>, policy: Policy): Log {
    seq(|paths|, i requires 0 <= i < |paths| => Mount(paths[i], policy, paths[i], false))
  }

  /** The mount a path is served by: the last one whose target covers it. */
  function Serving(log: Log, p: Path): (r: Option<nat>)
    ensures r.Some? ==> r.value < |log| && log[r.value].target <= p
  {
    if |log| == 0 then None
    else if log[|log| - 1].target <= p then Some(|log| - 1)
    else Serving(log[..|log| - 1], p)
  }

  lemma {:induction false} ServingIsLast(log: Log, p: Path)
    ensures
      var r := Serving(log, p);
      forall i :: (if r.Some? then r.value + 1 else 0) <= i < |log| ==> !(log[i].target <= p)
  {
    if |log| > 0 && !(log[|log| - 1].target <= p) {
      ServingIsLast(log[..|log| - 1], p);
    }
  }

  /** The host path behind a sandbox path. */
  function HostPath(log: Log, p: Path): Option<Path> {
    match Serving(log, p)
    case None => None
    case Some(i) => Some(log[i].source + p[|log[i].target|..])
  }

  lemma ServingIs(log: Log, p: Path, i: nat)
    requires i < |log| && log[i].target <= p
    requires forall j :: i < j < |log| ==> !(log[j].target <= p)
    ensures Serving(log, p) == Some(i)
  {
  }

  /** Behind a mount of the plan, whatever exists on the host shows in the tree as it is. */
  ghost predicate Shows(host: Tree, log: Log, t: Tree) {
    forall p: Path :: ShownBehind(host, log, t, p)
  }

  predicate ShownBehind(host: Tree, log: Log, t: Tree, p: Path) {
    var i := Serving(log, p);
    i.Some? && log[i.value].policy != Earlier ==> ShownAt(host, log[i.value], t, p)
  }

  predicate ShownAt(host: Tree, m: Mount, t: Tree, p: Path)
    requires m.target <= p
  {
    var h := m.source + p[|m.target|..];
    host(h) != Absent ==> t(p) == host(h)
  }

  /** The mount that serves the path is mounted just there. */
  predicate MountedAt(log: Log, target: Path) {
    Serving(log, target).Some? && log[Serving(log, target).value].target == target
  }

  lemma ServingSnoc(log: Log, m: Mount, p: Path)
    ensures Serving(log + [m], p) == if m.target <= p then Some(|log|) else Serving(log, p)
  {
    assert (log + [m])[..|log|] == log;
  }

  lemma MountShows(host: Tree, log: Log, t: Tree, m: Mount)
    requires Shows(host, log, t)
    ensures Shows(host, log + [m], Mounted(t, m.target, host, m.source))
  {
    forall p: Path
      ensures ShownBehind(host, log + [m], Mounted(t, m.target, host, m.source), p)
    {
      assert ShownBehind(host, log, t, p);
      ServingSnoc(log, m, p);
    }
  }

  lemma MadeShows(host: Tree, log: Log, t: Tree, path: Path, node: Node)
    requires Shows(host, log, t) && t(path) == Absent
    ensures Shows(host, log, With(t, path, node))
  {
    forall p: Path
      ensures ShownBehind(host, log, With(t, path, node), p)
    {
      assert ShownBehind(host, log, t, p);
    }
  }

  lemma RemountShows(host: Tree, log: Log, t: Tree, at: nat, readOnly: bool)
    requires at < |log| && Shows(host, log, t)
    ensures Shows(host, log[at := log[at].(readOnly := readOnly)], t)
  {
    var changed := log[at := log[at].(readOnly := readOnly)];
    forall p: Path
      ensures ShownBehind(host, changed, t, p)
    {
      assert ShownBehind(host, log, t, p);
      ModesDoNotServe(log, changed, p);
    }
  }

  /** Old mounts that change only their mode serve the same paths. */
  lemma ModesDoNotServe(before: Log, after: Log, p: Path)
    requires |before| == |after|
    requires forall i :: 0 <= i < |before| ==> before[i].target == after[i].target
    ensures Serving(before, p) == Serving(after, p)
  {
  }

  // ----- system calls -----

  datatype Errno = Ok | EACCES | EPERM | EINVAL | ENOENT | ESTALE | ENODEV | OtherError

  /**
    The host, what it tells about its paths, and the kernel's answer to the n-th
    call: whether a bind mount is accepted, what an overlay mount or a remount
    returns, and whether a node can be created. `statAnswer` is false for a path of
    the sandbox on which `stat` fails otherwise than for its absence.
   */
  datatype Kernel = Kernel(
    host: Tree,
    statvfs: Path -> bool,
    listing: Path -> Option<seq<Path>>,
    bindAnswer: nat -> bool,
    overlayAnswer: nat -> Errno,
    remountAnswer: nat -> Errno,
    statAnswer: Path -> bool,
    createAnswer: nat -> bool)

  /** A kernel that refuses nothing it is asked, overlays aside. */
  ghost predicate Cooperative(k: Kernel) {
    && (forall n :: k.bindAnswer(n) && k.createAnswer(n) && k.remountAnswer(n) == Ok)
    && (forall p :: k.statAnswer(p))
  }

  /** The result of `CreateTarget`; `Died` is the end of the process. */
  datatype Creation = Made | Refused | Died

  datatype Outcome = Done | Dead

  /** The namespace between two steps, with the calls made so far. */
  datatype Snapshot = Snapshot(log: Log, tree: Tree, calls: nat)

  /** How many directories are missing between the path and what exists. */
  function MissingAbove(t: Tree, p: Path): nat {
    if |p| == 0 || t(Parent(p)) != Absent then 0 else 1 + MissingAbove(t, Parent(p))
  }

  /** The parent of the path can be looked up, and it is a directory or gets made, from the top down. */
  predicate ParentsMade(k: Kernel, t: Tree, calls: nat, p: Path)
    decreases |p|
  {
    |p| > 0 ==>
      && k.statAnswer(Parent(p))
      && (t(Parent(p)) == Absent ==>
            ParentsMade(k, t, calls, Parent(p)) && k.createAnswer(calls + MissingAbove(t, Parent(p)) + 1))
  }

  /** The answer of `CreateTarget` in terms of the tree and of the kernel's answers from call `calls` on. */
  function CreationOf(k: Kernel, t: Tree, calls: nat, p: Path, isDirectory: bool): Creation {
    if !k.statAnswer(p) then Refused
    else if t(p) != Absent then (if (t(p) == Directory) == isDirectory then Made else Refused)
    else if BelowFile(t, p) then Refused
    else if !ParentsMade(k, t, calls, p) then Died
    else if k.createAnswer(calls + MissingAbove(t, p) + 1) then Made
    else if isDirectory then Refused
    else Died
  }

  /** How many nodes are made on the way to a path. */
  function ToMake(t: Tree, p: Path): nat {
    if t(p) == Absent then MissingAbove(t, p) + 1 else 0
  }

  /** How many nodes the kernel is asked to make for a path, if the process lives. */
  function Asked(k: Kernel, t: Tree, p: Path): nat {
    if k.statAnswer(p) && t(p) == Absent && !BelowFile(t, p) then MissingAbove(t, p) + 1 else 0
  }

  /** The answer for a missing path in terms of the answer for its parent. */
  lemma CreationStep(k: Kernel, t: Tree, calls: nat, p: Path, isDirectory: bool)
    requires |p| > 0 && k.statAnswer(p) && t(p) == Absent && !BelowFile(t, p)
    ensures
      var next := calls + ToMake(t, Parent(p)) + 1;
      CreationOf(k, t, calls, p, isDirectory) ==
        if CreationOf(k, t, calls, Parent(p), true) != Made then Died
        else if k.createAnswer(next) then Made
        else if isDirectory then Refused
        else Died
    ensures Asked(k, t, p) == ToMake(t, p) == ToMake(t, Parent(p)) + 1
  {
  }

  lemma {:induction false} ParentsGetMade(k: Kernel, t: Tree, calls: nat, p: Path)
    requires Cooperative(k)
    ensures ParentsMade(k, t, calls, p)
    decreases |p|
  {
    if |p| > 0 {
      ParentsGetMade(k, t, calls, Parent(p));
    }
  }

  /**
    A kernel that refuses nothing never lets `CreateTarget` end the process, and a
    missing path gets made unless a file is in the way.
   */
  lemma CooperativeCreation(k: Kernel, t: Tree, calls: nat, p: Path, isDirectory: bool)
    requires Cooperative(k)
    ensures CreationOf(k, t, calls, p, isDirectory) ==
      if if t(p) == Absent then !BelowFile(t, p) else (t(p) == Directory) == isDirectory then Made else Refused
  {
    ParentsGetMade(k, t, calls, p);
  }

  // ----- trees of a given shape -----

  /** In a parent-closed tree a path is below a file exactly when one of its ancestors is a file. */
  lemma {:induction false} BelowFileIff(t: Tree, p: Path)
    requires ParentClosed(t)
    ensures BelowFile(t, p) <==> exists a: Path :: a < p && t(a) == File
    decreases |p|
  {
    if |p| > 0 {
      BelowFileIff(t, Parent(p));
      if t(Parent(p)) == File {
        assert Parent(p) < p;
      }
      if a: Path :| a < p && t(a) == File {
        assert a == Parent(p) || a < Parent(p);
        if a < Parent(p) && t(Parent(p)) != Absent {
          AncestorsExist(t, a, Parent(p));
        }
      }
    }
  }

  /** A shape says of paths which kind of node they may be; it leaves those open that are absent in it. */
  ghost predicate Fitted(t: Tree, shape: Tree) {
    forall p: Path :: t(p) != Absent && shape(p) != Absent ==> t(p) == shape(p)
  }

  ghost predicate TargetFits(shape: Tree, target: Path, node: Node) {
    node != Absent && shape(target) == node && forall a: Path :: a < target ==> shape(a) == Directory
  }

  /** Mounting the source on the target keeps to the shape. */
  ghost predicate StepFits(host: Tree, shape: Tree, source: Path, target: Path) {
    TargetFits(shape, target, host(source)) && Fitted(Mounted(shape, target, host, source), shape)
  }

  lemma MountedFits(t: Tree, shape: Tree, target: Path, host: Tree, source: Path)
    requires Fitted(t, shape) && StepFits(host, shape, source, target)
    ensures Fitted(Mounted(t, target, host, source), shape)
  {
    var mounted := Mounted(t, target, host, source);
    forall p: Path | mounted(p) != Absent && shape(p) != Absent
      ensures mounted(p) == shape(p)
    {
      if target <= p {
        assert Mounted(shape, target, host, source)(p) == mounted(p);
      }
    }
  }

  lemma MadeFits(before: Tree, after: Tree, shape: Tree, path: Path, node: Node)
    requires Fitted(before, shape) && TargetFits(shape, path, node)
    requires forall p :: after(p) != before(p) ==> p <= path && after(p) == if p == path then node else Directory
    ensures Fitted(after, shape)
  {
    forall p: Path | after(p) != Absent && shape(p) != Absent
      ensures after(p) == shape(p)
    {
      if after(p) != before(p) {
        assert p == path || p < path;
      }
    }
  }

  /** In a tree that keeps to a shape, a cooperative kernel makes every target that fits. */
  lemma CreationFits(k: Kernel, t: Tree, calls: nat, shape: Tree, p: Path, node: Node)
    requires Cooperative(k) && ParentClosed(t) && Fitted(t, shape) && TargetFits(shape, p, node)
    ensures CreationOf(k, t, calls, p, node == Directory) == Made
  {
    CooperativeCreation(k, t, calls, p, node == Directory);
    BelowFileIff(t, p);
  }

  class Sandbox {
    const kernel: Kernel
    const root: Path

    var log: Log
    var tree: Tree
    var calls: nat
    var readOnlyPaths: set<Path>

    ghost predicate Valid()
      reads this
    {
      ParentClosed(kernel.host) && ParentClosed(tree) && Shows(kernel.host, log, tree)
    }

    constructor (kernel: Kernel, root: Path, log: Log, tree: Tree)
      requires ParentClosed(kernel.host) && ParentClosed(tree) && Shows(kernel.host, log, tree)
      ensures Valid() && this.kernel == kernel && this.root == root
      ensures this.log == log && this.tree == tree && readOnlyPaths == {}
    {
      this.kernel, this.root, this.log, this.tree := kernel, root, log, tree;
      calls, readOnlyPaths := 0, {};
    }

    /**
      Makes a file or directory and the directories above it. Whatever the answers,
      the tree stays parent-closed, nothing that exists changes, and only the path
      and its ancestors can appear. The answer is told by the tree and the kernel.
     */
    method CreateTarget(path: Path, isDirectory: bool) returns (r: Creation)
      requires Valid()
      modifies this`tree, this`calls
      ensures Valid()
      ensures forall p :: old(tree)(p) != Absent ==> tree(p) == old(tree)(p)
      ensures forall p :: tree(p) != old(tree)(p) ==>
        p <= path && tree(p) == if p == path && !isDirectory then File else Directory
      ensures r != Made ==> tree(path) == old(tree)(path)
      ensures r == Made ==> tree(path) == if isDirectory then Directory else File
      ensures r == CreationOf(kernel, old(tree), old(calls), path, isDirectory)
      ensures r != Died ==> calls == old(calls) + Asked(kernel, old(tree), path)
      ensures r == Made ==> calls == old(calls) + ToMake(old(tree), path)
      ensures !kernel.statAnswer(path) || old(tree)(path) != Absent ==> tree == old(tree)
      decreases |path|
    {
      if !kernel.statAnswer(path) {
        return Refused;
      }
      if tree(path) != Absent {
        return if (tree(path) == Directory) == isDirectory then Made else Refused;
      }
      if BelowFile(tree, path) {
        return Refused;
      }
      CreationStep(kernel, tree, calls, path, isDirectory);
      var above := CreateTarget(Parent(path), true);
      if above != Made {
        return Died;
      }
      calls := calls + 1;
      if !kernel.createAnswer(calls) {
        return if isDirectory then Refused else Died;
      }
      MadeShows(kernel.host, log, tree, path, if isDirectory then Directory else File);
      tree := With(tree, path, if isDirectory then Directory else File);
      return Made;
    }

    /** `mount(..., MS_BIND)`. The target must be there and be of the source's kind. */
    method BindMount(source: Path, target: Path, policy: Policy) returns (ok: bool)
      requires Valid()
      modifies this`log, this`tree, this`calls
      ensures Valid() && calls == old(calls) + 1
      ensures ok <==> kernel.bindAnswer(calls) && kernel.host(source) == old(tree)(target) != Absent
      ensures ok ==> log == old(log) + [Mount(target, policy, source, false)]
      ensures ok ==> tree == Mounted(old(tree), target, kernel.host, source)
      ensures !ok ==> log == old(log) && tree == old(tree)
    {
      calls := calls + 1;
      ok := kernel.bindAnswer(calls) && kernel.host(source) == tree(target) && tree(target) != Absent;
      if ok {
        MountedStaysClosed(tree, target, kernel.host, source);
        MountShows(kernel.host, log, tree, Mount(target, policy, source, false));
        log := log + [Mount(target, policy, source, false)];
        tree := Mounted(tree, target, kernel.host, source);
      }
    }

    /** A target is made and the source bound to it. */
    method MakeAndBind(source: Path, target: Path, isDirectory: bool, policy: Policy, ghost shape: Tree)
      returns (made: Creation, took: bool)
      requires Valid()
      modifies this`log, this`tree, this`calls
      ensures Valid()
      ensures made == CreationOf(kernel, old(tree), old(calls), target, isDirectory)
      ensures made == Made ==>
        && calls == old(calls) + ToMake(old(tree), target) + 1
        && (took <==> kernel.bindAnswer(calls) && kernel.host(source) == if isDirectory then Directory else File)
      ensures took ==> made == Made && log == old(log) + [Mount(target, policy, source, false)]
      ensures took ==> tree(target) == kernel.host(source) != Absent
      ensures !took ==> log == old(log) && forall p :: old(tree)(p) != Absent ==> tree(p) == old(tree)(p)
      ensures took && old(tree)(target) == Absent ==> forall p :: old(tree)(p) != Absent ==> tree(p) == old(tree)(p)
      ensures forall p :: isDirectory && tree(p) == File ==>
        old(tree)(p) == File || (target <= p && kernel.host(source + p[|target|..]) == File)
      ensures
        && Fitted(old(tree), shape) && StepFits(kernel.host, shape, source, target)
        && isDirectory == (kernel.host(source) == Directory)
        ==>
          Fitted(tree, shape)
    {
      took := false;
      made := CreateTarget(target, isDirectory);
      ghost var fits := Fitted(old(tree), shape) && StepFits(kernel.host, shape, source, target)
                     && isDirectory == (kernel.host(source) == Directory);
      if fits {
        MadeFits(old(tree), tree, shape, target, kernel.host(source));
      }
      if made == Made {
        ghost var grown := tree;
        if fits {
          MountedFits(tree, shape, target, kernel.host, source);
        }
        took := BindMount(source, target, policy);
        assert source + target[|target|..] == source;
        if old(tree)(target) == Absent {
          MountHidesNothing(old(tree), grown, kernel.host, target, source);
        }
      }
    }

    /** An overlay mount of a host directory on the same path of the sandbox. */
    method OverlayMount(lower: Path) returns (e: Errno)
      requires Valid()
      modifies this`log, this`tree, this`calls
      ensures Valid() && calls == old(calls) + 1
      ensures e ==
        if kernel.overlayAnswer(calls) == Ok && !(kernel.host(lower) == Directory && old(tree)(lower) == Directory)
        then ENOENT else kernel.overlayAnswer(calls)
      ensures e == Ok ==> log == old(log) + [Mount(lower, Overlay, lower, false)]
      ensures e == Ok ==> tree == Mounted(old(tree), lower, kernel.host, lower)
      ensures e != Ok ==> log == old(log) && tree == old(tree)
    {
      calls := calls + 1;
      e := kernel.overlayAnswer(calls);
      if e == Ok && !(kernel.host(lower) == Directory && tree(lower) == Directory) {
        e := ENOENT;
      }
      if e == Ok {
        MountedStaysClosed(tree, lower, kernel.host, lower);
        MountShows(kernel.host, log, tree, Mount(lower, Overlay, lower, false));
        log := log + [Mount(lower, Overlay, lower, false)];
        tree := Mounted(tree, lower, kernel.host, lower);
      }
    }

    /**
      `mount(MS_BIND | MS_REMOUNT)`, with or without `MS_RDONLY`: works on the mount
      that serves the target, if it is mounted just there.
     */
    method Remount(target: Path, readOnly: bool) returns (e: Errno)
      requires Valid()
      modifies this`log, this`calls
      ensures Valid() && calls == old(calls) + 1
      ensures e == if MountedAt(old(log), target) then kernel.remountAnswer(calls) else EINVAL
      ensures e == Ok ==>
        var i := Serving(old(log), target).value;
        log == old(log)[i := old(log)[i].(readOnly := readOnly)]
      ensures e != Ok ==> log == old(log)
    {
      calls := calls + 1;
      var at := Serving(log, target);
      if at.None? || log[at.value].target != target {
        return EINVAL;
      }
      e := kernel.remountAnswer(calls);
      if e == Ok {
        RemountShows(kernel.host, log, tree, at.value, readOnly);
        log := log[at.value := log[at.value].(readOnly := readOnly)];
      }
    }
  }
}
