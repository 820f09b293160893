/**
  The option state: the global struct every API call changes until the sandbox
  runs, and the checks made on it at start.
 */
module SandboxOptions {
  import opened Text
  import opened Paths

  const SBX_TMP: Path := ["tmp", "mini-sandbox-tmp"]
  const INIT_NAME := "mini-sandbox-init"

  /**
    A path handed to a mount call, as the file system sees it: its canonical form, the
    input cut to the length of the canonical text, whether the path is absolute and
    exists, and the parents of the symlinks in it, which count only under the home
    directory.
   */
  datatype Request = Request(input: Path, canonical: Path, inputCut: Path, absolute: bool, present: bool,
                             insideHome: bool, symlinkParents: seq<Path>)

  /** A request for an existing path that is spelled canonically. */
  function Plainly(p: Path, insideHome: bool, symlinkParents: seq<Path>): Request {
    Request(p, p, p, true, true, insideHome, symlinkParents)
  }

  function Parents(req: Request): seq<Path> {
    if req.insideHome then req.symlinkParents else []
  }

  function Add(paths: seq<Path>, p: Path): seq<Path> {
    if p in paths then paths else paths + [p]
  }

  function AddAll(paths: seq<Path>, more: seq<Path>): seq<Path>
    decreases |more|
  {
    if |more| == 0 then paths else AddAll(Add(paths, more[0]), more[1..])
  }

  lemma {:induction false} AddAllSnoc(paths: seq<Path>, more: seq<Path>, p: Path)
    ensures AddAll(paths, more + [p]) == Add(AddAll(paths, more), p)
    decreases |more|
  {
    if |more| == 0 {
      assert more + [p] == [p] && [p][1..] == [];
      assert AddAll(Add(paths, p), []) == Add(paths, p);
    } else {
      assert (more + [p])[1..] == more[1..] + [p];
      AddAllSnoc(Add(paths, more[0]), more[1..], p);
    }
  }

  /** `addIfNotPresent`. */
  method AddIfNotPresent(paths: seq<Path>, p: Path) returns (r: seq<Path>)
    ensures r == Add(paths, p)
  {
    r := paths;
    var found := false;
    for i := 0 to |paths|
      invariant found <==> p in paths[..i]
    {
      found := found || paths[i] == p;
    }
    if !found {
      r := r + [p];
    }
  }

  // ----- the checks -----

  /**
    `ValidateOverlayOutOfFolder`: 0 exactly when both paths resolve and the folder
    does not cover the overlay directory. `None` is a path `canonical` throws on.
   */
  method ValidateOverlayOutOfFolder(overlay: Option<Path>, folder: Option<Path>) returns (rc: int)
    ensures rc == 0 || rc == -1
    ensures rc == 0 <==> overlay.Some? && folder.Some? && !(folder.value <= overlay.value)
  {
    if overlay.None? || folder.None? {
      return -1;
    }
    var o, f := overlay.value, folder.value;
    if |o| < |f| {
      return 0;
    }
    var i := 0;
    while i < |f| && f[i] == o[i]
      invariant 0 <= i <= |f|
      invariant f[..i] == o[..i]
    {
      i := i + 1;
    }
    rc := if i == |f| then -1 else 0;
  }

  /** `ValidateReadWritePaths`: nothing is requested both ways. */
  method ValidateReadWritePaths(readables: seq<Path>, writables: seq<Path>) returns (rc: int)
    ensures rc == 0 || rc == -1
    ensures rc == 0 <==> forall p <- readables :: p !in writables
  {
    for i := 0 to |readables|
      invariant forall k :: 0 <= k < i ==> readables[k] !in writables
    {
      for j := 0 to |writables|
        invariant forall k :: 0 <= k < j ==> writables[k] != readables[i]
      {
        if readables[i] == writables[j] {
          assert readables[i] in readables && readables[i] in writables;
          return -1;
        }
      }
    }
    rc := 0;
  }

  // ----- the bind lists -----

  /** The two lists the indexed mount loop reads side by side. */
  datatype Binds = Binds(sources: seq<Path>, targets: seq<Path>)

  function BindAlso(b: Binds, p: Path): Binds {
    Binds(Add(b.sources, p), Add(b.targets, p))
  }

  function BindAll(b: Binds, more: seq<Path>): Binds
    decreases |more|
  {
    if |more| == 0 then b else BindAll(BindAlso(b, more[0]), more[1..])
  }

  lemma {:induction false} BindAllAddsToBoth(b: Binds, more: seq<Path>)
    ensures BindAll(b, more) == Binds(AddAll(b.sources, more), AddAll(b.targets, more))
    decreases |more|
  {
    if |more| > 0 {
      BindAllAddsToBoth(BindAlso(b, more[0]), more[1..]);
    }
  }

  function Pushed(b: Binds, p: Path): Binds {
    Binds(b.sources + [p], b.targets + [p])
  }

  /** What a bind request does to the lists. */
  function AfterBind(b: Binds, req: Request): Binds {
    if !req.absolute || !req.present then b
    else
      BindAll(AfterPushes(b, req), Parents(req))
  }

  function AfterPushes(b: Binds, req: Request): Binds {
    var b1 := Pushed(b, req.canonical);
    if req.canonical != req.input then Pushed(b1, req.input) else b1
  }

  /** The fixed default mounts, and the two under home if they exist. */
  function DefaultMounts(home: Path, hasLocalBin: bool, hasLocalLib: bool): seq<Path> {
    [["proc"], ["var"], ["opt"]]
    + (if hasLocalBin then [home + [".local", "bin"]] else [])
    + (if hasLocalLib then [home + [".local", "lib"]] else [])
  }

  /** What the default set-up does to the lists: the one uneven pair, then the default mounts. */
  function AfterDefault(b: Binds, mounts: seq<Path>): Binds {
    Binds(b.sources + [SBX_TMP] + mounts, b.targets + [TMP] + mounts)
  }

  /** The default set-up adds to both lists what it mounts on itself, and one end of the pair to each. */
  lemma DefaultMountsAre(b: Binds, home: Path, hasLocalBin: bool, hasLocalLib: bool, p: Path)
    ensures
      var after := AfterDefault(b, DefaultMounts(home, hasLocalBin, hasLocalLib));
      && (p in after.sources <==>
            p in b.sources || p == ["tmp", "mini-sandbox-tmp"] || MountedByDefault(home, hasLocalBin, hasLocalLib, p))
      && (p in after.targets <==> p in b.targets || p == ["tmp"] || MountedByDefault(home, hasLocalBin, hasLocalLib, p))
  {
    assert ["proc"] in [["proc"], ["var"], ["opt"]];
    assert p in [["proc"], ["var"], ["opt"]] <==> p == ["proc"] || p == ["var"] || p == ["opt"];
    var mounts := DefaultMounts(home, hasLocalBin, hasLocalLib);
    assert p in mounts <==> MountedByDefault(home, hasLocalBin, hasLocalLib, p);
  }

  predicate MountedByDefault(home: Path, hasLocalBin: bool, hasLocalLib: bool, p: Path) {
    || p == ["proc"] || p == ["var"] || p == ["opt"]
    || (hasLocalBin && p == home + [".local", "bin"])
    || (hasLocalLib && p == home + [".local", "lib"])
  }

  datatype BindCall =
    | Bind(req: Request)
    | Default(mounts: seq<Path>)
    | DefaultFails   // the source directory of the pair cannot be made
    | Other

  datatype BindState = BindState(binds: Binds, defaulted: bool)

  /** The default set-up is refused the second time. */
  function ApplyBind(s: BindState, c: BindCall): BindState {
    match c
    case Bind(req) => s.(binds := AfterBind(s.binds, req))
    case Default(mounts) => if s.defaulted then s else BindState(AfterDefault(s.binds, mounts), true)
    case DefaultFails => s.(defaulted := true)
    case Other => s
  }

  function RunBinds(s: BindState, calls: seq<BindCall>): BindState
    decreases |calls|
  {
    if |calls| == 0 then s else RunBinds(ApplyBind(s, calls[0]), calls[1..])
  }

  /** Equal lengths and equal entries, but for the default /tmp pair, if it is there. */
  ghost predicate Lockstep(s: BindState) {
    s.binds.sources == s.binds.targets || (s.defaulted && Uneven(s.binds))
  }

  ghost predicate Uneven(b: Binds) {
    |b.sources| == |b.targets| && exists k :: 0 <= k < |b.sources| && UnevenAt(b, k)
  }

  ghost predicate UnevenAt(b: Binds, k: int)
    requires |b.sources| == |b.targets|
    requires 0 <= k < |b.sources|
  {
    && b.sources[k] == SBX_TMP && b.targets[k] == TMP
    && forall i :: 0 <= i < |b.sources| && i != k ==> b.sources[i] == b.targets[i]
  }

  lemma PushedKeepsLockstep(s: BindState, p: Path)
    requires Lockstep(s)
    ensures Lockstep(s.(binds := Pushed(s.binds, p)))
  {
    if s.binds.sources != s.binds.targets {
      var k :| 0 <= k < |s.binds.sources| && UnevenAt(s.binds, k);
      assert UnevenAt(Pushed(s.binds, p), k);
    }
  }

  /**
    One `addIfNotPresent` on each list keeps them in step exactly when the path is
    in both or in neither.
   */
  lemma BindAlsoKeepsLockstepIff(s: BindState, p: Path)
    requires Lockstep(s)
    ensures Lockstep(s.(binds := BindAlso(s.binds, p))) <==> (p in s.binds.sources <==> p in s.binds.targets)
  {
    if p !in s.binds.sources && p !in s.binds.targets {
      PushedKeepsLockstep(s, p);
    }
  }

  /** Only the two ends of the /tmp pair can be in one list and not in the other. */
  lemma PresentInBothOrNeither(s: BindState, p: Path)
    requires Lockstep(s) && (s.defaulted ==> p != TMP && p != SBX_TMP)
    ensures p in s.binds.sources <==> p in s.binds.targets
  {
    if s.binds.sources != s.binds.targets {
      var k :| 0 <= k < |s.binds.sources| && UnevenAt(s.binds, k);
      if p in s.binds.sources {
        var i :| 0 <= i < |s.binds.sources| && s.binds.sources[i] == p;
        assert s.binds.targets[i] == p;
      }
      if p in s.binds.targets {
        var i :| 0 <= i < |s.binds.targets| && s.binds.targets[i] == p;
        assert s.binds.sources[i] == p;
      }
    }
  }

  lemma {:induction false} BindAllKeepsLockstep(s: BindState, more: seq<Path>)
    requires Lockstep(s) && (s.defaulted ==> TMP !in more && SBX_TMP !in more)
    ensures Lockstep(s.(binds := BindAll(s.binds, more)))
    decreases |more|
  {
    if |more| > 0 {
      assert more[0] in more;
      PresentInBothOrNeither(s, more[0]);
      BindAlsoKeepsLockstepIff(s, more[0]);
      BindAllKeepsLockstep(s.(binds := BindAlso(s.binds, more[0])), more[1..]);
    }
  }

  predicate NoTmpSymlink(c: BindCall) {
    c.Bind? ==> TMP !in Parents(c.req) && SBX_TMP !in Parents(c.req)
  }

  lemma ApplyBindKeepsLockstep(s: BindState, c: BindCall)
    requires Lockstep(s) && NoTmpSymlink(c)
    ensures Lockstep(ApplyBind(s, c))
  {
    match c
    case Other =>
    case DefaultFails =>
    case Default(mounts) =>
      if !s.defaulted {
        assert UnevenAt(AfterDefault(s.binds, mounts), |s.binds.sources|);
      }
    case Bind(req) =>
      if req.absolute && req.present {
        PushedKeepsLockstep(s, req.canonical);
        var s1 := s.(binds := Pushed(s.binds, req.canonical));
        if req.canonical != req.input {
          PushedKeepsLockstep(s1, req.input);
          BindAllKeepsLockstep(s1.(binds := Pushed(s1.binds, req.input)), Parents(req));
        } else {
          BindAllKeepsLockstep(s1, Parents(req));
        }
      }
  }

  /**
    Over every sequence of option calls the two lists stay in lockstep, provided
    no symlink found under home leads to /tmp or to the directory behind it.
   */
  lemma {:induction false} BindListsStayInLockstep(s: BindState, calls: seq<BindCall>)
    requires Lockstep(s)
    requires forall c <- calls :: NoTmpSymlink(c)
    ensures Lockstep(RunBinds(s, calls))
    decreases |calls|
  {
    if |calls| > 0 {
      ApplyBindKeepsLockstep(s, calls[0]);
      BindListsStayInLockstep(ApplyBind(s, calls[0]), calls[1..]);
    }
  }

  // ----- lockstep exactly -----

  /** Each symlink parent, when its turn comes, is in both lists or in neither. */
  predicate EvenAdds(b: Binds, more: seq<Path>)
    decreases |more|
  {
    |more| > 0 ==> (more[0] in b.sources <==> more[0] in b.targets) && EvenAdds(BindAlso(b, more[0]), more[1..])
  }

  predicate EvenCall(b: Binds, c: BindCall) {
    c.Bind? && c.req.absolute && c.req.present ==> EvenAdds(AfterPushes(b, c.req), Parents(c.req))
  }

  predicate EvenRun(s: BindState, calls: seq<BindCall>)
    decreases |calls|
  {
    |calls| > 0 ==> EvenCall(s.binds, calls[0]) && EvenRun(ApplyBind(s, calls[0]), calls[1..])
  }

  /** The path is in both lists, equally often. */
  ghost predicate Balanced(b: Binds, p: Path) {
    p in b.sources && p in b.targets && multiset(b.sources)[p] == multiset(b.targets)[p]
  }

  /** The default pair is there, but one of its ends is balanced: an add went to one list only. */
  ghost predicate Lost(s: BindState) {
    && s.defaulted
    && (exists k :: 0 <= k < |s.binds.sources| && k < |s.binds.targets| && PairAt(s.binds, k))
    && (Balanced(s.binds, TMP) || Balanced(s.binds, SBX_TMP))
  }

  predicate PairAt(b: Binds, k: nat)
    requires k < |b.sources| && k < |b.targets|
  {
    b.sources[k] == SBX_TMP && b.targets[k] == TMP
  }

  /** In step, the pair is what one list has more than the other. */
  lemma UnevenCounts(b: Binds, k: nat)
    requires |b.sources| == |b.targets| && k < |b.sources| && UnevenAt(b, k)
    ensures multiset(b.sources)[TMP] + 1 == multiset(b.targets)[TMP]
    ensures multiset(b.sources)[SBX_TMP] == multiset(b.targets)[SBX_TMP] + 1
  {
    var low, high := b.sources[..k], b.sources[k + 1..];
    assert low == b.targets[..k] && high == b.targets[k + 1..];
    assert b.sources == low + [SBX_TMP] + high && b.targets == low + [TMP] + high;
    assert multiset(b.sources) == multiset(low) + multiset{SBX_TMP} + multiset(high);
    assert multiset(b.targets) == multiset(low) + multiset{TMP} + multiset(high);
  }

  lemma LostIsNotLockstep(s: BindState)
    requires Lost(s)
    ensures !Lockstep(s)
  {
    var b := s.binds;
    var k :| 0 <= k < |b.sources| && k < |b.targets| && PairAt(b, k);
    assert b.sources[k] != b.targets[k];
    if j :| |b.sources| == |b.targets| && 0 <= j < |b.sources| && UnevenAt(b, j) {
      UnevenCounts(b, j);
    }
  }

  lemma OneSidedAddIsLost(s: BindState, p: Path)
    requires Lockstep(s) && !(p in s.binds.sources <==> p in s.binds.targets)
    ensures Lost(s.(binds := BindAlso(s.binds, p)))
  {
    var b := s.binds;
    var after := BindAlso(b, p);
    if p != TMP && p != SBX_TMP {
      PresentInBothOrNeither(s, p);
    }
    var k :| 0 <= k < |b.sources| && UnevenAt(b, k);
    assert b.sources[k] == SBX_TMP && b.targets[k] == TMP;
    assert PairAt(after, k);
    UnevenCounts(b, k);
    assert multiset(b.sources + [p]) == multiset(b.sources) + multiset{p};
    assert multiset(b.targets + [p]) == multiset(b.targets) + multiset{p};
    assert (b.sources + [p])[|b.sources|] == p && (b.targets + [p])[|b.targets|] == p;
  }

  lemma PushedStaysLost(s: BindState, p: Path)
    requires Lost(s)
    ensures Lost(s.(binds := Pushed(s.binds, p)))
  {
    var b := s.binds;
    var k :| 0 <= k < |b.sources| && k < |b.targets| && PairAt(b, k);
    assert PairAt(Pushed(b, p), k);
    assert multiset(b.sources + [p]) == multiset(b.sources) + multiset{p};
    assert multiset(b.targets + [p]) == multiset(b.targets) + multiset{p};
    assert forall q :: q in b.sources ==> q in b.sources + [p];
    assert forall q :: q in b.targets ==> q in b.targets + [p];
  }

  lemma BindAlsoStaysLost(s: BindState, p: Path)
    requires Lost(s)
    ensures Lost(s.(binds := BindAlso(s.binds, p)))
  {
    var b := s.binds;
    var k :| 0 <= k < |b.sources| && k < |b.targets| && PairAt(b, k);
    assert PairAt(BindAlso(b, p), k);
    assert multiset(b.sources + [p]) == multiset(b.sources) + multiset{p};
    assert multiset(b.targets + [p]) == multiset(b.targets) + multiset{p};
    assert forall q :: q in b.sources ==> q in b.sources + [p];
    assert forall q :: q in b.targets ==> q in b.targets + [p];
  }

  lemma {:induction false} BindAllStaysLost(s: BindState, more: seq<Path>)
    requires Lost(s)
    ensures Lost(s.(binds := BindAll(s.binds, more)))
    decreases |more|
  {
    if |more| > 0 {
      BindAlsoStaysLost(s, more[0]);
      BindAllStaysLost(s.(binds := BindAlso(s.binds, more[0])), more[1..]);
    }
  }

  lemma {:induction false} RunStaysLost(s: BindState, calls: seq<BindCall>)
    requires Lost(s)
    ensures Lost(RunBinds(s, calls))
    decreases |calls|
  {
    if |calls| > 0 {
      var c := calls[0];
      if c.Bind? && c.req.absolute && c.req.present {
        PushedStaysLost(s, c.req.canonical);
        var s1 := s.(binds := Pushed(s.binds, c.req.canonical));
        PushedStaysLost(s1, c.req.input);
        BindAllStaysLost(s.(binds := AfterPushes(s.binds, c.req)), Parents(c.req));
      }
      RunStaysLost(ApplyBind(s, c), calls[1..]);
    }
  }

  /** A list of adds keeps the lists in step, or they are lost for good. */
  lemma {:induction false} EvenAddsOrLost(s: BindState, more: seq<Path>)
    requires Lockstep(s)
    ensures
      var after := s.(binds := BindAll(s.binds, more));
      if EvenAdds(s.binds, more) then Lockstep(after) else Lost(after)
    decreases |more|
  {
    if |more| > 0 {
      var next := s.(binds := BindAlso(s.binds, more[0]));
      if more[0] in s.binds.sources <==> more[0] in s.binds.targets {
        BindAlsoKeepsLockstepIff(s, more[0]);
        EvenAddsOrLost(next, more[1..]);
      } else {
        OneSidedAddIsLost(s, more[0]);
        BindAllStaysLost(next, more[1..]);
      }
    }
  }

  lemma EvenCallOrLost(s: BindState, c: BindCall)
    requires Lockstep(s)
    ensures if EvenCall(s.binds, c) then Lockstep(ApplyBind(s, c)) else Lost(ApplyBind(s, c))
  {
    match c
    case Other =>
    case DefaultFails =>
    case Default(mounts) =>
      if !s.defaulted {
        assert UnevenAt(AfterDefault(s.binds, mounts), |s.binds.sources|);
      }
    case Bind(req) =>
      PushedKeepsLockstep(s, req.canonical);
      PushedKeepsLockstep(s.(binds := Pushed(s.binds, req.canonical)), req.input);
      EvenAddsOrLost(s.(binds := AfterPushes(s.binds, req)), Parents(req));
  }

  /**
    Over every sequence of option calls: the lists are in step at the end if and only
    if every symlink parent, when it was added, was in both lists or in neither. Once
    out of step they never come back.
   */
  lemma {:induction false} LockstepIff(s: BindState, calls: seq<BindCall>)
    requires Lockstep(s)
    ensures Lockstep(RunBinds(s, calls)) <==> EvenRun(s, calls)
    decreases |calls|
  {
    if |calls| > 0 {
      EvenCallOrLost(s, calls[0]);
      if EvenCall(s.binds, calls[0]) {
        LockstepIff(ApplyBind(s, calls[0]), calls[1..]);
      } else {
        RunStaysLost(ApplyBind(s, calls[0]), calls[1..]);
        LostIsNotLockstep(RunBinds(s, calls));
      }
    }
  }

  /** The proviso is needed: after the default set-up, one symlink into /tmp makes the lists differ in length. */
  lemma TmpSymlinkBreaksLockstep(mounts: seq<Path>, p: Path)
    requires TMP !in mounts && SBX_TMP !in mounts && p != TMP && p != SBX_TMP
    ensures
      var b := RunBinds(BindState(Binds([], []), false),
                 [Default(mounts), Bind(Plainly(p, true, [TMP]))]).binds;
      |b.sources| == |b.targets| + 1
  {
    var req := Plainly(p, true, [TMP]);
    var s0 := BindState(Binds([], []), false);
    var calls := [Default(mounts), Bind(req)];
    var s1 := ApplyBind(s0, calls[0]);
    var b := Pushed(s1.binds, p);
    assert calls[1..][1..] == [];
    assert s1.binds == Binds([SBX_TMP] + mounts, [TMP] + mounts);
    assert TMP !in b.sources;
    assert b.targets[0] == TMP;
    assert [TMP][1..] == [];
    assert BindAll(BindAlso(b, TMP), []) == BindAlso(b, TMP);
    assert AfterBind(s1.binds, req) == BindAlso(b, TMP);
    var s2 := ApplyBind(s1, calls[1]);
    assert RunBinds(s2, []) == s2;
    assert RunBinds(s1, calls[1..]) == s2;
  }

  // ----- the struct -----

  /** The options the mount plan reads. */
  datatype Settings = Settings(
    workingDir: Path,
    writables: seq<Path>,
    tmpfsDirs: seq<Path>,
    sources: seq<Path>,
    targets: seq<Path>,
    overlays: seq<Path>)

  class Options {
    var workingDir: Path
    var writableFiles: seq<Path>
    var tmpfsDirs: seq<Path>
    var bindMountSources: seq<Path>
    var bindMountTargets: seq<Path>
    var overlayfsmount: seq<Path>
    var useDefault: bool
    var useOverlayfs: bool
    var hermetic: bool
    var parentsWritable: bool
    var running: bool
    var sandboxRoot: Option<Path>
    var tmpOverlayfs: Option<Path>

    constructor ()
      ensures Value() == BindState(Binds([], []), false) && !running && !useOverlayfs && !hermetic
      ensures sandboxRoot == None && tmpOverlayfs == None
      ensures writableFiles == [] && overlayfsmount == [] && tmpfsDirs == []
    {
      workingDir, writableFiles, tmpfsDirs, overlayfsmount := ROOT, [], [], [];
      bindMountSources, bindMountTargets := [], [];
      useDefault, useOverlayfs, hermetic, parentsWritable, running := false, false, false, false, false;
      sandboxRoot, tmpOverlayfs := None, None;
    }

    ghost function Value(): BindState
      reads this
    {
      BindState(Binds(bindMountSources, bindMountTargets), useDefault)
    }

    function PlanSettings(): Settings
      reads this
    {
      Settings(workingDir, writableFiles, tmpfsDirs, bindMountSources, bindMountTargets, overlayfsmount)
    }

    /** `MiniSbxMountBind`. */
    method MountBind(req: Request) returns (rc: int)
      modifies this`bindMountSources, this`bindMountTargets
      ensures Value() == if running then old(Value()) else ApplyBind(old(Value()), Bind(req))
      ensures rc < 0 <==> running || !req.absolute
    {
      if running {
        return -1;
      }
      if !req.absolute {
        return -1;
      }
      if !req.present {
        return 0;
      }
      bindMountSources := bindMountSources + [req.canonical];
      bindMountTargets := bindMountTargets + [req.canonical];
      if req.canonical != req.input {
        bindMountSources := bindMountSources + [req.input];
        bindMountTargets := bindMountTargets + [req.input];
      }
      ghost var before := Binds(bindMountSources, bindMountTargets);
      BindAllAddsToBoth(before, Parents(req));
      bindMountSources := MountHomeSymlinks(req, bindMountSources);
      bindMountTargets := MountHomeSymlinks(req, bindMountTargets);
      rc := 0;
    }

    /** `MountHomeSymlinks` for one list. */
    static method MountHomeSymlinks(req: Request, paths: seq<Path>) returns (r: seq<Path>)
      ensures r == AddAll(paths, Parents(req))
    {
      r := paths;
      if req.insideHome {
        for i := 0 to |req.symlinkParents|
          invariant r == AddAll(paths, req.symlinkParents[..i])
        {
          AddAllSnoc(paths, req.symlinkParents[..i], req.symlinkParents[i]);
          assert req.symlinkParents[..i + 1] == req.symlinkParents[..i] + [req.symlinkParents[i]];
          r := AddIfNotPresent(r, req.symlinkParents[i]);
        }
        assert req.symlinkParents[..|req.symlinkParents|] == req.symlinkParents;
      }
    }

    /** `MiniSbxMountWrite`. */
    method MountWrite(req: Request) returns (rc: int)
      modifies this`writableFiles
      ensures writableFiles == if running then old(writableFiles) else AfterWrite(old(writableFiles), req)
      ensures rc < 0 <==> running || !req.absolute
    {
      if running {
        return -1;
      }
      if !req.absolute {
        return -1;
      }
      if !req.present {
        return 0;
      }
      if req.canonical != req.input {
        writableFiles := writableFiles + [req.input];
      }
      writableFiles := writableFiles + [req.canonical];
      writableFiles := MountHomeSymlinks(req, writableFiles);
      rc := 0;
    }

    /**
      `MiniSbxMountOverlay`. Unlike the others it does not ask whether the path exists,
      and of another spelling it keeps only as much text as the canonical one has.
     */
    method MountOverlay(req: Request) returns (rc: int)
      modifies this`overlayfsmount
      ensures overlayfsmount ==
        if running || !useOverlayfs then old(overlayfsmount) else AfterOverlay(old(overlayfsmount), req)
      ensures rc < 0 <==> running || !useOverlayfs || !req.absolute
    {
      if running {
        return -1;
      }
      if useOverlayfs {
        if !req.absolute {
          return -1;
        }
        overlayfsmount := overlayfsmount + [req.canonical];
        if req.canonical != req.input {
          overlayfsmount := overlayfsmount + [req.inputCut];
        }
        overlayfsmount := MountHomeSymlinks(req, overlayfsmount);
        rc := 0;
      } else {
        rc := -1;
      }
    }

    /** The loop of `SetupDefaultMounts`. */
    method SetupDefaultMounts(mounts: seq<Path>)
      modifies this`bindMountSources, this`bindMountTargets
      ensures bindMountSources == old(bindMountSources) + mounts
      ensures bindMountTargets == old(bindMountTargets) + mounts
    {
      for i := 0 to |mounts|
        invariant bindMountSources == old(bindMountSources) + mounts[..i]
        invariant bindMountTargets == old(bindMountTargets) + mounts[..i]
      {
        bindMountSources := bindMountSources + [mounts[i]];
        bindMountTargets := bindMountTargets + [mounts[i]];
      }
    }

    /**
      `MiniSbxSetupDefault`: the mode, the /tmp pair, the default mounts and the two
      directories under /tmp. If the source directory of the pair cannot be made, only
      the mode is set.
     */
    method SetupDefault(
        home: Path, hasLocalBin: bool, hasLocalLib: bool, rng: Request, tmpMade: bool, root: Path, overlay: Path)
      returns (rc: int)
      requires useDefault ==> useOverlayfs
      modifies this
      ensures Value() ==
        if running || hermetic || old(useOverlayfs) then old(Value())
        else ApplyBind(old(Value()),
               if tmpMade then Default(DefaultMounts(home, hasLocalBin, hasLocalLib)) else DefaultFails)
      ensures rc == 0 <==>
        !running && !hermetic && !old(useOverlayfs) && tmpMade && old(sandboxRoot) == None
      ensures running == old(running) && hermetic == old(hermetic) && workingDir == old(workingDir)
      ensures overlayfsmount == old(overlayfsmount) && tmpfsDirs == old(tmpfsDirs)
      ensures parentsWritable == old(parentsWritable)
      ensures useOverlayfs <==> old(useOverlayfs) || (!running && !hermetic)
      ensures sandboxRoot == if rc == 0 then Some(root) else old(sandboxRoot)
      ensures
        var setUp := !running && !hermetic && !old(useOverlayfs) && tmpMade;
        && tmpOverlayfs == (if setUp then Some(overlay) else old(tmpOverlayfs))
        && writableFiles == (if setUp then AfterWrite(old(writableFiles), rng) else old(writableFiles))
    {
      if running {
        return -1;
      }
      if hermetic || useOverlayfs {
        return -1;
      }
      useDefault, useOverlayfs := true, true;
      if !tmpMade {
        return -1;
      }
      bindMountSources := bindMountSources + [SBX_TMP];
      bindMountTargets := bindMountTargets + [TMP];
      SetupDefaultMounts(DefaultMounts(home, hasLocalBin, hasLocalLib));
      var _ := MountWrite(rng);
      if sandboxRoot.Some? {
        tmpOverlayfs := Some(overlay);
        return -1;
      }
      sandboxRoot, tmpOverlayfs := Some(root), Some(overlay);
      rc := 0;
    }

    /** `ValidateTmpNotRemounted`. */
    method ValidateTmpNotRemounted(paths: seq<Path>) returns (rc: int)
      ensures rc == 0 || rc == -1
      ensures rc == 0 <==> (useDefault ==> TMP !in paths)
    {
      if useDefault {
        for i := 0 to |paths|
          invariant TMP !in paths[..i]
        {
          if paths[i] == TMP {
            return -1;
          }
        }
      }
      rc := 0;
    }

    /** What a configuration must satisfy to be started; every path is taken to resolve. */
    ghost predicate Accepted(privilegedContainer: bool)
      reads this
    {
      && (useOverlayfs ==> tmpOverlayfs.Some? && !(workingDir <= tmpOverlayfs.value))
      && (hermetic ==> sandboxRoot.Some? && !(workingDir <= sandboxRoot.value))
      && (forall p <- bindMountSources :: p !in writableFiles)
      && (!privilegedContainer && useOverlayfs ==>
            forall w <- writableFiles :: tmpOverlayfs.Some? && !(w <= tmpOverlayfs.value))
      && (useDefault ==> TMP !in writableFiles && TMP !in bindMountSources)
    }

    /** `ValidateOptions`: 0 exactly for the accepted configurations. */
    method ValidateOptions(privilegedContainer: bool) returns (rc: int)
      ensures rc == 0 <==> Accepted(privilegedContainer)
    {
      if useOverlayfs {
        var v := ValidateOverlayOutOfFolder(tmpOverlayfs, Some(workingDir));
        if v < 0 {
          return -1;
        }
      }
      if hermetic {
        var v := ValidateOverlayOutOfFolder(sandboxRoot, Some(workingDir));
        if v < 0 {
          return -1;
        }
      }
      var v := ValidateReadWritePaths(bindMountSources, writableFiles);
      if v < 0 {
        return -1;
      }
      if !privilegedContainer {
        for i := 0 to |writableFiles|
          invariant useOverlayfs ==>
            forall k :: 0 <= k < i ==> tmpOverlayfs.Some? && !(writableFiles[k] <= tmpOverlayfs.value)
        {
          if useOverlayfs {
            v := ValidateOverlayOutOfFolder(tmpOverlayfs, Some(writableFiles[i]));
            if v < 0 {
              assert writableFiles[i] in writableFiles;
              return -1;
            }
          }
        }
      }
      v := ValidateTmpNotRemounted(writableFiles);
      if v < 0 {
        return -1;
      }
      v := ValidateTmpNotRemounted(bindMountSources);
      if v < 0 {
        return -1;
      }
      rc := 0;
    }

    /** `MiniSbxGetInitFile`: where the original process keeps the init file. */
    function InitFile(): Path
      reads this
    {
      if useDefault then SBX_TMP + [INIT_NAME]
      else if sandboxRoot.Some? then sandboxRoot.value + TMP + [INIT_NAME]
      else TMP + [INIT_NAME]
    }
  }

  /** What a writable request adds. */
  function AfterWrite(writables: seq<Path>, req: Request): seq<Path> {
    if !req.absolute || !req.present then writables
    else
      var spelled := if req.canonical != req.input then writables + [req.input] else writables;
      AddAll(spelled + [req.canonical], Parents(req))
  }

  /** What an overlay request adds. */
  function AfterOverlay(overlays: seq<Path>, req: Request): seq<Path> {
    if !req.absolute then overlays
    else
      var spelled := overlays + [req.canonical];
      AddAll(if req.canonical != req.input then spelled + [req.inputCut] else spelled, Parents(req))
  }
}
