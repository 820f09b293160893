/** `MountAllMounts` and what it calls, proved to carry out a plan made from the options. */
module Mounting {
  import opened Text
  import opened Paths
  import opened SandboxOptions
  import opened Namespace
  import opened OverlayFallback
  import opened MountPlan

  /** The text of a sandbox path on the host: plain concatenation, as the code does it. */
  function SandboxText(root: Path, p: Path): string {
    Render(root) + Render(p)
  }

  function Texts(paths: seq<Path>): seq<string> {
    seq(|paths|, i requires 0 <= i < |paths| => Render(paths[i]))
  }

  /** `ShouldBeWritable`, on the text of a mount point. */
  predicate ShouldBeWritable(s: Settings, text: string) {
    || text == Render(s.workingDir)
    || EndsWith(text, "/proc")
    || EndsWith(text, "/tmp")
    || StartsWith(text, "/dev")
    || text in Texts(s.writables)
    || text in Texts(s.tmpfsDirs)
  }

  /** The test `RemountRO` makes before it remounts: the source can be looked up and neither path should be writable. */
  predicate MustBeReadOnly(k: Kernel, root: Path, s: Settings, source: Path, target: Path) {
    && k.statvfs(source)
    && !ShouldBeWritable(s, Render(source))
    && !ShouldBeWritable(s, SandboxText(root, target))
  }

  lemma {:induction false} BodyStartsAtFirst(p: Path)
    requires |p| > 0
    ensures "/" + p[0] <= Body(p)
    ensures |p| == 1 ==> Body(p) == "/" + p[0]
    ensures |p| > 1 ==> |Body(p)| > |p[0]| + 1 && Body(p)[|p[0]| + 1] == '/'
  {
    BodyOfPrefix(p[..1], p);
    assert p[..1][..0] == [] && Last(p[..1]) == p[0];
    assert Body(p[..1]) == Body([]) + "/" + p[0] == "/" + p[0];
  }

  /** A name without a slash that a text starts with, after its first slash, is in the text's first part. */
  lemma StartsInFirst(text: string, first: string, name: string)
    requires "/" + first <= text && '/' !in name
    requires |text| > |first| + 1 ==> text[|first| + 1] == '/'
    ensures "/" + name <= text <==> name <= first
  {
    if "/" + name <= text {
      assert forall i :: 0 <= i < |name| ==> text[i + 1] == ("/" + name)[i + 1] == name[i];
      assert |name| <= |first|;
      assert forall i :: 0 <= i < |name| ==> text[i + 1] == ("/" + first)[i + 1] == first[i];
    }
    if name <= first {
      assert "/" + name <= "/" + first;
    }
  }

  lemma UnderDevIff(p: Path)
    ensures StartsWith(Render(p), "/dev") <==> |p| > 0 && StartsWith(p[0], "dev")
  {
    assert "/" + "dev" == "/dev";
    if |p| > 0 {
      BodyStartsAtFirst(p);
      StartsInFirst(Render(p), p[0], "dev");
    }
  }

  /**
    The working directory, a last component "proc" or "tmp", a first component that
    starts with "dev", or a requested writable or tmpfs directory.
   */
  predicate WritablePath(s: Settings, p: Path) {
    || p == s.workingDir
    || (|p| > 0 && (Last(p) == "proc" || Last(p) == "tmp"))
    || (|p| > 0 && StartsWith(p[0], "dev"))
    || p in s.writables || p in s.tmpfsDirs
  }

  ghost predicate CanonicalSettings(s: Settings) {
    Canonical(s.workingDir) && forall w <- s.writables + s.tmpfsDirs :: Canonical(w)
  }

  /** On canonical paths this is what the text tests of `ShouldBeWritable` ask for. */
  lemma ShouldBeWritableIff(s: Settings, p: Path)
    requires Canonical(p) && CanonicalSettings(s)
    ensures ShouldBeWritable(s, Render(p)) <==> WritablePath(s, p)
  {
    if Render(p) == Render(s.workingDir) {
      RenderIsInjective(p, s.workingDir);
    }
    EndsWithComponent(p, "proc");
    EndsWithComponent(p, "tmp");
    assert "/" + "proc" == "/proc" && "/" + "tmp" == "/tmp";
    UnderDevIff(p);
    InTextsIff(s.writables, p);
    InTextsIff(s.tmpfsDirs, p);
  }

  lemma {:induction false} BodyConcat(a: Path, b: Path)
    ensures Body(a + b) == Body(a) + Body(b)
  {
    if |b| == 0 {
      assert a + b == a;
    } else {
      assert (a + b)[..|a + b| - 1] == a + b[..|b| - 1];
      BodyConcat(a, b[..|b| - 1]);
    }
  }

  /** A step of the plan is remounted exactly if its source can be looked up and neither end should be writable. */
  lemma MustBeReadOnlyIff(k: Kernel, root: Path, s: Settings, source: Path, target: Path)
    requires CanonicalSettings(s) && Canonical(source) && Canonical(root + target) && root != ROOT && target != ROOT
    ensures TestFor(k, root, s)(source, target) <==>
      k.statvfs(source) && !WritablePath(s, source) && !WritablePath(s, root + target)
  {
    BodyConcat(root, target);
    ShouldBeWritableIff(s, source);
    ShouldBeWritableIff(s, root + target);
  }

  lemma InTextsIff(paths: seq<Path>, p: Path)
    requires Canonical(p) && forall w <- paths :: Canonical(w)
    ensures Render(p) in Texts(paths) <==> p in paths
  {
    if Render(p) in Texts(paths) {
      var i :| 0 <= i < |paths| && Texts(paths)[i] == Render(p);
      RenderIsInjective(p, paths[i]);
    }
    if p in paths {
      var i :| 0 <= i < |paths| && paths[i] == p;
      assert Texts(paths)[i] == Render(p);
    }
  }

  ghost predicate AcceptsBinds(k: Kernel) {
    forall n :: k.bindAnswer(n)
  }

  /** A test of what must be read-only, by source and target. */
  type Test = (Path, Path) -> bool

  function TestFor(k: Kernel, root: Path, s: Settings): Test {
    (source, target) => MustBeReadOnly(k, root, s, source, target)
  }

  // ----- the plan an option set asks for -----

  ghost function ReadOnlyStep(mustBe: Test, source: Path, target: Path, policy: Policy, took: bool): Step {
    Step(target, policy, source, took, mustBe(source, target))
  }

  /** Steps over parallel lists, one for each index. */
  ghost function ReadOnlySteps(
      mustBe: Test, sources: seq<Path>, targets: seq<Path>, policy: Policy, took: seq<bool>)
      : seq<Step>
    requires |sources| == |took| == |targets|
  {
    seq(|took|, i requires 0 <= i < |took| => ReadOnlyStep(mustBe, sources[i], targets[i], policy, took[i]))
  }

  /** The log is what the steps over the lists make of it; `took` says which binds the kernel took. */
  ghost predicate Carried(
      k: Kernel, mustBe: Test, sources: seq<Path>, targets: seq<Path>, policy: Policy, took: seq<bool>,
      before: Log, after: Log)
  {
    && |sources| == |took| == |targets|
    && after == PlayAll(before, ReadOnlySteps(mustBe, sources, targets, policy, took))
    && (AcceptsBinds(k) ==> forall ok <- took :: ok)
  }

  lemma CarriedSnoc(
      k: Kernel, mustBe: Test, sources: seq<Path>, targets: seq<Path>, policy: Policy, took: seq<bool>,
      before: Log, middle: Log, after: Log, source: Path, target: Path, ok: bool)
    requires Carried(k, mustBe, sources, targets, policy, took, before, middle)
    requires after == Play(middle, ReadOnlyStep(mustBe, source, target, policy, ok))
    requires AcceptsBinds(k) ==> ok
    ensures Carried(k, mustBe, sources + [source], targets + [target], policy, took + [ok], before, after)
  {
    var steps := ReadOnlySteps(mustBe, sources, targets, policy, took);
    var step := ReadOnlyStep(mustBe, source, target, policy, ok);
    PlayAllSnoc(before, steps, step);
    assert ReadOnlySteps(mustBe, sources + [source], targets + [target], policy, took + [ok]) == steps + [step];
  }

  lemma BindCarried(k: Kernel, mustBe: Test, s: Settings, n: nat, took: seq<bool>,
                    before: Log, middle: Log, after: Log, ok: bool)
    requires n < |s.sources| <= |s.targets|
    requires Carried(k, mustBe, s.sources[..n], s.targets[..n], Policy.Bind, took, before, middle)
    requires after == Play(middle, ReadOnlyStep(mustBe, s.sources[n], s.targets[n], Policy.Bind, ok))
    requires AcceptsBinds(k) ==> ok
    ensures Carried(k, mustBe, s.sources[..n + 1], s.targets[..n + 1], Policy.Bind, took + [ok], before, after)
  {
    CarriedSnoc(k, mustBe, s.sources[..n], s.targets[..n], Policy.Bind, took, before, middle, after,
      s.sources[n], s.targets[n], ok);
    assert s.sources[..n + 1] == s.sources[..n] + [s.sources[n]];
    assert s.targets[..n + 1] == s.targets[..n] + [s.targets[n]];
  }

  /** The paths `stat` does not fail on, but for absence. */
  function Statted(k: Kernel, paths: seq<Path>): seq<Path> {
    if |paths| == 0 then []
    else
      var p := paths[|paths| - 1];
      var before := Statted(k, paths[..|paths| - 1]);
      if k.statAnswer(p) then before + [p] else before
  }

  /** The paths that are there on the host. */
  function PresentOnHost(k: Kernel, paths: seq<Path>): seq<Path> {
    if |paths| == 0 then []
    else
      var p := paths[|paths| - 1];
      var before := PresentOnHost(k, paths[..|paths| - 1]);
      if k.host(p) != Absent then before + [p] else before
  }

  lemma {:induction false} StattedMembers(k: Kernel, paths: seq<Path>)
    ensures forall p <- Statted(k, paths) :: p in paths
  {
    if |paths| > 0 {
      StattedMembers(k, paths[..|paths| - 1]);
      assert forall p <- paths[..|paths| - 1] :: p in paths;
    }
  }

  lemma {:induction false} StattedKeeps(k: Kernel, paths: seq<Path>, p: Path)
    requires p in paths && k.statAnswer(p)
    ensures p in Statted(k, paths)
  {
    var n := |paths| - 1;
    if paths[n] != p {
      assert paths == paths[..n] + [paths[n]];
      StattedKeeps(k, paths[..n], p);
    } else {
      assert Statted(k, paths) == Statted(k, paths[..n]) + [p];
    }
  }

  lemma OneMoreStatted(k: Kernel, paths: seq<Path>, n: nat)
    requires n < |paths|
    ensures Statted(k, paths[..n + 1])
         == if k.statAnswer(paths[n]) then Statted(k, paths[..n]) + [paths[n]] else Statted(k, paths[..n])
  {
    assert paths[..n + 1][..n] == paths[..n];
  }

  lemma OneMorePresent(k: Kernel, paths: seq<Path>, n: nat)
    requires n < |paths|
    ensures PresentOnHost(k, paths[..n + 1])
         == if k.host(paths[n]) != Absent then PresentOnHost(k, paths[..n]) + [paths[n]]
            else PresentOnHost(k, paths[..n])
  {
    assert paths[..n + 1][..n] == paths[..n];
  }

  function PlainSteps(paths: seq<Path>, policy: Policy): seq<Step> {
    seq(|paths|, i requires 0 <= i < |paths| => Plain(paths[i], policy))
  }

  /** The kernel's side of a plan: the binds it took, the left-over mounts it took, the cut of each overlay. */
  datatype Answers = Answers(binds: seq<bool>, leftovers: seq<bool>, cuts: seq<Cut>)

  ghost predicate FitAnswers(k: Kernel, s: Settings, order: seq<Path>, a: Answers) {
    && |a.binds| == |s.sources| <= |s.targets|
    && |a.leftovers| == |Statted(k, order)|
    && FitAll(k, s.overlays, 0, a.cuts)
    && (AcceptsBinds(k) ==> (forall took <- a.binds :: took) && (forall took <- a.leftovers :: took))
  }

  /** The plan for the options, the left-over directories in some order, and the kernel's answers. */
  ghost function PlanFor(k: Kernel, mustBe: Test, s: Settings, order: seq<Path>, a: Answers): Plan
    requires FitAnswers(k, s, order, a)
  {
    Plan(
      ReadOnlySteps(mustBe, s.sources, s.targets[..|s.sources|], Policy.Bind, a.binds),
      ReadOnlySteps(mustBe, Statted(k, order), Statted(k, order), Leftover, a.leftovers),
      PlainSteps(OverlaidPaths(PiecesAll(k, s.overlays, a.cuts)), Overlay),
      PlainSteps(PresentOnHost(k, s.writables), Writable),
      s.workingDir)
  }

  // ----- carrying it out -----

  /** Every step over parallel lists keeps to the shape. */
  ghost predicate StepsFit(host: Tree, shape: Tree, sources: seq<Path>, targets: seq<Path>) {
    forall i :: 0 <= i < |sources| && i < |targets| ==> StepFits(host, shape, sources[i], targets[i])
  }

  ghost predicate WritablesFit(host: Tree, shape: Tree, writables: seq<Path>) {
    forall i :: 0 <= i < |writables| && host(writables[i]) != Absent ==>
      StepFits(host, shape, writables[i], writables[i])
  }

  /** Every mount the options and the left-over directories ask for keeps to the shape. */
  ghost predicate PlanFits(k: Kernel, shape: Tree, s: Settings, order: seq<Path>) {
    && StepsFit(k.host, shape, s.sources, s.targets) && StepsFit(k.host, shape, order, order)
    && RequestsFit(k, shape, s.overlays, 0) && WritablesFit(k.host, shape, s.writables)
    && k.host(s.workingDir) == Directory && StepFits(k.host, shape, s.workingDir, s.workingDir)
  }

  /**
    What ends the process in `MountAndRemountRO`: no source, a target that is not
    made, or a path that must be read-only and is not remounted, be it that the bind
    was refused and nothing else is mounted just there, or that the remount was.
   */
  predicate StepDies(k: Kernel, log: Log, tree: Tree, calls: nat, source: Path, target: Path, mustBe: bool) {
    var next := calls + ToMake(tree, target) + 1;
    || k.host(source) == Absent
    || CreationOf(k, tree, calls, target, k.host(source) == Directory) != Made
    || (mustBe && ((!k.bindAnswer(next) && !MountedAt(log, target)) || k.remountAnswer(next + 1) != Ok))
  }

  /**
    With the target made and the bind refused, the process ends exactly if the path
    must be read-only and there is no earlier mount just there to remount, or its
    remount is refused. Else every path is served as before, but for the mode of that
    earlier mount.
   */
  lemma {:induction false} RefusedBind(
      k: Kernel, log: Log, tree: Tree, calls: nat, source: Path, target: Path, policy: Policy, mustBe: bool, p: Path)
    requires k.host(source) != Absent && CreationOf(k, tree, calls, target, k.host(source) == Directory) == Made
    requires !k.bindAnswer(calls + ToMake(tree, target) + 1)
    ensures StepDies(k, log, tree, calls, source, target, mustBe) <==>
      mustBe && (!MountedAt(log, target) || k.remountAnswer(calls + ToMake(tree, target) + 2) != Ok)
    ensures
      var m := Served(log, p);
      Served(Play(log, Step(target, policy, source, false, mustBe)), p)
        == WithMode(m, mustBe && m.Some? && m.value.target == target)
  {
    PlayServes(log, Step(target, policy, source, false, mustBe), p);
  }

  lemma BoundIsMountedAt(log: Log, m: Mount)
    ensures MountedAt(log + [m], m.target)
  {
    ServingSnoc(log, m, m.target);
  }

  /** `RemountRO`: nothing, unless the test says so. */
  method RemountRO(ns: Sandbox, mustBe: Test, source: Path, target: Path) returns (e: Errno)
    requires ns.Valid()
    modifies ns`log, ns`calls
    ensures ns.Valid()
    ensures e == Ok <==>
      mustBe(source, target) ==> MountedAt(old(ns.log), target) && ns.kernel.remountAnswer(old(ns.calls) + 1) == Ok
    ensures e == Ok ==> ns.log == if mustBe(source, target) then Flip(old(ns.log), target) else old(ns.log)
  {
    e := Ok;
    if mustBe(source, target) {
      e := ns.Remount(target, true);
    }
  }

  /** `MountAndRemountRO`: the answer to the bind mount is ignored, that to the remount is not. */
  method MountAndRemountRO(ns: Sandbox, mustBe: Test, target: Path, source: Path, policy: Policy, ghost shape: Tree)
    returns (out: Outcome, ghost took: bool)
    requires ns.Valid()
    modifies ns`log, ns`tree, ns`calls
    ensures ns.Valid()
    ensures out == Done ==> ns.log == Play(old(ns.log), ReadOnlyStep(mustBe, source, target, policy, took))
    ensures out == Done ==> took == ns.kernel.bindAnswer(old(ns.calls) + ToMake(old(ns.tree), target) + 1)
    ensures out == Dead <==>
      StepDies(ns.kernel, old(ns.log), old(ns.tree), old(ns.calls), source, target, mustBe(source, target))
    ensures Fitted(old(ns.tree), shape) && StepFits(ns.kernel.host, shape, source, target) ==> Fitted(ns.tree, shape)
  {
    took := false;
    if ns.kernel.host(source) == Absent {
      return Dead, took;
    }
    var made, accepted := ns.MakeAndBind(source, target, ns.kernel.host(source) == Directory, policy, shape);
    if made != Made {
      return Dead, took;
    }
    took := accepted;
    BoundIsMountedAt(old(ns.log), Mount(target, policy, source, false));
    var e := RemountRO(ns, mustBe, source, target);
    out := if e == Ok then Done else Dead;
  }

  /** A step that fits does not end the process under a kernel that refuses nothing, for files and directories alike. */
  lemma FittingStepLives(
      k: Kernel, log: Log, tree: Tree, calls: nat, shape: Tree, source: Path, target: Path, mustBe: bool)
    requires Cooperative(k) && ParentClosed(tree) && Fitted(tree, shape) && StepFits(k.host, shape, source, target)
    ensures !StepDies(k, log, tree, calls, source, target, mustBe)
  {
    CreationFits(k, tree, calls, shape, target, k.host(source));
  }

  ghost predicate DiesNext(k: Kernel, mustBe: Test, source: Path, target: Path, last: Snapshot) {
    StepDies(k, last.log, last.tree, last.calls, source, target, mustBe(source, target))
  }

  /** The loop over the two bind lists: it ends the process only at a step that does. */
  method MountBinds(ns: Sandbox, s: Settings, mustBe: Test, ghost shape: Tree)
    returns (out: Outcome, ghost took: seq<bool>, ghost last: Snapshot)
    requires ns.Valid() && |s.sources| <= |s.targets|
    modifies ns`log, ns`tree, ns`calls
    ensures ns.Valid() && |took| <= |s.sources| && (out == Done <==> |took| == |s.sources|)
    ensures last == Snapshot(ns.log, ns.tree, ns.calls) || out == Dead
    ensures
      Carried(ns.kernel, mustBe, s.sources[..|took|], s.targets[..|took|], Policy.Bind, took, old(ns.log), last.log)
    ensures out == Dead ==> DiesNext(ns.kernel, mustBe, s.sources[|took|], s.targets[|took|], last)
    ensures
      Cooperative(ns.kernel) && Fitted(old(ns.tree), shape) && StepsFit(ns.kernel.host, shape, s.sources, s.targets)
      ==>
        out == Done && Fitted(ns.tree, shape)
  {
    took := [];
    last := Snapshot(ns.log, ns.tree, ns.calls);
    ghost var fine := Cooperative(ns.kernel) && Fitted(ns.tree, shape)
                   && StepsFit(ns.kernel.host, shape, s.sources, s.targets);
    for i := 0 to |s.sources|
      invariant ns.Valid() && |took| == i && last == Snapshot(ns.log, ns.tree, ns.calls)
      invariant fine ==> Fitted(ns.tree, shape)
      invariant
        Carried(ns.kernel, mustBe, s.sources[..i], s.targets[..i], Policy.Bind, took, old(ns.log), ns.log)
    {
      ghost var ok;
      if fine {
        FittingStepLives(ns.kernel, ns.log, ns.tree, ns.calls, shape, s.sources[i], s.targets[i],
          mustBe(s.sources[i], s.targets[i]));
      }
      out, ok := MountAndRemountRO(ns, mustBe, s.targets[i], s.sources[i], Policy.Bind, shape);
      if out == Dead {
        return;
      }
      BindCarried(ns.kernel, mustBe, s, i, took, old(ns.log), last.log, ns.log, ok);
      took := took + [ok];
      last := Snapshot(ns.log, ns.tree, ns.calls);
    }
    out := Done;
  }

  /** Some order of the set, as its iteration gives one. */
  method Enumerate(paths: set<Path>) returns (order: seq<Path>)
    ensures forall p :: p in order <==> p in paths
    ensures |order| == |paths|
  {
    order := [];
    var rest := paths;
    while rest != {}
      invariant rest <= paths && |order| + |rest| == |paths|
      invariant forall p :: p in paths <==> p in order || p in rest
      decreases rest
    {
      var p :| p in rest;
      order, rest := order + [p], rest - {p};
    }
  }

  lemma LeftoverCarried(
      k: Kernel, mustBe: Test, order: seq<Path>, n: nat, took: seq<bool>,
      before: Log, middle: Log, after: Log, ok: bool)
    requires n < |order| && (AcceptsBinds(k) ==> ok)
    requires LeftoversCarried(k, mustBe, order[..n], took, before, middle)
    requires
      if k.statAnswer(order[n]) then after == Play(middle, ReadOnlyStep(mustBe, order[n], order[n], Leftover, ok))
      else after == middle
    ensures
      LeftoversCarried(k, mustBe, order[..n + 1], if k.statAnswer(order[n]) then took + [ok] else took, before, after)
  {
    var dirs := Statted(k, order[..n]);
    OneMoreStatted(k, order, n);
    if k.statAnswer(order[n]) {
      CarriedSnoc(k, mustBe, dirs, dirs, Leftover, took, before, middle, after, order[n], order[n], ok);
    }
  }

  ghost predicate LeftoversCarried(
      k: Kernel, mustBe: Test, order: seq<Path>, took: seq<bool>, before: Log, after: Log)
  {
    Carried(k, mustBe, Statted(k, order), Statted(k, order), Leftover, took, before, after)
  }

  /** `MountReadOnly` on the left-over directories: it ends the process only at a step that does. */
  method MountReadOnly(ns: Sandbox, mustBe: Test, order: seq<Path>, ghost shape: Tree)
    returns (out: Outcome, ghost took: seq<bool>, ghost at: nat, ghost last: Snapshot)
    requires ns.Valid()
    modifies ns`log, ns`tree, ns`calls
    ensures ns.Valid() && at <= |order| && (out == Done <==> at == |order|)
    ensures last == Snapshot(ns.log, ns.tree, ns.calls) || out == Dead
    ensures LeftoversCarried(ns.kernel, mustBe, order[..at], took, old(ns.log), last.log)
    ensures out == Dead ==>
      ns.kernel.statAnswer(order[at]) && DiesNext(ns.kernel, mustBe, order[at], order[at], last)
    ensures
      Cooperative(ns.kernel) && Fitted(old(ns.tree), shape) && StepsFit(ns.kernel.host, shape, order, order)
      ==>
        out == Done && Fitted(ns.tree, shape)
  {
    took, at := [], 0;
    last := Snapshot(ns.log, ns.tree, ns.calls);
    ghost var fine := Cooperative(ns.kernel) && Fitted(ns.tree, shape)
                   && StepsFit(ns.kernel.host, shape, order, order);
    for i := 0 to |order|
      invariant ns.Valid() && at == i && last == Snapshot(ns.log, ns.tree, ns.calls)
      invariant fine ==> Fitted(ns.tree, shape)
      invariant LeftoversCarried(ns.kernel, mustBe, order[..i], took, old(ns.log), ns.log)
    {
      ghost var ok := true;
      if ns.kernel.statAnswer(order[i]) {
        if fine {
          FittingStepLives(ns.kernel, ns.log, ns.tree, ns.calls, shape, order[i], order[i],
            mustBe(order[i], order[i]));
        }
        out, ok := MountAndRemountRO(ns, mustBe, order[i], order[i], Leftover, shape);
        if out == Dead {
          return;
        }
      }
      LeftoverCarried(ns.kernel, mustBe, order, i, took, old(ns.log), last.log, ns.log, ok);
      took := if ns.kernel.statAnswer(order[i]) then took + [ok] else took;
      at, last := i + 1, Snapshot(ns.log, ns.tree, ns.calls);
    }
    out := Done;
  }

  lemma {:induction false} PlainStepsAppend(log: Log, paths: seq<Path>, policy: Policy)
    ensures PlayAll(log, PlainSteps(paths, policy)) == log + PlainMounts(paths, policy)
  {
    if |paths| > 0 {
      var init, p := paths[..|paths| - 1], paths[|paths| - 1];
      assert PlainSteps(paths, policy) == PlainSteps(init, policy) + [Plain(p, policy)];
      assert PlainMounts(paths, policy) == PlainMounts(init, policy) + [Mount(p, policy, p, false)];
      PlayAllSnoc(log, PlainSteps(init, policy), Plain(p, policy));
      PlainStepsAppend(log, init, policy);
    }
  }

  /**
    What ends the process at a writable path: no target, or a bind mount that is
    refused or meets another kind of node, for here its answer is not ignored.
   */
  predicate WritableDies(k: Kernel, t: Tree, calls: nat, p: Path, isDirectory: bool) {
    var made := CreationOf(k, t, calls, p, isDirectory);
    var there := if made == Made then (if isDirectory then Directory else File) else t(p);
    made == Died || there == Absent || there != k.host(p) || !k.bindAnswer(calls + Asked(k, t, p) + 1)
  }

  /** What fits is mounted, be it a file or a directory. */
  lemma FittingWritableLives(k: Kernel, t: Tree, calls: nat, shape: Tree, p: Path)
    requires Cooperative(k) && ParentClosed(t) && Fitted(t, shape) && StepFits(k.host, shape, p, p)
    ensures !WritableDies(k, t, calls, p, k.host(p) == Directory)
  {
    CreationFits(k, t, calls, shape, p, k.host(p));
  }

  /** A host path mounted writable on its own path. */
  method MountWritable(ns: Sandbox, p: Path, isDirectory: bool, policy: Policy, ghost shape: Tree)
    returns (out: Outcome)
    requires ns.Valid()
    modifies ns`log, ns`tree, ns`calls
    ensures ns.Valid()
    ensures out == Done ==> ns.log == old(ns.log) + [Mount(p, policy, p, false)]
    ensures out == Dead <==> WritableDies(ns.kernel, old(ns.tree), old(ns.calls), p, isDirectory)
    ensures
      && Fitted(old(ns.tree), shape) && StepFits(ns.kernel.host, shape, p, p)
      && isDirectory == (ns.kernel.host(p) == Directory)
      ==>
        Fitted(ns.tree, shape)
  {
    var made := ns.CreateTarget(p, isDirectory);
    if Fitted(old(ns.tree), shape) && StepFits(ns.kernel.host, shape, p, p)
      && isDirectory == (ns.kernel.host(p) == Directory) {
      MadeFits(old(ns.tree), ns.tree, shape, p, ns.kernel.host(p));
      MountedFits(ns.tree, shape, p, ns.kernel.host, p);
    }
    if made == Died {
      return Dead;
    }
    var accepted := ns.BindMount(p, p, policy);
    out := if accepted then Done else Dead;
  }

  lemma PlainMountsSnoc(log: Log, paths: seq<Path>, p: Path, policy: Policy)
    ensures log + PlainMounts(paths + [p], policy) == log + PlainMounts(paths, policy) + [Mount(p, policy, p, false)]
  {
  }

  /** The loop over the writable entries on the host: it ends the process only at one that does. */
  method MountWritables(ns: Sandbox, s: Settings, ghost shape: Tree)
    returns (out: Outcome, ghost at: nat, ghost last: Snapshot)
    requires ns.Valid()
    modifies ns`log, ns`tree, ns`calls
    ensures ns.Valid() && at <= |s.writables| && (out == Done <==> at == |s.writables|)
    ensures last == Snapshot(ns.log, ns.tree, ns.calls) || out == Dead
    ensures last.log == old(ns.log) + PlainMounts(PresentOnHost(ns.kernel, s.writables[..at]), Writable)
    ensures out == Dead ==> WritableDiesNext(ns.kernel, s.writables[at], last)
    ensures
      Cooperative(ns.kernel) && Fitted(old(ns.tree), shape) && WritablesFit(ns.kernel.host, shape, s.writables)
      ==>
        out == Done && Fitted(ns.tree, shape)
  {
    at, last := 0, Snapshot(ns.log, ns.tree, ns.calls);
    ghost var dirs := [];
    ghost var fine := Cooperative(ns.kernel) && Fitted(ns.tree, shape)
                   && WritablesFit(ns.kernel.host, shape, s.writables);
    for i := 0 to |s.writables|
      invariant ns.Valid() && dirs == PresentOnHost(ns.kernel, s.writables[..i])
      invariant at == i && last == Snapshot(ns.log, ns.tree, ns.calls)
      invariant fine ==> Fitted(ns.tree, shape)
      invariant ns.log == old(ns.log) + PlainMounts(dirs, Writable)
    {
      OneMorePresent(ns.kernel, s.writables, i);
      if ns.kernel.host(s.writables[i]) != Absent {
        if fine {
          FittingWritableLives(ns.kernel, ns.tree, ns.calls, shape, s.writables[i]);
        }
        out := MountWritable(ns, s.writables[i], ns.kernel.host(s.writables[i]) == Directory, Writable, shape);
        if out == Dead {
          return;
        }
        PlainMountsSnoc(old(ns.log), dirs, s.writables[i], Writable);
        dirs := dirs + [s.writables[i]];
      }
      at, last := i + 1, Snapshot(ns.log, ns.tree, ns.calls);
    }
    out := Done;
  }

  ghost predicate WritableDiesNext(k: Kernel, p: Path, last: Snapshot) {
    k.host(p) != Absent && WritableDies(k, last.tree, last.calls, p, k.host(p) == Directory)
  }

  /** Where in the plan the process ended. */
  datatype Ending =
    | NoEnding
    | AtBind(n: nat, last: Snapshot)
    | AtLeftover(n: nat, last: Snapshot)
    | AtOverlay(attempt: Attempt)
    | AtWritable(n: nat, last: Snapshot)
    | AtWorkingDir(last: Snapshot)

  /** There is a reason to end it there. */
  ghost predicate EndsAt(k: Kernel, mustBe: Test, s: Settings, order: seq<Path>, e: Ending) {
    match e
    case NoEnding => false
    case AtBind(n, last) => n < |s.sources| <= |s.targets| && DiesNext(k, mustBe, s.sources[n], s.targets[n], last)
    case AtLeftover(n, last) => n < |order| && k.statAnswer(order[n]) && DiesNext(k, mustBe, order[n], order[n], last)
    case AtOverlay(attempt) => DiesAt(k, s.overlays, 0, attempt)
    case AtWritable(n, last) => n < |s.writables| && WritableDiesNext(k, s.writables[n], last)
    case AtWorkingDir(last) => WritableDies(k, last.tree, last.calls, s.workingDir, true)
  }

  /**
    `MountAllMounts`: if it does not end the process, the log is what the plan for
    the options makes of it. If it does, one of the mounts is the reason. Where
    nothing but an invalid overlay can go wrong and every mount fits, it does not.
   */
  method MountAllMounts(ns: Sandbox, opt: Options, order: seq<Path>, ghost shape: Tree)
    returns (out: Outcome, ghost answers: Answers, ghost end: Ending)
    requires ns.Valid() && |opt.bindMountSources| <= |opt.bindMountTargets|
    modifies ns`log, ns`tree, ns`calls, ns`readOnlyPaths
    ensures ns.Valid()
    ensures out == Done ==>
      var k, s := ns.kernel, opt.PlanSettings();
      && FitAnswers(k, s, order, answers)
      && ns.log == PlayAll(old(ns.log), Steps(PlanFor(k, TestFor(k, ns.root, s), s, order, answers)))
      && ns.readOnlyPaths == old(ns.readOnlyPaths) + KeptSet(PiecesAll(k, s.overlays, answers.cuts))
    ensures out == Dead ==>
      EndsAt(ns.kernel, TestFor(ns.kernel, ns.root, opt.PlanSettings()), opt.PlanSettings(), order, end)
    ensures Fine(ns.kernel, old(ns.tree), shape) && PlanFits(ns.kernel, shape, opt.PlanSettings(), order) ==>
      out == Done && Fitted(ns.tree, shape)
  {
    var s := opt.PlanSettings();
    var mustBe := TestFor(ns.kernel, ns.root, s);
    answers := Answers([], [], []);
    ghost var binds, leftovers, cuts;
    out, binds, leftovers, end := MountBase(ns, s, mustBe, order, shape);
    if out == Dead {
      return;
    }
    ghost var base := ns.log;
    out, cuts, end := MountOnTop(ns, s, mustBe, order, shape);
    answers := Answers(binds, leftovers, cuts);
    if out == Done {
      PlanIsPlayed(old(ns.log), base, PlanFor(ns.kernel, mustBe, s, order, answers),
        OverlaidPaths(PiecesAll(ns.kernel, s.overlays, cuts)), PresentOnHost(ns.kernel, s.writables));
    }
  }

  /** What is mounted first and remounted read-only: binds and left-over directories. */
  method MountBase(ns: Sandbox, s: Settings, mustBe: Test, order: seq<Path>, ghost shape: Tree)
    returns (out: Outcome, ghost binds: seq<bool>, ghost leftovers: seq<bool>, ghost end: Ending)
    requires ns.Valid() && |s.sources| <= |s.targets|
    modifies ns`log, ns`tree, ns`calls
    ensures ns.Valid()
    ensures out == Done ==>
      exists middle ::
        && Carried(ns.kernel, mustBe, s.sources, s.targets[..|s.sources|], Policy.Bind, binds, old(ns.log), middle)
        && LeftoversCarried(ns.kernel, mustBe, order, leftovers, middle, ns.log)
    ensures out == Dead ==> EndsAt(ns.kernel, mustBe, s, order, end)
    ensures Fine(ns.kernel, old(ns.tree), shape) && PlanFits(ns.kernel, shape, s, order) ==>
      out == Done && Fitted(ns.tree, shape)
  {
    ghost var at, last;
    leftovers := [];
    WholeLists(s, order);
    out, binds, last := MountBinds(ns, s, mustBe, shape);
    end := AtBind(|binds|, last);
    if out == Dead {
      return;
    }
    out, leftovers, at, last := MountReadOnly(ns, mustBe, order, shape);
    end := AtLeftover(at, last);
  }

  /** What is mounted over it, writable: overlays, writable entries and the working directory. */
  method MountOnTop(ns: Sandbox, s: Settings, mustBe: Test, order: seq<Path>, ghost shape: Tree)
    returns (out: Outcome, ghost cuts: seq<Cut>, ghost end: Ending)
    requires ns.Valid()
    modifies ns`log, ns`tree, ns`calls, ns`readOnlyPaths
    ensures ns.Valid()
    ensures out == Done ==>
      && FitAll(ns.kernel, s.overlays, 0, cuts)
      && ns.log == old(ns.log) + OverlayLog(PiecesAll(ns.kernel, s.overlays, cuts))
           + PlainMounts(PresentOnHost(ns.kernel, s.writables), Writable)
           + [Mount(s.workingDir, WorkingDir, s.workingDir, false)]
      && ns.readOnlyPaths == old(ns.readOnlyPaths) + KeptSet(PiecesAll(ns.kernel, s.overlays, cuts))
    ensures out == Dead ==> EndsAt(ns.kernel, mustBe, s, order, end)
    ensures Fine(ns.kernel, old(ns.tree), shape) && PlanFits(ns.kernel, shape, s, order) ==>
      out == Done && Fitted(ns.tree, shape)
  {
    ghost var at, last, attempt, aborted;
    ghost var fine := Fine(ns.kernel, ns.tree, shape) && PlanFits(ns.kernel, shape, s, order);
    WholeLists(s, order);
    out, cuts, attempt, aborted := MountAllOverlayFs(ns, s.overlays, 0, shape);
    end := AtOverlay(attempt);
    if out == Dead {
      return;
    }
    out, at, last := MountWritables(ns, s, shape);
    end := AtWritable(at, last);
    if out == Dead {
      return;
    }
    end := AtWorkingDir(Snapshot(ns.log, ns.tree, ns.calls));
    if fine {
      FittingWritableLives(ns.kernel, ns.tree, ns.calls, shape, s.workingDir);
    }
    out := MountWritable(ns, s.workingDir, true, WorkingDir, shape);
  }

  lemma WholeLists(s: Settings, order: seq<Path>)
    ensures s.sources[..|s.sources|] == s.sources && s.writables[..|s.writables|] == s.writables
    ensures order[..|order|] == order
  {
  }

  lemma PlanIsPlayed(log: Log, l2: Log, plan: Plan, overlays: seq<Path>, writables: seq<Path>)
    requires l2 == PlayAll(PlayAll(log, plan.binds), plan.leftovers)
    requires plan.overlays == PlainSteps(overlays, Overlay) && plan.writables == PlainSteps(writables, Writable)
    ensures PlayAll(log, Steps(plan))
      == l2 + PlainMounts(overlays, Overlay) + PlainMounts(writables, Writable)
       + [Mount(plan.workingDir, WorkingDir, plan.workingDir, false)]
  {
    PlayAllConcat(log, plan.binds, plan.leftovers);
    PlayAllConcat(log, plan.binds + plan.leftovers, plan.overlays);
    PlainStepsAppend(l2, overlays, Overlay);
    PlayAllConcat(log, plan.binds + plan.leftovers + plan.overlays, plan.writables);
    PlainStepsAppend(l2 + PlainMounts(overlays, Overlay), writables, Writable);
    PlayAllSnoc(log, plan.binds + plan.leftovers + plan.overlays + plan.writables, Plain(plan.workingDir, WorkingDir));
  }
}
