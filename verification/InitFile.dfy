/**
  The file through which the sandboxed process reports that it started: when what it
  writes inside is what the original process reads outside.
 */
module InitFile {
  import opened Text
  import opened Paths
  import opened SandboxOptions
  import opened WorkingDirChain
  import opened Namespace
  import opened OverlayFallback
  import opened MountPlan
  import opened Mounting
  import opened PlanMeaning
  import opened CompletingPass

  /** Where `InitDone` writes, inside the sandbox. */
  const INNER_INIT: Path := ["tmp", "mini-sandbox-init"]
  /** Where `MiniSbxReadInit` reads in the default mode, outside. */
  const OUTER_INIT: Path := ["tmp", "mini-sandbox-tmp", "mini-sandbox-init"]

  /**
    Outside, the init file is that of the private /tmp in the default mode, and else
    the inner one as it is seen through the sandbox root, if there is one.
   */
  lemma WhereInitFileIs(opt: Options)
    ensures opt.InitFile() ==
      if opt.useDefault then OUTER_INIT
      else (if opt.sandboxRoot.Some? then opt.sandboxRoot.value else ROOT) + INNER_INIT
  {
    assert SBX_TMP + [INIT_NAME] == OUTER_INIT;
    assert TMP + [INIT_NAME] == INNER_INIT;
    if opt.sandboxRoot.Some? {
      assert opt.sandboxRoot.value + TMP + [INIT_NAME] == opt.sandboxRoot.value + INNER_INIT;
    }
  }

  /** No path of the list is the init file or above it. */
  ghost predicate NoneReachInit(paths: seq<Path>) {
    forall p <- paths :: !(p <= INNER_INIT)
  }

  // ----- when exactly the two are one file -----

  /** Every step but the pair at `at` mounts a host path on itself. */
  ghost predicate OwnPathsBut(steps: seq<Step>, at: nat) {
    forall i :: 0 <= i < |steps| && i != at ==> steps[i].source == steps[i].target
  }

  /** No step from the `from`-th on mounted at or above the init file. */
  ghost predicate NoneMountedAbove(steps: seq<Step>, from: nat) {
    forall i :: from <= i < |steps| ==> !(steps[i].mounted && steps[i].target <= INNER_INIT)
  }

  /** With the /tmp pair mounted at step `at`, the inner file is the outer one exactly when no later mount covers it. */
  lemma StepsAgreeIff(log: Log, steps: seq<Step>, at: nat)
    requires at < |steps| && steps[at].mounted && steps[at].source == SBX_TMP && steps[at].target == TMP
    requires OwnPathsBut(steps, at)
    ensures HostPath(PlayAll(log, steps), INNER_INIT) == Some(OUTER_INIT) <==> NoneMountedAbove(steps, at + 1)
  {
    assert TMP <= INNER_INIT && INNER_INIT[|TMP|..] == [INIT_NAME];
    ServedByLastStep(log, steps, INNER_INIT);
    var i := LastCovering(steps, INNER_INIT).value;
    if i == at {
      assert SBX_TMP + [INIT_NAME] == OUTER_INIT;
    } else {
      assert steps[i].target + INNER_INIT[|steps[i].target|..] == INNER_INIT;
      assert |INNER_INIT| != |OUTER_INIT|;
    }
  }

  lemma PlanMountsOwnPaths(k: Kernel, mustBe: Test, s: Settings, order: seq<Path>, a: Answers, at: nat)
    requires FitAnswers(k, s, order, a) && |s.sources| == |s.targets| && at < |s.sources|
    requires UnevenAt(Binds(s.sources, s.targets), at)
    ensures
      var steps := Steps(PlanFor(k, mustBe, s, order, a));
      && at < |steps| && OwnPathsBut(steps, at)
      && steps[at].source == SBX_TMP && steps[at].target == TMP && steps[at].mounted == a.binds[at]
  {
    var plan := PlanFor(k, mustBe, s, order, a);
    forall i | 0 <= i < |plan.binds| && i != at
      ensures plan.binds[i].source == plan.binds[i].target
    {
      assert s.sources[i] == s.targets[i];
    }
  }

  /**
    In terms of the options: neither the working directory nor a writable entry on the
    host nor an overlay covers the init file, and neither does a left-over directory or
    a later bind the kernel took.
   */
  ghost predicate Unshadowed(k: Kernel, s: Settings, order: seq<Path>, a: Answers, at: nat)
    requires FitAnswers(k, s, order, a)
  {
    && !(s.workingDir <= INNER_INIT)
    && !WritableCovers(k, s, INNER_INIT)
    && !OverlaidAbove(k, s, a.cuts, INNER_INIT)
    && (forall i :: 0 <= i < |a.leftovers| && a.leftovers[i] ==> !(Statted(k, order)[i] <= INNER_INIT))
    && (forall i :: at < i < |a.binds| && a.binds[i] ==> !(s.targets[i] <= INNER_INIT))
  }

  lemma NoneMountedConcat(a: seq<Step>, b: seq<Step>, from: nat)
    requires from <= |a|
    ensures NoneMountedAbove(a + b, from) <==> NoneMountedAbove(a, from) && NoneMountedAbove(b, 0)
  {
    var all := a + b;
    if NoneMountedAbove(all, from) {
      forall i | 0 <= i < |b|
        ensures !(b[i].mounted && b[i].target <= INNER_INIT)
      {
        assert all[|a| + i] == b[i];
      }
      forall i | from <= i < |a|
        ensures !(a[i].mounted && a[i].target <= INNER_INIT)
      {
        assert all[i] == a[i];
      }
    }
  }

  lemma PlainNoneMounted(paths: seq<Path>, policy: Policy)
    ensures NoneMountedAbove(PlainSteps(paths, policy), 0) <==> !CoveredBy(paths, INNER_INIT)
  {
    LastCoveringPlain(paths, policy, INNER_INIT);
  }

  lemma PlanNoneMounted(k: Kernel, mustBe: Test, s: Settings, order: seq<Path>, a: Answers, at: nat)
    requires FitAnswers(k, s, order, a) && at < |s.sources|
    ensures NoneMountedAbove(Steps(PlanFor(k, mustBe, s, order, a)), at + 1) <==> Unshadowed(k, s, order, a, at)
  {
    var plan := PlanFor(k, mustBe, s, order, a);
    var last := [Plain(plan.workingDir, WorkingDir)];
    NoneMountedConcat(plan.binds + plan.leftovers + plan.overlays + plan.writables, last, at + 1);
    NoneMountedConcat(plan.binds + plan.leftovers + plan.overlays, plan.writables, at + 1);
    NoneMountedConcat(plan.binds + plan.leftovers, plan.overlays, at + 1);
    NoneMountedConcat(plan.binds, plan.leftovers, at + 1);
    PlainNoneMounted(PresentOnHost(k, s.writables), Writable);
    PlainNoneMounted(OverlaidPaths(PiecesAll(k, s.overlays, a.cuts)), Overlay);
    WritableCoversIff(k, s, INNER_INIT);
    OverlaidAboveIff(k, s, a.cuts, INNER_INIT);
    assert NoneMountedAbove(last, 0) <==> !(s.workingDir <= INNER_INIT) by {
      assert last[0].mounted && last[0].target == s.workingDir;
    }
    BaseNoneMounted(k, mustBe, s, order, a, at);
  }

  lemma BaseNoneMounted(k: Kernel, mustBe: Test, s: Settings, order: seq<Path>, a: Answers, at: nat)
    requires FitAnswers(k, s, order, a)
    ensures
      var plan := PlanFor(k, mustBe, s, order, a);
      && (NoneMountedAbove(plan.binds, at + 1) <==>
            forall i :: at < i < |a.binds| && a.binds[i] ==> !(s.targets[i] <= INNER_INIT))
      && (NoneMountedAbove(plan.leftovers, 0) <==>
            forall i :: 0 <= i < |a.leftovers| && a.leftovers[i] ==> !(Statted(k, order)[i] <= INNER_INIT))
  {
    var plan := PlanFor(k, mustBe, s, order, a);
    assert forall i :: 0 <= i < |a.binds| ==>
        plan.binds[i].mounted == a.binds[i] && plan.binds[i].target == s.targets[i];
    assert forall i :: 0 <= i < |a.leftovers| ==>
        plan.leftovers[i].mounted == a.leftovers[i] && plan.leftovers[i].target == Statted(k, order)[i];
  }

  /**
    For the plan of every option set in lockstep whose /tmp pair the kernel took: the
    inner init file is the outer one if and only if nothing that is mounted later
    covers it.
   */
  lemma InitFileAgreesIff(k: Kernel, mustBe: Test, s: Settings, order: seq<Path>, a: Answers, log: Log, at: nat)
    requires FitAnswers(k, s, order, a) && |s.sources| == |s.targets| && at < |s.sources|
    requires UnevenAt(Binds(s.sources, s.targets), at) && a.binds[at]
    ensures HostPath(PlayAll(log, Steps(PlanFor(k, mustBe, s, order, a))), INNER_INIT) == Some(OUTER_INIT)
       <==> Unshadowed(k, s, order, a, at)
  {
    PlanMountsOwnPaths(k, mustBe, s, order, a, at);
    StepsAgreeIff(log, Steps(PlanFor(k, mustBe, s, order, a)), at);
    PlanNoneMounted(k, mustBe, s, order, a, at);
  }

  /** The completing pass neither makes nor breaks the agreement, once the outer file is there. */
  lemma {:induction false} PassKeepsInitFileIff(
      k: Kernel, rules: Rules, table: seq<MountEntry>, n: nat, trace: seq<Snapshot>)
    requires Passed(k, rules, table, n, trace) && Shows(k.host, trace[0].log, trace[0].tree)
    requires Served(trace[0].log, INNER_INIT).Some? && Served(trace[0].log, INNER_INIT).value.policy != Earlier
    requires k.host(OUTER_INIT) != Absent
    ensures HostPath(trace[n].log, INNER_INIT) == Some(OUTER_INIT)
       <==> HostPath(trace[0].log, INNER_INIT) == Some(OUTER_INIT)
  {
    var planned, final := trace[0], trace[n];
    if HostPath(planned.log, INNER_INIT) == Some(OUTER_INIT) {
      assert ShownBehind(k.host, planned.log, planned.tree, INNER_INIT);
      PassNeverShadows(k, rules, table, n, trace, n, INNER_INIT);
    }
    PassAddsOnlyMissing(k, rules, table, n, trace, n);
    var i := Serving(final.log, INNER_INIT);
    if i.Some? {
      if i.value < |planned.log| {
        ServedInPrefix(planned.log, final.log, INNER_INIT);
      } else {
        assert Missing(rules, table[..n], planned.tree, final.log[i.value]);
        OwnPathIsInner(final.log[i.value]);
      }
    }
  }

  lemma ServedInPrefix(before: Log, after: Log, p: Path)
    requires before <= after && Serving(after, p).Some? && Serving(after, p).value < |before|
    ensures HostPath(after, p) == HostPath(before, p)
  {
    var i := Serving(after, p).value;
    ServingIsLast(after, p);
    assert forall j :: 0 <= j < |before| ==> before[j] == after[j];
    ServingIs(before, p, i);
  }

  lemma OwnPathIsInner(m: Mount)
    requires m.source == m.target <= INNER_INIT
    ensures m.source + INNER_INIT[|m.target|..] == INNER_INIT != OUTER_INIT
  {
    assert |INNER_INIT| != |OUTER_INIT|;
  }

  /** The exact condition for the finished sandbox. */
  lemma {:induction false} FinishedInitFileIff(
      k: Kernel, mustBe: Test, s: Settings, order: seq<Path>, a: Answers, log: Log,
      rules: Rules, table: seq<MountEntry>, n: nat, trace: seq<Snapshot>, at: nat)
    requires FitAnswers(k, s, order, a) && |s.sources| == |s.targets| && at < |s.sources|
    requires UnevenAt(Binds(s.sources, s.targets), at) && a.binds[at]
    requires Passed(k, rules, table, n, trace) && Shows(k.host, trace[0].log, trace[0].tree)
    requires trace[0].log == PlayAll(log, Steps(PlanFor(k, mustBe, s, order, a)))
    requires k.host(OUTER_INIT) != Absent
    ensures HostPath(trace[n].log, INNER_INIT) == Some(OUTER_INIT) <==> Unshadowed(k, s, order, a, at)
  {
    InitFileAgreesIff(k, mustBe, s, order, a, log, at);
    PairServesAtLeast(k, mustBe, s, order, a, log, at);
    PassKeepsInitFileIff(k, rules, table, n, trace);
  }

  /** With the pair mounted, some mount of the plan serves the init file. */
  lemma PairServesAtLeast(k: Kernel, mustBe: Test, s: Settings, order: seq<Path>, a: Answers, log: Log, at: nat)
    requires FitAnswers(k, s, order, a) && at < |s.sources| && s.targets[at] == TMP && a.binds[at]
    ensures
      var m := Served(PlayAll(log, Steps(PlanFor(k, mustBe, s, order, a))), INNER_INIT);
      m.Some? && m.value.policy != Earlier
  {
    var plan := PlanFor(k, mustBe, s, order, a);
    PlanPrecedence(k, mustBe, s, order, a, log, INNER_INIT);
    BaseMode(k, mustBe, s, order, a, log, INNER_INIT);
    assert TMP <= INNER_INIT;
    assert plan.binds[at].mounted && plan.binds[at].target <= INNER_INIT;
  }

  // ----- the checks at start let a split init file through -----

  /** If the init file is itself a writable entry, what is written inside is not what is read outside. */
  lemma WritableInitFileSplits(k: Kernel, mustBe: Test, s: Settings, order: seq<Path>, a: Answers, log: Log)
    requires FitAnswers(k, s, order, a) && INNER_INIT in s.writables && k.host(INNER_INIT) != Absent
    ensures HostPath(PlayAll(log, Steps(PlanFor(k, mustBe, s, order, a))), INNER_INIT) == Some(INNER_INIT)
    ensures INNER_INIT != OUTER_INIT
  {
    assert INNER_INIT <= INNER_INIT;
    assert WritableCovers(k, s, INNER_INIT);
    PlanPrecedence(k, mustBe, s, order, a, log, INNER_INIT);
    var m := Served(PlayAll(log, Steps(PlanFor(k, mustBe, s, order, a))), INNER_INIT).value;
    OwnPathIsInner(m);
  }

  const SEED: Path := ["home", "user", ".rnd"]

  /** A configuration of the default mode in which it is, with or without the seed file, and which is accepted. */
  lemma WritableInitFileIsAccepted(opt: Options)
    requires opt.useDefault && opt.useOverlayfs && !opt.hermetic
    requires opt.tmpOverlayfs == Some(["tmp", "overlay"]) && opt.workingDir == ["home", "user", "project"]
    requires opt.writableFiles == [INNER_INIT] || opt.writableFiles == [SEED, INNER_INIT]
    requires opt.bindMountSources == [SBX_TMP] + DefaultMounts(["home", "user"], false, false)
    ensures opt.Accepted(false) && opt.InitFile() == OUTER_INIT && !(TMP <= opt.workingDir)
  {
    assert INNER_INIT[1] != "overlay" && INNER_INIT[1] != SBX_TMP[1] && TMP[0] != opt.workingDir[0];
    assert SEED[0] != "tmp" && |SEED| == 3;
    assert opt.bindMountSources == [SBX_TMP, ["proc"], ["var"], ["opt"]];
    assert SBX_TMP + [INIT_NAME] == OUTER_INIT;
  }

  /** The option calls that lead there, whether the seed file can be made or not. */
  method WritableInitFile(seedMade: bool) returns (opt: Options, rc: int)
    ensures fresh(opt) && opt.InitFile() == OUTER_INIT
    ensures opt.writableFiles == if seedMade then [SEED, INNER_INIT] else [INNER_INIT]
    ensures rc == 0 && opt.Accepted(false)
  {
    opt := new Options();
    opt.workingDir := ["home", "user", "project"];
    var seed := Request(SEED, SEED, SEED, true, seedMade, true, []);
    var _ := opt.SetupDefault(["home", "user"], false, false, seed, true, ["tmp", "root"], ["tmp", "overlay"]);
    assert opt.writableFiles == if seedMade then [SEED] else [];
    var _ := opt.MountWrite(Plainly(INNER_INIT, false, []));
    assert opt.writableFiles == if seedMade then [SEED, INNER_INIT] else [INNER_INIT];
    WritableInitFileIsAccepted(opt);
    rc := opt.ValidateOptions(false);
  }

  // ----- what keeps later mounts off the init file -----

  /** The pair is there, and nothing mounted after it covers the init file. */
  ghost predicate SettingsKeep(s: Settings, at: nat) {
    && at < |s.sources| == |s.targets| && s.sources[at] == SBX_TMP && s.targets[at] == TMP
    && (forall i :: at < i < |s.targets| ==> !(s.targets[i] <= INNER_INIT))
    && NoneReachInit(s.overlays) && NoneReachInit(s.writables) && !(s.workingDir <= INNER_INIT)
  }

  /**
    What a user has to leave alone: an accepted default-mode configuration with the
    working directory outside /tmp, and no bind, overlay, writable entry or symlink
    on the way at the init file or above it that the checks do not refuse already.
   */
  ghost predicate LeavesInitFileAlone(opt: Options, at: nat, links: Links)
    reads opt
  {
    && opt.useDefault && opt.useOverlayfs && opt.Accepted(false)
    && opt.tmpOverlayfs.Some? && TMP <= opt.tmpOverlayfs.value
    && |opt.bindMountSources| == |opt.bindMountTargets| && at < |opt.bindMountSources|
    && UnevenAt(Binds(opt.bindMountSources, opt.bindMountTargets), at)
    && ROOT !in opt.bindMountSources && INNER_INIT !in opt.bindMountSources
    && INNER_INIT !in opt.writableFiles
    && NoneReachInit(opt.overlayfsmount)
    && !(TMP <= opt.workingDir)
    && (forall p :: NoneReachInit(links(p)))
  }

  /** The root, /tmp and the file itself are all there is above the file. */
  lemma CoversOfInit(p: Path)
    ensures p <= INNER_INIT <==> p == ROOT || p == TMP || p == INNER_INIT
  {
    if p <= INNER_INIT {
      assert p == INNER_INIT[..|p|];
      assert INNER_INIT[..0] == ROOT && INNER_INIT[..1] == TMP && INNER_INIT[..2] == INNER_INIT;
    }
  }

  /** The checks at start shut out / and /tmp: they cover the overlay directory. */
  lemma AcceptedKeepsInitFile(opt: Options, at: nat, links: Links)
    requires LeavesInitFileAlone(opt, at, links)
    ensures SettingsKeep(opt.PlanSettings(), at)
  {
    var b := Binds(opt.bindMountSources, opt.bindMountTargets);
    assert UnevenAt(b, at);
    forall i | at < i < |b.targets|
      ensures !(b.targets[i] <= INNER_INIT)
    {
      assert b.sources[i] == b.targets[i] && b.sources[i] in opt.bindMountSources;
      CoversOfInit(b.targets[i]);
    }
    forall w | w in opt.writableFiles
      ensures !(w <= INNER_INIT)
    {
      CoversOfInit(w);
      assert !(w <= opt.tmpOverlayfs.value);
    }
    CoversOfInit(opt.workingDir);
  }

  lemma {:induction false} ChainStaysBelow(a: Path, from: Path, to: Path)
    requires a <= from && a <= to
    ensures forall c <- Chain(from, to) :: a <= c && (c <= from || c <= to)
    decreases if from <= to then 0 else 1, if from <= to then |to| - |from| else |from|
  {
    if from != to {
      if from <= to {
        ChainStaysBelow(a, from + [to[|from|]], to);
      } else {
        assert a != from;
        assert a <= Parent(from);
        ChainStaysBelow(a, Parent(from), to);
      }
    }
  }

  /** Whatever is opened for the working directory lies at or below the first top level, so outside /tmp. */
  lemma OpenedStaysOut(mount: Path, workdir: Path, home: Path, isXfs: Path -> bool)
    requires mount <= workdir && !(TMP <= workdir)
    ensures
      var final := FinalTopLevel(mount, workdir, home);
      final.Some? ==> NoneReachInit([final.value] + OpenedChain(final.value, workdir, isXfs))
  {
    var first, final := TopLevelRelativeFolder(mount, workdir), FinalTopLevel(mount, workdir, home);
    if final.Some? {
      var top := first.value;
      assert top == workdir[..|mount| + 1];
      if top <= home && !(home <= workdir) {
        assert top != home;
        assert top <= Parent(home);
      }
      assert top <= final.value;
      ChainBelowTop(top, final.value, workdir, isXfs);
      OutsideTmp(workdir);
      forall c | c in [final.value] + OpenedChain(final.value, workdir, isXfs)
        ensures !(c <= INNER_INIT)
      {
        assert top <= c;
        assert c[0] == top[0] == workdir[0];
      }
    }
  }

  lemma OutsideTmp(p: Path)
    requires |p| > 0
    ensures p[0] == "tmp" ==> TMP <= p
  {
    assert p[..1] == [p[0]];
  }

  lemma {:induction false} ChainBelowTop(top: Path, final: Path, workdir: Path, isXfs: Path -> bool)
    requires top <= final && top <= workdir
    ensures forall c <- OpenedChain(final, workdir, isXfs) :: top <= c && (c <= final || c <= workdir)
  {
    ChainStaysBelow(top, final, workdir);
  }

  lemma {:induction false} RequestsStayOut(overlays: seq<Path>, chain: seq<Path>, links: Links)
    requires NoneReachInit(overlays) && NoneReachInit(chain) && forall p :: NoneReachInit(links(p))
    ensures NoneReachInit(RequestAll(overlays, chain, links))
    decreases |chain|
  {
    if |chain| > 0 {
      var req := OverlayRequest(chain[0], links);
      AddAllKeeps(overlays + [chain[0]], Parents(req));
      assert chain[0] in chain && forall c <- chain[1..] :: c in chain;
      assert forall p <- AfterOverlay(overlays, req) :: p in overlays || p == chain[0] || p in links(chain[0]);
      RequestsStayOut(AfterOverlay(overlays, req), chain[1..], links);
    }
  }

  /** Opening the way to the working directory keeps the init file out of reach. */
  lemma {:induction false} OpeningKeeps(
      s: Settings, at: nat, mountPoint: Option<Path>, home: Path, links: Links, isXfs: Path -> bool, writable: bool)
    requires SettingsKeep(s, at) && !(TMP <= s.workingDir) && forall p :: NoneReachInit(links(p))
    requires mountPoint.Some? ==> mountPoint.value <= s.workingDir
    ensures SettingsKeep(Opened(s, mountPoint, home, links, isXfs, writable), at)
  {
    if mountPoint.Some? {
      var final := FinalTopLevel(mountPoint.value, s.workingDir, home);
      if final.Some? {
        var chain := OpenedChain(final.value, s.workingDir, isXfs);
        OpenedStaysOut(mountPoint.value, s.workingDir, home, isXfs);
        assert forall c <- chain :: c in [final.value] + chain;
        assert final.value in [final.value] + chain;
        RequestsStayOut(s.overlays, chain, links);
        AddAllKeeps(s.writables + [final.value], Parents(OverlayRequest(final.value, links)));
      }
    }
  }

  // ----- one file inside and outside -----

  lemma {:induction false} OverlaysStayOut(k: Kernel, dirs: seq<Path>, cuts: seq<Cut>)
    requires ListingValid(k) && FitAll(k, dirs, 0, cuts) && NoneReachInit(dirs)
    ensures forall x <- PiecesAll(k, dirs, cuts) :: !(x.path <= INNER_INIT)
    decreases |cuts|
  {
    if |cuts| > 0 {
      assert dirs[0] in dirs && forall d <- dirs[1..] :: d in dirs;
      PiecesLieBelow(k, dirs[0], 0, cuts[0]);
      OverlaysStayOut(k, dirs[1..], cuts[1..]);
      forall x | x in Pieces(k, dirs[0], cuts[0])
        ensures !(x.path <= INNER_INIT)
      {
        assert dirs[0] <= x.path;
      }
    }
  }

  lemma TmpShouldBeWritable(k: Kernel, root: Path, s: Settings)
    ensures !TestFor(k, root, s)(SBX_TMP, TMP)
  {
    assert Render(TMP) == Body([]) + "/" + "tmp" == "/tmp";
    var text := SandboxText(root, TMP);
    assert text[|text| - |"/tmp"|..] == "/tmp";
  }

  lemma NothingAboveInBetterClasses(k: Kernel, s: Settings, cuts: seq<Cut>)
    requires ListingValid(k) && FitAll(k, s.overlays, 0, cuts)
    requires NoneReachInit(s.overlays) && NoneReachInit(s.writables)
    ensures !WritableCovers(k, s, INNER_INIT) && !OverlaidAbove(k, s, cuts, INNER_INIT)
  {
    OverlaysStayOut(k, s.overlays, cuts);
  }

  lemma LeftoversMiss(steps: seq<Step>, dirs: seq<Path>, order: seq<Path>)
    requires |steps| == |dirs| && forall i :: 0 <= i < |dirs| ==> steps[i].target == dirs[i]
    requires NoneReachInit(order) && forall d <- dirs :: d in order
    ensures LastCovering(steps, INNER_INIT) == None
  {
    forall i | 0 <= i < |dirs|
      ensures !(dirs[i] <= INNER_INIT)
    {
      assert dirs[i] in dirs;
    }
  }

  lemma PairIsLast(steps: seq<Step>, s: Settings, at: nat)
    requires SettingsKeep(s, at) && |steps| == |s.targets| && steps[at].mounted
    requires forall i :: 0 <= i < |steps| ==> steps[i].target == s.targets[i]
    ensures LastCovering(steps, INNER_INIT) == Some(at)
  {
    assert TMP <= INNER_INIT;
    assert steps[at].mounted && steps[at].target <= INNER_INIT;
  }

  lemma {:induction false} PairStaysWritable(k: Kernel, mustBe: Test, s: Settings, order: seq<Path>, at: nat)
    requires SettingsKeep(s, at) && NoneReachInit(order) && !mustBe(SBX_TMP, TMP)
    ensures !BindReadOnly(k, mustBe, s, order, at)
  {
    assert TMP <= INNER_INIT;
    StattedMembers(k, order);
  }

  /** After the plan the /tmp pair serves the init file, writable. */
  lemma {:induction false} PlanKeepsInitFile(
      k: Kernel, mustBe: Test, s: Settings, order: seq<Path>, a: Answers, log: Log, at: nat)
    requires FitAnswers(k, s, order, a) && ListingValid(k)
    requires SettingsKeep(s, at) && a.binds[at] && NoneReachInit(order) && !mustBe(SBX_TMP, TMP)
    ensures Served(PlayAll(log, Steps(PlanFor(k, mustBe, s, order, a))), INNER_INIT)
         == Some(Mount(TMP, Policy.Bind, SBX_TMP, false))
  {
    var plan := PlanFor(k, mustBe, s, order, a);
    PlanPrecedence(k, mustBe, s, order, a, log, INNER_INIT);
    NothingAboveInBetterClasses(k, s, a.cuts);
    StattedMembers(k, order);
    LeftoversMiss(plan.leftovers, Statted(k, order), order);
    PairIsLast(plan.binds, s, at);
    BaseMode(k, mustBe, s, order, a, log, INNER_INIT);
    PairStaysWritable(k, mustBe, s, order, at);
  }

  /** Served by the pair, the inner file is the outer one, and it shows if that one is there. */
  lemma PairShowsInitFile(k: Kernel, log: Log, tree: Tree)
    requires Served(log, INNER_INIT) == Some(Mount(TMP, Policy.Bind, SBX_TMP, false))
    requires Shows(k.host, log, tree)
    ensures HostPath(log, INNER_INIT) == Some(OUTER_INIT)
    ensures tree(INNER_INIT) == k.host(OUTER_INIT) || k.host(OUTER_INIT) == Absent
  {
    assert SBX_TMP + INNER_INIT[|TMP|..] == OUTER_INIT;
    assert ShownBehind(k.host, log, tree, INNER_INIT);
  }

  /**
    Init file agreement: through the plan and the completing pass, the inner init
    file stays the outer one, in a writable mount, once the outer one was created.
   */
  lemma {:induction false} InitFileAgreement(
      k: Kernel, mustBe: Test, s: Settings, order: seq<Path>, a: Answers, log: Log,
      rules: Rules, table: seq<MountEntry>, n: nat, trace: seq<Snapshot>, at: nat)
    requires FitAnswers(k, s, order, a) && ListingValid(k)
    requires SettingsKeep(s, at) && a.binds[at] && NoneReachInit(order) && !mustBe(SBX_TMP, TMP)
    requires Passed(k, rules, table, n, trace) && Shows(k.host, trace[0].log, trace[0].tree)
    requires trace[0].log == PlayAll(log, Steps(PlanFor(k, mustBe, s, order, a)))
    requires k.host(OUTER_INIT) != Absent
    ensures
      var final := trace[n].log;
      && HostPath(final, INNER_INIT) == Some(OUTER_INIT)
      && Served(final, INNER_INIT) == Some(Mount(TMP, Policy.Bind, SBX_TMP, false))
  {
    PlanKeepsInitFile(k, mustBe, s, order, a, log, at);
    PairShowsInitFile(k, trace[0].log, trace[0].tree);
    PassNeverShadows(k, rules, table, n, trace, n, INNER_INIT);
  }
}
