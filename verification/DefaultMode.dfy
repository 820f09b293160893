/**
  The default mode from the working directory's mount point to the completed
  sandbox.
 */
module DefaultMode {
  import opened Text
  import opened Paths
  import opened SandboxOptions
  import opened WorkingDirChain
  import opened Namespace
  import opened OverlayFallback
  import opened MountPlan
  import opened Mounting
  import opened PlanMeaning
  import opened CompletingPass
  import opened Leftovers
  import opened InitFile
  import opened HostShape
  import opened OpenedHost
  import MountTable

  /** What a run leaves behind for the statements about it. */
  datatype Run = Run(order: seq<Path>, answers: Answers, trace: seq<Snapshot>)

  /** What a run meets: the kernel, the tests it makes, home, the root's entries and the mount table with its bound. */
  datatype Host = Host(
    k: Kernel, mustBe: Test, rules: Rules, home: Path, entries: seq<RootEntry>, table: seq<MountEntry>, num: int)

  /** With the tests the program makes. */
  function HostFor(
      k: Kernel, root: Path, s: Settings, home: Path, entries: seq<RootEntry>, table: seq<MountEntry>, num: int): Host
  {
    Host(k, TestFor(k, root, s), RulesFor(root, s), home, entries, table, num)
  }

  function Reach(h: Host): nat {
    Reached(|h.table|, h.num)
  }

  /** The log was made by the plan for the options, and then completed. */
  ghost predicate Carries(
      k: Kernel, mustBe: Test, rules: Rules, s: Settings, order: seq<Path>, a: Answers,
      table: seq<MountEntry>, n: nat, trace: seq<Snapshot>, before: Log, after: Log)
  {
    && FitAnswers(k, s, order, a)
    && Passed(k, rules, table, n, trace)
    && trace[0].log == PlayAll(before, Steps(PlanFor(k, mustBe, s, order, a)))
    && trace[n].log == after
    && Shows(k.host, trace[0].log, trace[0].tree)
  }

  /**
    The plan was made from the options, with exactly the left-over directories, and
    then completed, under some test of what must be read-only and some rules of the pass.
   */
  ghost predicate Completes(h: Host, s: Settings, before: Log, after: Log, run: Run) {
    && (forall p :: p in run.order <==> p in LeftoverSet(s, h.home, {}, h.entries))
    && Carries(h.k, h.mustBe, h.rules, s, run.order, run.answers, h.table, Reach(h), run.trace, before, after)
  }

  lemma LeftoversStayOut(s: Settings, home: Path, entries: seq<RootEntry>, order: seq<Path>)
    requires forall e <- entries :: |e.path| == 1
    requires forall p <- order :: p in LeftoverSet(s, home, {}, entries)
    ensures NoneReachInit(order)
  {
    forall p | p in order
      ensures !(p <= INNER_INIT)
    {
      assert |p| == 1;
      CoversOfInit(p);
      assert !(TMP <= p);
    }
  }

  /** What was shown when the plan was done is served in the finished sandbox by the same mount. */
  lemma {:induction false} PlannedSurvives(h: Host, s: Settings, before: Log, after: Log, run: Run, p: Path)
    requires Completes(h, s, before, after, run)
    requires run.trace[0].tree(p) != Absent
    ensures
      var planned := run.trace[0];
      && Served(after, p) == Served(planned.log, p) && HostPath(after, p) == HostPath(planned.log, p)
      && run.trace[Reach(h)].tree(p) == planned.tree(p)
  {
    PassNeverShadows(h.k, h.rules, h.table, Reach(h), run.trace, Reach(h), p);
  }

  /** The plan's precedence in the finished sandbox, for every path the plan left shown. */
  lemma {:induction false} FinishedByClass(h: Host, s: Settings, before: Log, after: Log, run: Run, p: Path)
    requires Completes(h, s, before, after, run)
    requires run.trace[0].tree(p) != Absent
    ensures Served(after, p) == ByClass(before, PlanFor(h.k, h.mustBe, s, run.order, run.answers), p)
  {
    PlanServesByClass(h.k, h.mustBe, s, run.order, run.answers, before, p);
    PlannedSurvives(h, s, before, after, run, p);
  }

  /**
    A host path under the working directory, a mounted writable entry or an overlay
    is there in the finished sandbox, as itself, writable.
   */
  lemma {:induction false} FinishedSandbox(h: Host, s: Settings, before: Log, after: Log, run: Run, p: Path)
    requires Completes(h, s, before, after, run)
    requires h.k.host(p) != Absent
    requires s.workingDir <= p || WritableCovers(h.k, s, p) || OverlaidAbove(h.k, s, run.answers.cuts, p)
    ensures
      && HostPath(after, p) == Some(p) && Served(after, p).Some? && !Served(after, p).value.readOnly
      && run.trace[Reach(h)].tree(p) == h.k.host(p)
  {
    var planned := run.trace[0];
    OwnPathWritable(h.k, h.mustBe, s, run.order, run.answers, before, p);
    ShownAsItself(h.k.host, planned.log, planned.tree, p);
    PlannedSurvives(h, s, before, after, run, p);
  }

  lemma ShownAsItself(host: Tree, log: Log, tree: Tree, p: Path)
    requires Shows(host, log, tree) && HostPath(log, p) == Some(p) && host(p) != Absent
    requires Served(log, p).value.policy != Earlier
    ensures tree(p) == host(p)
  {
    assert ShownBehind(host, log, tree, p);
  }

  /** If the kernel took the pair and the outer init file was created, the inner one is that file, writable. */
  ghost predicate InitFileShared(k: Kernel, after: Log, took: seq<bool>, at: nat) {
    && at < |took|
    && (took[at] && k.host(OUTER_INIT) != Absent && ListingValid(k) ==>
          && HostPath(after, INNER_INIT) == Some(OUTER_INIT)
          && Served(after, INNER_INIT).Some? && !Served(after, INNER_INIT).value.readOnly)
  }

  lemma {:induction false} CompletedKeepsInitFile(h: Host, s: Settings, before: Log, after: Log, run: Run, at: nat)
    requires Completes(h, s, before, after, run) && SettingsKeep(s, at)
    requires !h.mustBe(SBX_TMP, TMP)
    requires forall e <- h.entries :: |e.path| == 1
    ensures InitFileShared(h.k, after, run.answers.binds, at)
  {
    LeftoversStayOut(s, h.home, h.entries, run.order);
    if run.answers.binds[at] && h.k.host(OUTER_INIT) != Absent && ListingValid(h.k) {
      InitFileAgreement(h.k, h.mustBe, s, run.order, run.answers, before, h.rules, h.table, Reach(h), run.trace, at);
    }
  }

  /** A directory the fallback kept was recorded too late: the plan has no mount of it as a left-over directory. */
  lemma {:induction false} KeptWasTooLate(h: Host, s: Settings, before: Log, after: Log, run: Run, kept: Path)
    requires Completes(h, s, before, after, run) && ListingValid(h.k)
    requires forall e <- h.entries :: |e.path| == 1
    requires kept in KeptSet(PiecesAll(h.k, s.overlays, run.answers.cuts))
    ensures kept !in run.order
  {
    var cuts := run.answers.cuts;
    PiecesSplitByKind(PiecesAll(h.k, s.overlays, cuts));
    PiecesAllMembers(h.k, s.overlays, cuts);
    var j :| 0 <= j < |cuts| && Piece(kept, false) in Pieces(h.k, s.overlays[j], cuts[j]);
    PiecesLieBelow(h.k, s.overlays[j], 0, cuts[j]);
    assert forall p <- LeftoverSet(s, h.home, {}, h.entries) :: |p| == 1;
  }

  /**
    Nothing in, at or above home or the working directory is shown through a left-over
    directory, so the home directory does not leak through one of the root.
   */
  lemma {:induction false} HomeIsNotLeftOver(h: Host, s: Settings, before: Log, after: Log, run: Run, p: Path)
    requires Completes(h, s, before, after, run) && forall e <- h.entries :: |e.path| == 1
    requires p <= h.home || h.home <= p || p <= s.workingDir || s.workingDir <= p
    requires run.trace[0].tree(p) != Absent && forall m <- before :: m.policy == Earlier
    ensures Served(after, p).Some? ==> Served(after, p).value.policy != Leftover
  {
    var plan := PlanFor(h.k, h.mustBe, s, run.order, run.answers);
    StattedMembers(h.k, run.order);
    forall d | d in Statted(h.k, run.order)
      ensures !(d <= p)
    {
      LeftoverIff(s, h.home, {}, h.entries, d);
      if d <= p && h.home <= p {
        CoversAreComparable(d, h.home, p);
      }
      if d <= p && s.workingDir <= p {
        CoversAreComparable(d, s.workingDir, p);
      }
    }
    NoneLeftOver(h.k, h.mustBe, s, run.order, run.answers, before, p);
    FinishedByClass(h, s, before, after, run, p);
  }

  lemma NoneLeftOver(k: Kernel, mustBe: Test, s: Settings, order: seq<Path>, a: Answers, before: Log, p: Path)
    requires FitAnswers(k, s, order, a) && forall d <- Statted(k, order) :: !(d <= p)
    requires forall m <- before :: m.policy == Earlier
    ensures
      var m := ByClass(before, PlanFor(k, mustBe, s, order, a), p);
      m.Some? ==> m.value.policy != Leftover
  {
    var plan := PlanFor(k, mustBe, s, order, a);
    forall i | 0 <= i < |plan.leftovers|
      ensures !(plan.leftovers[i].target <= p)
    {
      assert Statted(k, order)[i] in Statted(k, order);
    }
  }

  /**
    What a caller requested before the run, whatever was opened for the working
    directory: every path below a writable entry of the host, or below a piece an
    overlay request put in place, is there as itself, writable.
   */
  lemma {:induction false} RequestsAreServed(
      h: Host, s: Settings, t: Settings, before: Log, after: Log, run: Run, p: Path)
    requires Completes(h, t, before, after, run)
    requires s.writables <= t.writables && s.overlays <= t.overlays && h.k.host(p) != Absent
    requires
      || WritableCovers(h.k, s, p)
      || exists j :: 0 <= j < |s.overlays| && OverlaidIn(h.k, s.overlays[j], run.answers.cuts[j], p)
    ensures HostPath(after, p) == Some(p) && Served(after, p).Some? && !Served(after, p).value.readOnly
  {
    var cuts := run.answers.cuts;
    if WritableCovers(h.k, s, p) {
      var w :| w in s.writables && h.k.host(w) != Absent && w <= p;
      assert w in t.writables;
    } else {
      var j :| 0 <= j < |s.overlays| && OverlaidIn(h.k, s.overlays[j], cuts[j], p);
      var x :| x in Pieces(h.k, s.overlays[j], cuts[j]) && x.overlaid && x.path <= p;
      PiecesAllMembers(h.k, t.overlays, cuts);
      assert x in Pieces(h.k, t.overlays[j], cuts[j]);
    }
    FinishedSandbox(h, t, before, after, run, p);
  }

  ghost predicate OverlaidIn(k: Kernel, d: Path, cut: Cut, p: Path) {
    exists x <- Pieces(k, d, cut) :: x.overlaid && x.path <= p
  }

  /** The first half of the default mode, on the options alone. */
  method OpenWorkingDir(
      opt: Options, home: Path, device: Option<nat>, hostTable: Option<seq<MountTable.Entry>>,
      links: Links, isXfs: Path -> bool)
    requires !opt.running && opt.useOverlayfs
    modifies opt`overlayfsmount, opt`writableFiles
    ensures opt.PlanSettings()
         == Opened(old(opt.PlanSettings()), MountTable.MountPointFor(opt.workingDir, device, hostTable),
              home, links, isXfs, opt.parentsWritable)
  {
    var mountPoint := MountTable.GetMountPointOf(opt.workingDir, device, hostTable);
    MountWorkingDirMountPoint(mountPoint, opt, home, links, isXfs);
  }

  /** A configuration that leaves the init file alone does so when the way to the working directory is opened. */
  lemma OpenedLeavesInitFileAlone(
      opt: Options, at: nat, home: Path, device: Option<nat>, hostTable: Option<seq<MountTable.Entry>>,
      links: Links, isXfs: Path -> bool)
    requires LeavesInitFileAlone(opt, at, links)
    ensures
      var mountPoint := MountTable.MountPointFor(opt.workingDir, device, hostTable);
      SettingsKeep(Opened(opt.PlanSettings(), mountPoint, home, links, isXfs, opt.parentsWritable), at)
  {
    var mountPoint := MountTable.MountPointFor(opt.workingDir, device, hostTable);
    if mountPoint.Some? {
      MountTable.MountPointCovers(hostTable.value, opt.workingDir, device.value);
    }
    AcceptedKeepsInitFile(opt, at, links);
    OpeningKeeps(opt.PlanSettings(), at, mountPoint, home, links, isXfs, opt.parentsWritable);
  }

  /** Opening the way to a working directory outside /tmp does not keep the sandbox from coming up. */
  lemma ComesUpWhenOpened(
      opt: Options, k: Kernel, t: Tree, home: Path, device: Option<nat>, hostTable: Option<seq<MountTable.Entry>>,
      links: Links, isXfs: Path -> bool)
    requires ParentClosed(k.host) && !(TMP <= opt.workingDir)
    ensures
      var mountPoint := MountTable.MountPointFor(opt.workingDir, device, hostTable);
      ComesUp(k, t, opt.PlanSettings(), home) && LinksReady(k.host, links) ==>
        ComesUp(k, t, Opened(opt.PlanSettings(), mountPoint, home, links, isXfs, opt.parentsWritable), home)
  {
    var mountPoint := MountTable.MountPointFor(opt.workingDir, device, hostTable);
    if mountPoint.Some? {
      MountTable.MountPointCovers(hostTable.value, opt.workingDir, device.value);
    }
    if ComesUp(k, t, opt.PlanSettings(), home) && LinksReady(k.host, links) {
      OpeningKeepsReady(k, opt.PlanSettings(), mountPoint, home, links, isXfs, opt.parentsWritable);
    }
  }

  /** The plan and its completion from the table, for left-over directories in some order. */
  method MountAndComplete(
      ns: Sandbox, opt: Options, order: seq<Path>, table: seq<MountEntry>, num: int, home: Path)
    returns (out: Outcome, ghost answers: Answers, ghost trace: seq<Snapshot>)
    requires ns.Valid() && |opt.bindMountSources| <= |opt.bindMountTargets|
    modifies ns`log, ns`tree, ns`calls, ns`readOnlyPaths
    ensures ns.Valid()
    ensures out == Done ==>
      Carries(ns.kernel, TestFor(ns.kernel, ns.root, opt.PlanSettings()), RulesFor(ns.root, opt.PlanSettings()),
        opt.PlanSettings(), order, answers, table, Reached(|table|, num), trace, old(ns.log), ns.log)
    ensures ComesUp(ns.kernel, old(ns.tree), opt.PlanSettings(), home) && AllSettled(ns.kernel.host, order) ==>
      out == Done && ns.tree(home) == Directory
  {
    trace := [];
    out, answers := MountOnHost(ns, opt, order, home);
    if out == Dead {
      return;
    }
    ghost var n, planned := 0, ns.tree;
    out, trace, n := CompleteFilesystem(ns, opt.PlanSettings(), table, num);
    if out == Dead {
      return;
    }
    out := MakeHome(ns, home, opt.PlanSettings(), planned);
  }

  /** What is called a directory in the root is one on the host. */
  ghost predicate Truthful(host: Tree, entries: seq<RootEntry>) {
    forall e <- entries :: e.known && e.isDirectory ==> host(e.path) == Directory
  }

  lemma LeftoversAreSettled(host: Tree, s: Settings, home: Path, entries: seq<RootEntry>, order: seq<Path>)
    requires forall e <- entries :: |e.path| == 1
    requires forall p <- order :: p in LeftoverSet(s, home, {}, entries)
    ensures Truthful(host, entries) ==> AllSettled(host, order)
  {
    if Truthful(host, entries) {
      forall d | d in order
        ensures Settled(host, d)
      {
        assert |d| == 1;
        OutsideTmpIsSettled(host, d);
      }
    }
  }

  /** The left-over directories in the order in which they are to be mounted. */
  method CollectLeftovers(ns: Sandbox, opt: Options, home: Path, entries: seq<RootEntry>) returns (order: seq<Path>)
    requires ns.readOnlyPaths == {} && forall e <- entries :: |e.path| == 1
    modifies ns`readOnlyPaths
    ensures forall p :: p in order <==> p in LeftoverSet(opt.PlanSettings(), home, {}, entries)
    ensures Truthful(ns.kernel.host, entries) ==> AllSettled(ns.kernel.host, order)
  {
    AddLeftoverFolders(ns, opt, home, entries);
    order := Enumerate(ns.readOnlyPaths);
    LeftoversAreSettled(ns.kernel.host, opt.PlanSettings(), home, entries, order);
  }

  /** The second half: left-over directories, the plan, its completion from the table, and home. */
  method MountDefault(ns: Sandbox, opt: Options, home: Path, entries: seq<RootEntry>, table: seq<MountEntry>, num: int)
    returns (out: Outcome, ghost run: Run)
    requires ns.Valid() && ns.readOnlyPaths == {} && |opt.bindMountSources| <= |opt.bindMountTargets|
    requires forall e <- entries :: |e.path| == 1
    modifies ns`log, ns`tree, ns`calls, ns`readOnlyPaths
    ensures ns.Valid()
    ensures out == Done ==>
      Completes(HostFor(ns.kernel, ns.root, opt.PlanSettings(), home, entries, table, num), opt.PlanSettings(),
        old(ns.log), ns.log, run)
    ensures ComesUp(ns.kernel, old(ns.tree), opt.PlanSettings(), home) && Truthful(ns.kernel.host, entries) ==>
      out == Done && ns.tree(home) == Directory
  {
    var order := CollectLeftovers(ns, opt, home, entries);
    ghost var answers, trace;
    out, answers, trace := MountAndComplete(ns, opt, order, table, num, home);
    run := Run(order, answers, trace);
  }

  /** The default mode: the way to the working directory is opened, then the sandbox is mounted. */
  method RunDefault(
      ns: Sandbox, opt: Options, home: Path, device: Option<nat>, hostTable: Option<seq<MountTable.Entry>>,
      links: Links, isXfs: Path -> bool, entries: seq<RootEntry>, table: seq<MountEntry>, num: int)
    returns (out: Outcome, ghost run: Run)
    requires ns.Valid() && ns.readOnlyPaths == {} && !opt.running && opt.useOverlayfs
    requires |opt.bindMountSources| <= |opt.bindMountTargets|
    requires forall e <- entries :: |e.path| == 1
    modifies ns`log, ns`tree, ns`calls, ns`readOnlyPaths, opt`overlayfsmount, opt`writableFiles
    ensures ns.Valid()
    ensures opt.PlanSettings()
         == Opened(old(opt.PlanSettings()), MountTable.MountPointFor(opt.workingDir, device, hostTable),
              home, links, isXfs, opt.parentsWritable)
    ensures old(opt.writableFiles) <= opt.writableFiles && old(opt.overlayfsmount) <= opt.overlayfsmount
    ensures out == Done ==>
      Completes(HostFor(ns.kernel, ns.root, opt.PlanSettings(), home, entries, table, num), opt.PlanSettings(),
        old(ns.log), ns.log, run)
    ensures ComesUp(ns.kernel, old(ns.tree), opt.PlanSettings(), home) && Truthful(ns.kernel.host, entries) ==>
      out == Done && ns.tree(home) == Directory
  {
    OpenedKeepsRequests(opt.PlanSettings(), MountTable.MountPointFor(opt.workingDir, device, hostTable),
      home, links, isXfs, opt.parentsWritable);
    OpenWorkingDir(opt, home, device, hostTable, links, isXfs);
    out, run := MountDefault(ns, opt, home, entries, table, num);
  }

  /**
    The same run, told about the init file: if the user left it alone and the kernel
    took the /tmp pair, it is the same file inside and outside.
   */
  method RunDefaultWithInitFile(
      ns: Sandbox, opt: Options, home: Path, device: Option<nat>, hostTable: Option<seq<MountTable.Entry>>,
      links: Links, isXfs: Path -> bool, entries: seq<RootEntry>, table: seq<MountEntry>, num: int, ghost at: nat)
    returns (out: Outcome, ghost run: Run)
    requires ns.Valid() && ns.readOnlyPaths == {} && !opt.running && LeavesInitFileAlone(opt, at, links)
    requires forall e <- entries :: |e.path| == 1
    modifies ns`log, ns`tree, ns`calls, ns`readOnlyPaths, opt`overlayfsmount, opt`writableFiles
    ensures opt.InitFile() == OUTER_INIT
    ensures out == Done ==>
      && Completes(HostFor(ns.kernel, ns.root, opt.PlanSettings(), home, entries, table, num), opt.PlanSettings(),
        old(ns.log), ns.log, run)
      && InitFileShared(ns.kernel, ns.log, run.answers.binds, at)
    ensures
      && ComesUp(ns.kernel, old(ns.tree), old(opt.PlanSettings()), home)
      && LinksReady(ns.kernel.host, links) && Truthful(ns.kernel.host, entries)
      ==>
        out == Done
  {
    ComesUpWhenOpened(opt, ns.kernel, ns.tree, home, device, hostTable, links, isXfs);
    OpenedLeavesInitFileAlone(opt, at, home, device, hostTable, links, isXfs);
    ghost var s := Opened(opt.PlanSettings(), MountTable.MountPointFor(opt.workingDir, device, hostTable),
                     home, links, isXfs, opt.parentsWritable);
    assert SBX_TMP + [INIT_NAME] == OUTER_INIT;
    out, run := RunDefault(ns, opt, home, device, hostTable, links, isXfs, entries, table, num);
    if out == Done {
      TmpShouldBeWritable(ns.kernel, ns.root, s);
      CompletedKeepsInitFile(HostFor(ns.kernel, ns.root, s, home, entries, table, num), s,
        old(ns.log), ns.log, run, at);
    }
  }
}
