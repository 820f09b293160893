/**
  The overlay mode: the overlays are mounted once before the plan, so here the
  directories the fallback kept are there when the plan mounts read-only directories.
 */
module OverlayMode {
  import opened Paths
  import opened SandboxOptions
  import opened Namespace
  import opened OverlayFallback
  import opened MountPlan
  import opened Mounting
  import opened PlanMeaning
  import opened HostShape

  /** The branch for `use_overlayfs` without the default mode. */
  method RunOverlay(ns: Sandbox, opt: Options, home: Path)
    returns (out: Outcome, ghost first: seq<Cut>, ghost order: seq<Path>, ghost answers: Answers)
    requires ns.Valid() && ns.readOnlyPaths == {} && |opt.bindMountSources| <= |opt.bindMountTargets|
    modifies ns`log, ns`tree, ns`calls, ns`readOnlyPaths
    ensures ns.Valid()
    ensures out == Done ==>
      var k, s := ns.kernel, opt.PlanSettings();
      && FitAll(k, s.overlays, 0, first)
      && (forall p :: p in order <==> p in KeptSet(PiecesAll(k, s.overlays, first)))
      && FitAnswers(k, s, order, answers)
      && ns.log == PlayAll(old(ns.log) + OverlayLog(PiecesAll(k, s.overlays, first)),
                     Steps(PlanFor(k, TestFor(k, ns.root, s), s, order, answers)))
      && ns.tree(home) == Directory
    ensures ComesUp(ns.kernel, old(ns.tree), opt.PlanSettings(), home) ==> out == Done
  {
    order, answers := [], Answers([], [], []);
    var paths;
    out, first, paths := MountOverlaysFirst(ns, opt.PlanSettings(), home);
    if out == Dead {
      return;
    }
    order := paths;
    out, answers := MountOnHost(ns, opt, paths, home);
    if out == Dead {
      return;
    }
    out := MakeHome(ns, home, opt.PlanSettings(), ns.tree);
  }

  /** The first round of overlay mounts, and what it kept in the order in which it is to be mounted. */
  method MountOverlaysFirst(ns: Sandbox, s: Settings, ghost home: Path)
    returns (out: Outcome, ghost first: seq<Cut>, order: seq<Path>)
    requires ns.Valid() && ns.readOnlyPaths == {}
    modifies ns`log, ns`tree, ns`calls, ns`readOnlyPaths
    ensures ns.Valid()
    ensures out == Done ==>
      && FitAll(ns.kernel, s.overlays, 0, first)
      && (forall p :: p in order <==> p in KeptSet(PiecesAll(ns.kernel, s.overlays, first)))
      && ns.log == old(ns.log) + OverlayLog(PiecesAll(ns.kernel, s.overlays, first))
    ensures ComesUp(ns.kernel, old(ns.tree), s, home) ==>
      out == Done && ComesUp(ns.kernel, ns.tree, s, home) && AllSettled(ns.kernel.host, order)
  {
    order := [];
    ghost var attempt, aborted;
    ghost var fine := ComesUp(ns.kernel, ns.tree, s, home);
    if fine {
      ReadyPlanFits(ns.kernel, s, []);
    }
    out, first, attempt, aborted := MountAllOverlayFs(ns, s.overlays, 0, ShapeOf(ns.kernel.host));
    if out == Dead {
      return;
    }
    order := Enumerate(ns.readOnlyPaths);
    if fine {
      KeptIsSettled(ns.kernel, s, first);
    }
  }

  /**
    What the first round kept is served from a read-only class afterwards: below a
    kept directory, unless the working directory, a writable entry or an overlay of
    the second round takes over, a kept directory serves, in the mode it should have.
   */
  lemma KeptPartIsMounted(
      k: Kernel, mustBe: Test, s: Settings, order: seq<Path>, a: Answers, log: Log, kept: Path, p: Path)
    requires FitAnswers(k, s, order, a) && AcceptsBinds(k)
    requires kept in order && k.statAnswer(kept) && kept <= p
    requires !(s.workingDir <= p) && !WritableCovers(k, s, p) && !OverlaidAbove(k, s, a.cuts, p)
    ensures
      var m := Served(PlayAll(log, Steps(PlanFor(k, mustBe, s, order, a))), p);
      && m.Some? && m.value.policy == Leftover && m.value.source == m.value.target
      && m.value.target in order
      && m.value.readOnly == mustBe(m.value.target, m.value.target)
  {
    var plan := PlanFor(k, mustBe, s, order, a);
    PlanPrecedence(k, mustBe, s, order, a, log, p);
    BaseMode(k, mustBe, s, order, a, log, p);
    StattedMembers(k, order);
    StattedKeeps(k, order, kept);
    var i :| 0 <= i < |Statted(k, order)| && Statted(k, order)[i] == kept;
    assert a.leftovers[i] in a.leftovers;
    assert plan.leftovers[i].mounted && plan.leftovers[i].target <= p;
  }
}
