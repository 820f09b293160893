/**
  The mount plan: binds, left-over directories, overlays, writable entries and the
  working directory, mounted in this order. What it means for a path is given by
  the classes alone.
 */
module MountPlan {
  import opened Text
  import opened Paths
  import opened Namespace

  // ----- steps -----

  /** One turn of a mounting loop: whether the mount was made and whether the target was then remounted read-only. */
  datatype Step = Step(target: Path, policy: Policy, source: Path, mounted: bool, remounted: bool)

  /** A read-only remount reaches the mount that serves its target, if it is mounted just there. */
  function Flip(log: Log, target: Path): Log {
    match Serving(log, target)
    case None => log
    case Some(i) => if log[i].target == target then log[i := log[i].(readOnly := true)] else log
  }

  function Play(log: Log, s: Step): Log {
    var l := if s.mounted then log + [Mount(s.target, s.policy, s.source, false)] else log;
    if s.remounted then Flip(l, s.target) else l
  }

  function PlayAll(log: Log, steps: seq<Step>): Log {
    if |steps| == 0 then log else Play(PlayAll(log, steps[..|steps| - 1]), steps[|steps| - 1])
  }

  lemma PlayAllSnoc(log: Log, steps: seq<Step>, s: Step)
    ensures PlayAll(log, steps + [s]) == Play(PlayAll(log, steps), s)
  {
    assert (steps + [s])[..|steps|] == steps;
  }

  lemma {:induction false} PlayAllConcat(log: Log, a: seq<Step>, b: seq<Step>)
    ensures PlayAll(log, a + b) == PlayAll(PlayAll(log, a), b)
  {
    if |b| == 0 {
      assert a + b == a;
    } else {
      assert (a + b)[..|a + b| - 1] == a + b[..|b| - 1];
      PlayAllConcat(log, a, b[..|b| - 1]);
    }
  }

  // ----- which step serves a path -----

  function Served(log: Log, p: Path): Option<Mount> {
    match Serving(log, p)
    case None => None
    case Some(i) => Some(log[i])
  }

  /** One step, seen from one path: a covering mount takes over, a remount touches the mount at its own target. */
  lemma PlayServes(log: Log, s: Step, p: Path)
    ensures s.mounted && s.target <= p ==>
      Served(Play(log, s), p) == Some(Mount(s.target, s.policy, s.source, s.remounted))
    ensures !(s.mounted && s.target <= p) ==>
      Served(Play(log, s), p) == match Served(log, p)
        case None => None
        case Some(m) => Some(if s.remounted && m.target == s.target then m.(readOnly := true) else m)
  {
    var m := Mount(s.target, s.policy, s.source, false);
    var l := if s.mounted then log + [m] else log;
    if s.mounted {
      ServingSnoc(log, m, p);
      ServingSnoc(log, m, s.target);
    }
    ModesDoNotServe(l, Flip(l, s.target), p);
    if Serving(l, p).Some? {
      var i := Serving(l, p).value;
      if l[i].target == s.target {
        ServingIsLast(l, p);
        ServingIs(l, s.target, i);
      }
    }
  }

  function LastCovering(steps: seq<Step>, p: Path): (r: Option<nat>)
    ensures r.Some? ==> r.value < |steps| && steps[r.value].mounted && steps[r.value].target <= p
    ensures forall i :: (if r.Some? then r.value + 1 else 0) <= i < |steps| ==>
      !(steps[i].mounted && steps[i].target <= p)
  {
    if |steps| == 0 then None
    else
      var s := steps[|steps| - 1];
      if s.mounted && s.target <= p then Some(|steps| - 1) else LastCovering(steps[..|steps| - 1], p)
  }

  lemma {:induction false} LastCoveringConcat(a: seq<Step>, b: seq<Step>, p: Path)
    ensures LastCovering(a + b, p) ==
      match LastCovering(b, p)
      case Some(i) => Some(|a| + i)
      case None => LastCovering(a, p)
  {
    if |b| == 0 {
      assert a + b == a;
    } else {
      assert (a + b)[..|a + b| - 1] == a + b[..|b| - 1];
      LastCoveringConcat(a, b[..|b| - 1], p);
    }
  }

  /** Some step from the `from`-th on remounts the target. */
  predicate RemountedFrom(steps: seq<Step>, from: nat, target: Path) {
    exists j :: from <= j < |steps| && steps[j].target == target && steps[j].remounted
  }

  lemma RemountedSnoc(steps: seq<Step>, s: Step, from: nat, target: Path)
    requires from <= |steps|
    ensures RemountedFrom(steps + [s], from, target)
       <==> RemountedFrom(steps, from, target) || (s.target == target && s.remounted)
  {
    var more := steps + [s];
    if RemountedFrom(steps, from, target) {
      var j :| from <= j < |steps| && steps[j].target == target && steps[j].remounted;
      assert more[j] == steps[j];
    }
    assert more[|steps|] == s;
  }

  function WithMode(m: Option<Mount>, remounted: bool): Option<Mount> {
    if m.Some? && remounted then Some(m.value.(readOnly := true)) else m
  }

  /** What serves a path after the steps, and in which mode. */
  function ServedBySteps(log: Log, steps: seq<Step>, p: Path): Option<Mount> {
    match LastCovering(steps, p)
    case Some(i) =>
      var s := steps[i];
      Some(Mount(s.target, s.policy, s.source, RemountedFrom(steps, i, s.target)))
    case None =>
      var m := Served(log, p);
      WithMode(m, m.Some? && RemountedFrom(steps, 0, m.value.target))
  }

  /** The last step that mounted above a path serves it, read-only exactly if it or a later step remounted there. */
  lemma {:induction false} ServedByLastStep(log: Log, steps: seq<Step>, p: Path)
    ensures Served(PlayAll(log, steps), p) == ServedBySteps(log, steps, p)
  {
    if |steps| > 0 {
      var init, s := steps[..|steps| - 1], steps[|steps| - 1];
      assert steps == init + [s];
      ServedByLastStep(log, init, p);
      PlayServes(PlayAll(log, init), s, p);
      match LastCovering(steps, p)
      case Some(i) =>
        RemountedSnoc(init, s, i, steps[i].target);
      case None =>
        if Served(log, p).Some? {
          RemountedSnoc(init, s, 0, Served(log, p).value.target);
        }
    }
  }

  // ----- the plan -----

  datatype Plan = Plan(
    binds: seq<Step>, leftovers: seq<Step>, overlays: seq<Step>, writables: seq<Step>, workingDir: Path)

  function Steps(plan: Plan): seq<Step> {
    plan.binds + plan.leftovers + plan.overlays + plan.writables + [Plain(plan.workingDir, WorkingDir)]
  }

  /** A host directory mounted on its own path, writable. */
  function Plain(p: Path, policy: Policy): Step {
    Step(p, policy, p, true, false)
  }

  ghost predicate AllPlain(steps: seq<Step>, policy: Policy) {
    forall s <- steps :: s == Plain(s.target, policy)
  }

  /** The class-priority lookup. */
  function ByClass(log: Log, plan: Plan, p: Path): Option<Mount> {
    if plan.workingDir <= p then Some(Mount(plan.workingDir, WorkingDir, plan.workingDir, false))
    else if LastCovering(plan.writables, p).Some? then
      var w := plan.writables[LastCovering(plan.writables, p).value].target;
      Some(Mount(w, Writable, w, false))
    else if LastCovering(plan.overlays, p).Some? then
      var o := plan.overlays[LastCovering(plan.overlays, p).value].target;
      Some(Mount(o, Overlay, o, false))
    else
      ByBase(log, plan, p)
  }

  /** The lookup among the classes that are remounted read-only. */
  function ByBase(log: Log, plan: Plan, p: Path): Option<Mount> {
    match LastCovering(plan.leftovers, p)
    case Some(i) =>
      var l := plan.leftovers[i];
      Some(Mount(l.target, l.policy, l.source, RemountedFrom(plan.leftovers, i, l.target)))
    case None =>
      match LastCovering(plan.binds, p)
      case Some(i) =>
        var b := plan.binds[i];
        Some(Mount(b.target, b.policy, b.source, RemountedAtBind(plan, i, b.target)))
      case None =>
        var m := Served(log, p);
        WithMode(m, m.Some? && RemountedAtBind(plan, 0, m.value.target))
  }

  /** A bind's target was remounted by its own step, by a later bind there, or as a left-over directory. */
  predicate RemountedAtBind(plan: Plan, from: nat, target: Path) {
    RemountedFrom(plan.binds, from, target) || RemountedFrom(plan.leftovers, 0, target)
  }

  lemma RemountedConcat(a: seq<Step>, b: seq<Step>, from: nat, target: Path)
    ensures from <= |a| ==>
      (RemountedFrom(a + b, from, target) <==> RemountedFrom(a, from, target) || RemountedFrom(b, 0, target))
    ensures RemountedFrom(a + b, |a| + from, target) <==> RemountedFrom(b, from, target)
  {
    var all := a + b;
    forall j | 0 <= j < |b|
      ensures all[|a| + j] == b[j]
    {
    }
    if from <= |a| && RemountedFrom(a, from, target) {
      var j :| from <= j < |a| && a[j].target == target && a[j].remounted;
      assert all[j] == a[j];
    }
    if RemountedFrom(b, 0, target) {
      var j :| 0 <= j < |b| && b[j].target == target && b[j].remounted;
      assert all[|a| + j] == b[j];
    }
    if RemountedFrom(b, from, target) {
      var j :| from <= j < |b| && b[j].target == target && b[j].remounted;
      assert all[|a| + j] == b[j];
    }
    if RemountedFrom(all, from, target) {
      var j :| from <= j < |all| && all[j].target == target && all[j].remounted;
      assert all[j] == if j < |a| then a[j] else b[j - |a|];
    }
    if RemountedFrom(all, |a| + from, target) {
      var j :| |a| + from <= j < |all| && all[j].target == target && all[j].remounted;
      assert all[j] == b[j - |a|];
    }
  }

  lemma NeverRemounted(steps: seq<Step>, from: nat, target: Path)
    requires forall s <- steps :: !s.remounted
    ensures !RemountedFrom(steps, from, target)
  {
  }

  /** Steps that only mount, put after others: they win where they cover and change nothing elsewhere. */
  lemma PlainStepsWin(log: Log, a: seq<Step>, b: seq<Step>, policy: Policy, p: Path)
    requires AllPlain(b, policy)
    ensures ServedBySteps(log, a + b, p) ==
      match LastCovering(b, p)
      case Some(i) => Some(Mount(b[i].target, policy, b[i].target, false))
      case None => ServedBySteps(log, a, p)
  {
    LastCoveringConcat(a, b, p);
    match LastCovering(b, p)
    case Some(i) =>
      assert b[i] in b;
      RemountedConcat(a, b, i, b[i].target);
      NeverRemounted(b, i, b[i].target);
    case None =>
      match LastCovering(a, p)
      case Some(i) =>
        RemountedConcat(a, b, i, a[i].target);
        NeverRemounted(b, 0, a[i].target);
      case None =>
        var m := Served(log, p);
        if m.Some? {
          RemountedConcat(a, b, 0, m.value.target);
          NeverRemounted(b, 0, m.value.target);
        }
  }

  lemma LeftoversOverBinds(log: Log, plan: Plan, p: Path)
    ensures ServedBySteps(log, plan.binds + plan.leftovers, p) == ByBase(log, plan, p)
  {
    var a, b := plan.binds, plan.leftovers;
    LastCoveringConcat(a, b, p);
    match LastCovering(b, p)
    case Some(i) => RemountedConcat(a, b, i, b[i].target);
    case None =>
      match LastCovering(a, p)
      case Some(i) => RemountedConcat(a, b, i, a[i].target);
      case None =>
        var m := Served(log, p);
        if m.Some? {
          RemountedConcat(a, b, 0, m.value.target);
        }
  }

  /**
    Precedence: after the plan every path is served as the class-priority lookup
    says, whatever the log before and whatever the kernel refused.
   */
  lemma Precedence(log: Log, plan: Plan, p: Path)
    requires AllPlain(plan.overlays, Overlay) && AllPlain(plan.writables, Writable)
    ensures Served(PlayAll(log, Steps(plan)), p) == ByClass(log, plan, p)
  {
    var base := plan.binds + plan.leftovers;
    var last := [Plain(plan.workingDir, WorkingDir)];
    ServedByLastStep(log, Steps(plan), p);
    PlainStepsWin(log, base + plan.overlays + plan.writables, last, WorkingDir, p);
    PlainStepsWin(log, base + plan.overlays, plan.writables, Writable, p);
    PlainStepsWin(log, base, plan.overlays, Overlay, p);
    LeftoversOverBinds(log, plan, p);
    assert last[..0] == [] && last[0] == Plain(plan.workingDir, WorkingDir);
  }
}
