/** What the plan made from an option set means for a path, in terms of the options. */
module PlanMeaning {
  import opened Text
  import opened Paths
  import opened SandboxOptions
  import opened Namespace
  import opened OverlayFallback
  import opened MountPlan
  import opened Mounting

  ghost predicate CoveredBy(paths: seq<Path>, p: Path) {
    exists d <- paths :: d <= p
  }

  ghost predicate WritableCovers(k: Kernel, s: Settings, p: Path) {
    exists w <- s.writables :: k.host(w) != Absent && w <= p
  }

  ghost predicate OverlaidAbove(k: Kernel, s: Settings, cuts: seq<Cut>, p: Path)
    requires |s.overlays| == |cuts|
  {
    exists x <- PiecesAll(k, s.overlays, cuts) :: x.overlaid && x.path <= p
  }

  lemma LastCoveringPlain(paths: seq<Path>, policy: Policy, p: Path)
    ensures LastCovering(PlainSteps(paths, policy), p).Some? <==> CoveredBy(paths, p)
    ensures AllPlain(PlainSteps(paths, policy), policy)
  {
    var steps := PlainSteps(paths, policy);
    if CoveredBy(paths, p) {
      var d :| d in paths && d <= p;
      var i :| 0 <= i < |paths| && paths[i] == d;
      assert steps[i].mounted && steps[i].target <= p;
    }
    if LastCovering(steps, p).Some? {
      assert paths[LastCovering(steps, p).value] in paths;
    }
  }

  lemma {:induction false} PresentMembers(k: Kernel, paths: seq<Path>)
    ensures forall p :: p in PresentOnHost(k, paths) <==> p in paths && k.host(p) != Absent
  {
    if |paths| > 0 {
      var init := paths[..|paths| - 1];
      PresentMembers(k, init);
      assert paths == init + [paths[|paths| - 1]];
    }
  }

  /** The plan is served by class: what `Precedence` says, for the plan of any option set. */
  lemma PlanServesByClass(k: Kernel, mustBe: Test, s: Settings, order: seq<Path>, a: Answers, log: Log, p: Path)
    requires FitAnswers(k, s, order, a)
    ensures
      var plan := PlanFor(k, mustBe, s, order, a);
      Served(PlayAll(log, Steps(plan)), p) == ByClass(log, plan, p)
  {
    LastCoveringPlain(PresentOnHost(k, s.writables), Writable, p);
    LastCoveringPlain(OverlaidPaths(PiecesAll(k, s.overlays, a.cuts)), Overlay, p);
    Precedence(log, PlanFor(k, mustBe, s, order, a), p);
  }

  /** A mount of this class on its own path, writable. */
  predicate PlainMount(m: Option<Mount>, policy: Policy) {
    m.Some? && m.value == Mount(m.value.target, policy, m.value.target, false)
  }

  /**
    Precedence, for every option set, every log before, every order of the left-over
    directories and every kernel: working directory, then writable entries, then
    overlays; the rest is decided among left-over directories and binds.
   */
  lemma {:induction false} PlanPrecedence(
      k: Kernel, mustBe: Test, s: Settings, order: seq<Path>, a: Answers, log: Log, p: Path)
    requires FitAnswers(k, s, order, a)
    ensures
      var plan := PlanFor(k, mustBe, s, order, a);
      var m := Served(PlayAll(log, Steps(plan)), p);
      if s.workingDir <= p then
        PlainMount(m, WorkingDir) && m.value.target == s.workingDir
      else if WritableCovers(k, s, p) then
        PlainMount(m, Writable) && m.value.target in s.writables
      else if OverlaidAbove(k, s, a.cuts, p) then
        PlainMount(m, Overlay) && Piece(m.value.target, true) in PiecesAll(k, s.overlays, a.cuts)
      else
        m == ByBase(log, plan, p)
  {
    var plan := PlanFor(k, mustBe, s, order, a);
    PlanServesByClass(k, mustBe, s, order, a, log, p);
    WritableServed(k, s, plan.writables, p);
    OverlayServed(k, s, a.cuts, plan.overlays, p);
  }

  lemma WritableServed(k: Kernel, s: Settings, steps: seq<Step>, p: Path)
    requires steps == PlainSteps(PresentOnHost(k, s.writables), Writable)
    ensures LastCovering(steps, p).Some? <==> WritableCovers(k, s, p)
    ensures forall step <- steps :: step.target in s.writables
  {
    PresentMembers(k, s.writables);
    LastCoveringPlain(PresentOnHost(k, s.writables), Writable, p);
    WritableCoversIff(k, s, p);
    forall step | step in steps
      ensures step.target in s.writables
    {
      assert step.target in PresentOnHost(k, s.writables);
    }
  }

  lemma OverlayServed(k: Kernel, s: Settings, cuts: seq<Cut>, steps: seq<Step>, p: Path)
    requires |s.overlays| == |cuts|
    requires steps == PlainSteps(OverlaidPaths(PiecesAll(k, s.overlays, cuts)), Overlay)
    ensures LastCovering(steps, p).Some? <==> OverlaidAbove(k, s, cuts, p)
    ensures forall step <- steps :: Piece(step.target, true) in PiecesAll(k, s.overlays, cuts)
  {
    var overlaid := OverlaidPaths(PiecesAll(k, s.overlays, cuts));
    PiecesSplitByKind(PiecesAll(k, s.overlays, cuts));
    LastCoveringPlain(overlaid, Overlay, p);
    OverlaidAboveIff(k, s, cuts, p);
    forall step | step in steps
      ensures Piece(step.target, true) in PiecesAll(k, s.overlays, cuts)
    {
      assert step.target in overlaid;
    }
  }

  lemma WritableCoversIff(k: Kernel, s: Settings, p: Path)
    ensures WritableCovers(k, s, p) <==> CoveredBy(PresentOnHost(k, s.writables), p)
  {
    PresentMembers(k, s.writables);
  }

  lemma OverlaidAboveIff(k: Kernel, s: Settings, cuts: seq<Cut>, p: Path)
    requires |s.overlays| == |cuts|
    ensures OverlaidAbove(k, s, cuts, p) <==> CoveredBy(OverlaidPaths(PiecesAll(k, s.overlays, cuts)), p)
  {
    PiecesSplitByKind(PiecesAll(k, s.overlays, cuts));
    if CoveredBy(OverlaidPaths(PiecesAll(k, s.overlays, cuts)), p) {
      var d :| d in OverlaidPaths(PiecesAll(k, s.overlays, cuts)) && d <= p;
      assert Piece(d, true) in PiecesAll(k, s.overlays, cuts);
    }
    if OverlaidAbove(k, s, cuts, p) {
      var x :| x in PiecesAll(k, s.overlays, cuts) && x.overlaid && x.path <= p;
      assert x == Piece(x.path, true);
    }
  }

  /** The directories remounted read-only: where they serve, and in which mode. */
  lemma BaseMode(k: Kernel, mustBe: Test, s: Settings, order: seq<Path>, a: Answers, log: Log, p: Path)
    requires FitAnswers(k, s, order, a)
    ensures
      var plan := PlanFor(k, mustBe, s, order, a);
      var m := ByBase(log, plan, p);
      match LastCovering(plan.leftovers, p)
      case Some(i) =>
        var l := Statted(k, order)[i];
        m == Some(Mount(l, Leftover, l, mustBe(l, l)))
      case None =>
        match LastCovering(plan.binds, p)
        case Some(i) => m == Some(Mount(s.targets[i], Policy.Bind, s.sources[i], BindReadOnly(k, mustBe, s, order, i)))
        case None => Served(log, p) == None ==> m == None
  {
    var plan := PlanFor(k, mustBe, s, order, a);
    match LastCovering(plan.leftovers, p)
    case Some(i) => assert plan.leftovers[i].target == Statted(k, order)[i];
    case None =>
      match LastCovering(plan.binds, p)
      case Some(i) => BindModeIff(k, mustBe, s, order, a, i);
      case None =>
  }

  /** The bind's own step, a later bind on the same target, or a left-over directory there remounts it. */
  ghost predicate BindReadOnly(k: Kernel, mustBe: Test, s: Settings, order: seq<Path>, i: nat)
    requires i < |s.sources| <= |s.targets|
  {
    var t := s.targets[i];
    || (exists j :: i <= j < |s.sources| && s.targets[j] == t && mustBe(s.sources[j], t))
    || (t in Statted(k, order) && mustBe(t, t))
  }

  lemma BindModeIff(k: Kernel, mustBe: Test, s: Settings, order: seq<Path>, a: Answers, i: nat)
    requires FitAnswers(k, s, order, a) && i < |s.sources|
    ensures RemountedAtBind(PlanFor(k, mustBe, s, order, a), i, s.targets[i]) <==> BindReadOnly(k, mustBe, s, order, i)
  {
    var plan, t := PlanFor(k, mustBe, s, order, a), s.targets[i];
    if RemountedFrom(plan.binds, i, t) {
      var j :| i <= j < |plan.binds| && plan.binds[j].target == t && plan.binds[j].remounted;
      assert s.targets[j] == t && mustBe(s.sources[j], t);
    }
    if j :| i <= j < |s.sources| && s.targets[j] == t && mustBe(s.sources[j], t) {
      assert plan.binds[j].target == t && plan.binds[j].remounted;
    }
    if RemountedFrom(plan.leftovers, 0, t) {
      var j :| 0 <= j < |plan.leftovers| && plan.leftovers[j].target == t && plan.leftovers[j].remounted;
      assert Statted(k, order)[j] == t;
    }
    if t in Statted(k, order) && mustBe(t, t) {
      var j :| 0 <= j < |Statted(k, order)| && Statted(k, order)[j] == t;
      assert plan.leftovers[j].target == t && plan.leftovers[j].remounted;
    }
  }

  /** Under the working directory, a writable entry or an overlay a path shows its own host path, writable. */
  lemma OwnPathWritable(k: Kernel, mustBe: Test, s: Settings, order: seq<Path>, a: Answers, log: Log, p: Path)
    requires FitAnswers(k, s, order, a)
    requires s.workingDir <= p || WritableCovers(k, s, p) || OverlaidAbove(k, s, a.cuts, p)
    ensures
      var final := PlayAll(log, Steps(PlanFor(k, mustBe, s, order, a)));
      HostPath(final, p) == Some(p) && !Served(final, p).value.readOnly && Served(final, p).value.policy != Earlier
  {
    PlanPrecedence(k, mustBe, s, order, a, log, p);
    var m := Served(PlayAll(log, Steps(PlanFor(k, mustBe, s, order, a))), p).value;
    assert m.target + p[|m.target|..] == p;
  }

  /** A bind list entry that mounts a path on itself, as does every other one on that path. */
  ghost predicate OwnBind(s: Settings, b: Path) {
    b in s.targets && forall j :: 0 <= j < |s.sources| && j < |s.targets| && s.targets[j] == b ==> s.sources[j] == b
  }

  /**
    A path requested for reading is mounted in the plan of an accepted configuration, and
    read-only if mounted just there, unless its name says otherwise ("proc", "tmp",
    "dev.." or a tmpfs directory), its status cannot be read, or something above it is
    open for writing.
   */
  lemma {:induction false} BindIsReadOnly(
      opt: Options, privileged: bool, k: Kernel, root: Path, order: seq<Path>, a: Answers, log: Log, b: Path)
    requires opt.Accepted(privileged) && |opt.bindMountSources| == |opt.bindMountTargets|
    requires CanonicalSettings(opt.PlanSettings()) && Canonical(b) && Canonical(root + b) && root != ROOT && b != ROOT
    requires OwnBind(opt.PlanSettings(), b) && k.statvfs(b)
    requires !WritablePath(opt.PlanSettings().(writables := []), b) && !WritablePath(opt.PlanSettings(), root + b)
    requires FitAnswers(k, opt.PlanSettings(), order, a) && AcceptsBinds(k)
    requires !(opt.workingDir <= b) && !OverlaidAbove(k, opt.PlanSettings(), a.cuts, b)
    requires forall w <- opt.writableFiles :: !(w < b)
    ensures
      var plan := PlanFor(k, TestFor(k, root, opt.PlanSettings()), opt.PlanSettings(), order, a);
      var m := Served(PlayAll(log, Steps(plan)), b);
      m.Some? && m.value.policy in {Policy.Bind, Leftover} && (m.value.target == b ==> m.value.readOnly)
  {
    var s := opt.PlanSettings();
    assert b !in s.writables by {
      var i :| 0 <= i < |s.targets| && s.targets[i] == b;
      assert s.sources[i] in s.sources;
    }
    forall w | w in s.writables
      ensures !(w <= b)
    {
      assert w <= b && |w| == |b| ==> w == b;
    }
    TestSaysReadOnly(k, root, s, b);
    ServedReadOnly(k, TestFor(k, root, s), s, order, a, log, b);
  }

  lemma TestSaysReadOnly(k: Kernel, root: Path, s: Settings, b: Path)
    requires CanonicalSettings(s) && Canonical(b) && Canonical(root + b) && root != ROOT && b != ROOT
    requires b !in s.writables && !WritablePath(s.(writables := []), b) && !WritablePath(s, root + b)
    ensures TestFor(k, root, s)(b, b) <==> k.statvfs(b)
  {
    MustBeReadOnlyIff(k, root, s, b, b);
  }

  lemma {:induction false} ServedReadOnly(
      k: Kernel, mustBe: Test, s: Settings, order: seq<Path>, a: Answers, log: Log, b: Path)
    requires FitAnswers(k, s, order, a) && AcceptsBinds(k)
    requires |s.sources| == |s.targets| && OwnBind(s, b) && mustBe(b, b)
    requires !(s.workingDir <= b) && !OverlaidAbove(k, s, a.cuts, b) && !WritableCovers(k, s, b)
    ensures
      var m := Served(PlayAll(log, Steps(PlanFor(k, mustBe, s, order, a))), b);
      m.Some? && m.value.policy in {Policy.Bind, Leftover} && (m.value.target == b ==> m.value.readOnly)
  {
    var plan := PlanFor(k, mustBe, s, order, a);
    PlanPrecedence(k, mustBe, s, order, a, log, b);
    BaseMode(k, mustBe, s, order, a, log, b);
    var i :| 0 <= i < |s.targets| && s.targets[i] == b;
    assert a.binds[i] in a.binds;
    assert plan.binds[i].mounted && plan.binds[i].target <= b;
  }

  /** Of the request's one piece above the path: the fallback kept it. */
  ghost predicate KeptAbove(k: Kernel, d: Path, cut: Cut, p: Path) {
    exists x <- Pieces(k, d, cut) :: !x.overlaid && x.path <= p
  }

  /** One request above a path overlaid above it, kept above it, or missed it; never two of these. */
  lemma KeptOrOverlaid(k: Kernel, d: Path, cut: Cut, p: Path)
    requires ListingValid(k) && Fits(k, d, 0, cut) && d <= p
    ensures (exists x <- Pieces(k, d, cut) :: x.overlaid && x.path <= p)
       <==> !KeptAbove(k, d, cut, p) && !Missed(k, d, cut, p)
    ensures !(KeptAbove(k, d, cut, p) && Missed(k, d, cut, p))
  {
    var pieces := Pieces(k, d, cut);
    CoveredExactlyOnce(k, d, 0, cut, p);
    if Covering(pieces, p) > 0 {
      SomeCovers(pieces, p);
    }
    forall x | x in pieces && x.path <= p
      ensures Covering(pieces, p) > 0
      ensures forall y <- pieces :: y.path <= p ==> y == x
    {
      OneCovers(pieces, x, p);
      forall y | y in pieces && y.path <= p
        ensures y == x
      {
        if y != x {
          TwoCover(pieces, x, y, p);
        }
      }
    }
  }

  lemma {:induction false} SomeCovers(pieces: seq<Piece>, p: Path)
    requires Covering(pieces, p) > 0
    ensures exists x <- pieces :: x.path <= p
  {
    if pieces[0].path <= p {
      assert pieces[0] in pieces;
    } else {
      SomeCovers(pieces[1..], p);
      var x :| x in pieces[1..] && x.path <= p;
      assert x in pieces;
    }
  }

  /**
    Nothing is overlaid above a path exactly when every request above it kept what is
    above the path or missed it, for any list of requests, nested ones included.
   */
  lemma NotOverlaidIff(k: Kernel, s: Settings, cuts: seq<Cut>, p: Path)
    requires ListingValid(k) && FitAll(k, s.overlays, 0, cuts)
    ensures !OverlaidAbove(k, s, cuts, p) <==> NoneOverlaid(k, s, cuts, p)
  {
    PiecesAllMembers(k, s.overlays, cuts);
    forall j | 0 <= j < |cuts| && s.overlays[j] <= p
      ensures !KeptAbove(k, s.overlays[j], cuts[j], p) && !Missed(k, s.overlays[j], cuts[j], p) ==>
        OverlaidAbove(k, s, cuts, p)
    {
      KeptOrOverlaid(k, s.overlays[j], cuts[j], p);
    }
    if OverlaidAbove(k, s, cuts, p) {
      var x :| x in PiecesAll(k, s.overlays, cuts) && x.overlaid && x.path <= p;
      var j :| 0 <= j < |cuts| && x in Pieces(k, s.overlays[j], cuts[j]);
      PiecesLieBelow(k, s.overlays[j], 0, cuts[j]);
      assert s.overlays[j] <= x.path <= p;
      KeptOrOverlaid(k, s.overlays[j], cuts[j], p);
    }
  }

  ghost predicate NoneOverlaid(k: Kernel, s: Settings, cuts: seq<Cut>, p: Path)
    requires |s.overlays| == |cuts|
  {
    forall j :: 0 <= j < |cuts| && s.overlays[j] <= p ==>
      KeptAbove(k, s.overlays[j], cuts[j], p) || Missed(k, s.overlays[j], cuts[j], p)
  }

  /**
    Below directories the fallback kept, or missed, a path is not served by an overlay,
    and in this plan not by a mount of a kept directory either: the left-over
    directories were mounted before, so the base decides. Elsewhere an overlay serves.
   */
  lemma KeptPartFallsToBase(k: Kernel, mustBe: Test, s: Settings, order: seq<Path>, a: Answers, log: Log, p: Path)
    requires FitAnswers(k, s, order, a) && ListingValid(k)
    requires !(s.workingDir <= p) && !WritableCovers(k, s, p)
    ensures
      var plan := PlanFor(k, mustBe, s, order, a);
      var m := Served(PlayAll(log, Steps(plan)), p);
      if NoneOverlaid(k, s, a.cuts, p) then m == ByBase(log, plan, p) else PlainMount(m, Overlay)
  {
    NotOverlaidIff(k, s, a.cuts, p);
    PlanPrecedence(k, mustBe, s, order, a, log, p);
  }

  lemma {:induction false} TwoCover(pieces: seq<Piece>, x: Piece, y: Piece, p: Path)
    requires x in pieces && y in pieces && x != y && x.path <= p && y.path <= p
    ensures Covering(pieces, p) >= 2
  {
    if pieces[0] == x {
      OneCovers(pieces[1..], y, p);
    } else if pieces[0] == y {
      OneCovers(pieces[1..], x, p);
    } else {
      TwoCover(pieces[1..], x, y, p);
    }
  }

  lemma {:induction false} OneCovers(pieces: seq<Piece>, x: Piece, p: Path)
    requires x in pieces && x.path <= p
    ensures Covering(pieces, p) >= 1
  {
    if pieces[0] != x {
      OneCovers(pieces[1..], x, p);
    }
  }
}
