/**
  The shape of a sandbox built from one host: what it shows is of the kind the host
  has on the same path, but for what the private /tmp shows otherwise. On a host where
  the requested paths are in order, every mount the options ask for keeps to it.
 */
module HostShape {
  import opened Paths
  import opened SandboxOptions
  import opened Namespace
  import opened OverlayFallback
  import opened MountPlan
  import opened Mounting

  /** What the private /tmp has on a path of /tmp. */
  function InPrivateTmp(host: Tree, p: Path): Node
    requires TMP <= p
  {
    host(SBX_TMP + p[|TMP|..])
  }

  /** The private /tmp has nothing on the path, or the same kind of node. */
  predicate SameInTmp(host: Tree, p: Path) {
    TMP < p ==> InPrivateTmp(host, p) == Absent || InPrivateTmp(host, p) == host(p)
  }

  function ShapeOf(host: Tree): Tree {
    p => if SameInTmp(host, p) then host(p) else Absent
  }

  /** The path and what is above it is not another kind of node in the private /tmp; outside /tmp it never is. */
  ghost predicate Settled(host: Tree, p: Path) {
    host(p) != Absent && forall a: Path :: a <= p ==> SameInTmp(host, a)
  }

  ghost predicate AllSettled(host: Tree, paths: seq<Path>) {
    forall p <- paths :: Settled(host, p)
  }

  ghost predicate SettledBelow(host: Tree, d: Path) {
    Settled(host, d) && forall a: Path :: d <= a ==> SameInTmp(host, a)
  }

  /** Outside /tmp, existing is enough. */
  lemma OutsideTmpIsSettled(host: Tree, p: Path)
    requires host(p) != Absent && !(TMP < p)
    ensures Settled(host, p)
  {
    forall a: Path | a <= p
      ensures SameInTmp(host, a)
    {
      assert TMP < a ==> TMP < p;
    }
  }

  lemma SettledFits(host: Tree, p: Path)
    requires ParentClosed(host) && Settled(host, p)
    ensures TargetFits(ShapeOf(host), p, host(p))
  {
    forall a: Path | a < p
      ensures ShapeOf(host)(a) == Directory
    {
      AncestorsExist(host, a, p);
    }
  }

  lemma OwnPathFits(host: Tree, p: Path)
    requires ParentClosed(host) && Settled(host, p)
    ensures StepFits(host, ShapeOf(host), p, p)
  {
    SettledFits(host, p);
    forall q: Path | p <= q
      ensures Mounted(ShapeOf(host), p, host, p)(q) == host(q)
    {
      assert p + q[|p|..] == q;
    }
  }

  lemma TmpPairFits(host: Tree)
    requires ParentClosed(host) && host(SBX_TMP) == Directory
    ensures StepFits(host, ShapeOf(host), SBX_TMP, TMP)
  {
    AncestorsExist(host, TMP, SBX_TMP);
    OutsideTmpIsSettled(host, TMP);
    SettledFits(host, TMP);
    forall q: Path | TMP <= q && ShapeOf(host)(q) != Absent
      ensures Mounted(ShapeOf(host), TMP, host, SBX_TMP)(q) in {Absent, ShapeOf(host)(q)}
    {
      if q == TMP {
        assert SBX_TMP + TMP[|TMP|..] == SBX_TMP;
      } else {
        assert TMP < q && SameInTmp(host, q);
      }
    }
  }

  /** Listings name directories. */
  ghost predicate ListsDirectories(k: Kernel) {
    ListingValid(k) && forall d: Path :: k.listing(d).Some? ==> forall c <- k.listing(d).value :: k.host(c) == Directory
  }

  ghost predicate PairReady(host: Tree, source: Path, target: Path) {
    (source == SBX_TMP && target == TMP) || (source == target && Settled(host, source))
  }

  /**
    The host has what the options ask for: the private /tmp, bind sources, overlay
    directories and the working directory. Bind pairs are the one on /tmp, or mount a
    path on itself.
   */
  ghost predicate Ready(k: Kernel, s: Settings) {
    && k.host(SBX_TMP) == Directory && ListsDirectories(k)
    && (forall i :: 0 <= i < |s.sources| && i < |s.targets| ==>
          PairReady(k.host, s.sources[i], s.targets[i]))
    && (forall d <- s.overlays :: k.host(d) == Directory && SettledBelow(k.host, d))
    && (forall w <- s.writables :: k.host(w) != Absent ==> Settled(k.host, w))
    && k.host(s.workingDir) == Directory && Settled(k.host, s.workingDir)
  }

  lemma {:induction false} OverlayFits(k: Kernel, d: Path, depth: nat)
    requires ParentClosed(k.host) && ListsDirectories(k) && k.host(d) == Directory && SettledBelow(k.host, d)
    ensures RequestFits(k, ShapeOf(k.host), d, depth)
    decreases if depth > OVERLAY_DEPTH_THRESHOLD then 0 else OVERLAY_DEPTH_THRESHOLD - depth
  {
    OwnPathFits(k.host, d);
    if depth < OVERLAY_DEPTH_THRESHOLD && k.listing(d).Some? {
      var dirs := k.listing(d).value;
      assert ChildrenOf(d, dirs);
      forall i | 0 <= i < |dirs|
        ensures RequestFits(k, ShapeOf(k.host), dirs[i], depth + 1)
      {
        assert dirs[i] in dirs && d <= dirs[i];
        forall a: Path | a <= dirs[i] || dirs[i] <= a
          ensures SameInTmp(k.host, a)
        {
          if a <= dirs[i] {
            CoversAreComparable(a, d, dirs[i]);
          }
        }
        OverlayFits(k, dirs[i], depth + 1);
      }
    }
  }

  /** On a host that is ready, every mount of the plan keeps to the host's shape, on files as on directories. */
  lemma {:induction false} ReadyPlanFits(k: Kernel, s: Settings, order: seq<Path>)
    requires ParentClosed(k.host) && Ready(k, s) && AllSettled(k.host, order)
    ensures PlanFits(k, ShapeOf(k.host), s, order)
  {
    TmpPairFits(k.host);
    forall p: Path | Settled(k.host, p)
      ensures StepFits(k.host, ShapeOf(k.host), p, p)
    {
      OwnPathFits(k.host, p);
    }
    forall i | 0 <= i < |s.overlays|
      ensures RequestFits(k, ShapeOf(k.host), s.overlays[i], 0)
    {
      assert s.overlays[i] in s.overlays;
      OverlayFits(k, s.overlays[i], 0);
    }
  }

  lemma {:induction false} PiecesAreDirectories(k: Kernel, d: Path, depth: nat, cut: Cut)
    requires ListsDirectories(k) && k.host(d) == Directory && Fits(k, d, depth, cut)
    ensures forall x <- Pieces(k, d, cut) :: d <= x.path && k.host(x.path) == Directory
    decreases cut, 0
  {
    if cut.Split? {
      assert ChildrenOf(d, k.listing(d).value);
      AllPiecesAreDirectories(k, k.listing(d).value, depth + 1, cut.children);
    }
  }

  lemma {:induction false} AllPiecesAreDirectories(k: Kernel, dirs: seq<Path>, depth: nat, cuts: seq<Cut>)
    requires ListsDirectories(k) && FitAll(k, dirs, depth, cuts) && forall d <- dirs :: k.host(d) == Directory
    ensures forall x <- PiecesAll(k, dirs, cuts) :: k.host(x.path) == Directory && exists d <- dirs :: d <= x.path
    decreases cuts
  {
    if |cuts| > 0 {
      assert dirs[0] in dirs && forall d <- dirs[1..] :: d in dirs;
      PiecesAreDirectories(k, dirs[0], depth, cuts[0]);
      AllPiecesAreDirectories(k, dirs[1..], depth, cuts[1..]);
    }
  }

  /** What the fallback keeps of an overlay request can be mounted read-only on its own path. */
  lemma {:induction false} KeptIsSettled(k: Kernel, s: Settings, cuts: seq<Cut>)
    requires Ready(k, s) && FitAll(k, s.overlays, 0, cuts)
    ensures forall p <- KeptSet(PiecesAll(k, s.overlays, cuts)) :: Settled(k.host, p)
  {
    PiecesSplitByKind(PiecesAll(k, s.overlays, cuts));
    AllPiecesAreDirectories(k, s.overlays, 0, cuts);
    forall p | p in KeptSet(PiecesAll(k, s.overlays, cuts))
      ensures Settled(k.host, p)
    {
      assert Piece(p, false) in PiecesAll(k, s.overlays, cuts);
      var d :| d in s.overlays && d <= p;
      forall a: Path | a <= p
        ensures SameInTmp(k.host, a)
      {
        CoversAreComparable(a, d, p);
      }
    }
  }

  /**
    Nothing but an invalid overlay can go wrong, the tree so far and the options are
    in keeping with the host, and home is a directory there.
   */
  ghost predicate ComesUp(k: Kernel, t: Tree, s: Settings, home: Path) {
    && Fine(k, t, ShapeOf(k.host)) && Ready(k, s)
    && k.host(home) == Directory && Settled(k.host, home)
  }

  /** `MountAllMounts`, in terms of the host. */
  method MountOnHost(ns: Sandbox, opt: Options, order: seq<Path>, ghost home: Path)
    returns (out: Outcome, ghost answers: Answers)
    requires ns.Valid() && |opt.bindMountSources| <= |opt.bindMountTargets|
    modifies ns`log, ns`tree, ns`calls, ns`readOnlyPaths
    ensures ns.Valid()
    ensures out == Done ==>
      var k, s := ns.kernel, opt.PlanSettings();
      && FitAnswers(k, s, order, answers)
      && ns.log == PlayAll(old(ns.log), Steps(PlanFor(k, TestFor(k, ns.root, s), s, order, answers)))
    ensures ComesUp(ns.kernel, old(ns.tree), opt.PlanSettings(), home) && AllSettled(ns.kernel.host, order) ==>
      out == Done && ComesUp(ns.kernel, ns.tree, opt.PlanSettings(), home)
  {
    if ComesUp(ns.kernel, ns.tree, opt.PlanSettings(), home) && AllSettled(ns.kernel.host, order) {
      ReadyPlanFits(ns.kernel, opt.PlanSettings(), order);
    }
    ghost var end;
    out, answers, end := MountAllMounts(ns, opt, order, ShapeOf(ns.kernel.host));
  }

  /** The home directory is made in a tree with no files but those of a tree that keeps to the shape, and the host's. */
  lemma HomeIsMade(k: Kernel, planned: Tree, t: Tree, calls: nat, s: Settings, home: Path)
    requires ParentClosed(k.host) && ParentClosed(t) && ComesUp(k, planned, s, home)
    requires forall p :: t(p) == File ==> planned(p) == File || k.host(p) == File
    ensures CreationOf(k, t, calls, home, true) == Made
  {
    SettledFits(k.host, home);
    forall a: Path | a <= home
      ensures t(a) != File
    {
      assert ShapeOf(k.host)(a) == Directory by {
        assert a == home || a < home;
      }
    }
    CooperativeCreation(k, t, calls, home, true);
    BelowFileIff(t, home);
  }

  /** The home directory is made last. */
  method MakeHome(ns: Sandbox, home: Path, ghost s: Settings, ghost planned: Tree) returns (out: Outcome)
    requires ns.Valid()
    requires forall p :: ns.tree(p) == File ==> planned(p) == File || ns.kernel.host(p) == File
    modifies ns`tree, ns`calls
    ensures ns.Valid() && (out == Done ==> ns.tree(home) == Directory)
    ensures ComesUp(ns.kernel, planned, s, home) ==> out == Done
  {
    if ComesUp(ns.kernel, planned, s, home) {
      HomeIsMade(ns.kernel, planned, ns.tree, ns.calls, s, home);
    }
    var made := ns.CreateTarget(home, true);
    out := if made == Made then Done else Dead;
  }
}
