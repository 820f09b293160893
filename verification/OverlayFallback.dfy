/**
  The overlay mounts and their fallback: a directory the kernel refuses with
  EINVAL is replaced by its sub-directories, two levels down at most, and what is
  refused there is left to be mounted read-only.
 */
module OverlayFallback {
  import opened Text
  import opened Paths
  import opened Namespace

  const OVERLAY_MAX_DEPTH: nat := 5
  const OVERLAY_DEPTH_THRESHOLD: nat := 2

  /** A listing names direct sub-directories, each once. */
  ghost predicate ListingValid(k: Kernel) {
    forall d: Path :: k.listing(d).Some? ==> ChildrenOf(d, k.listing(d).value)
  }

  ghost predicate ChildrenOf(d: Path, dirs: seq<Path>) {
    && (forall i :: 0 <= i < |dirs| ==> d <= dirs[i] && |dirs[i]| == |d| + 1)
    && (forall i, j :: 0 <= i < j < |dirs| ==> dirs[i] != dirs[j])
  }

  /** What became of a requested directory. */
  datatype Cut =
    | Overlaid
    | KeptReadOnly
    | Unreadable               // its listing threw, and the caller's loop went on
    | Split(children: seq<Cut>)

  datatype Piece = Piece(path: Path, overlaid: bool)

  ghost predicate Fits(k: Kernel, d: Path, depth: nat, cut: Cut)
    decreases cut
  {
    match cut
    case Overlaid => true
    case KeptReadOnly => depth >= OVERLAY_DEPTH_THRESHOLD
    case Unreadable => depth < OVERLAY_DEPTH_THRESHOLD && k.listing(d) == None
    case Split(cuts) =>
      && depth < OVERLAY_DEPTH_THRESHOLD
      && k.listing(d).Some?
      && FitAll(k, k.listing(d).value, depth + 1, cuts)
  }

  ghost predicate FitAll(k: Kernel, dirs: seq<Path>, depth: nat, cuts: seq<Cut>)
    decreases cuts
  {
    |dirs| == |cuts| && forall i :: 0 <= i < |cuts| ==> Fits(k, dirs[i], depth, cuts[i])
  }

  /** The directories mounted or kept, left to right. */
  ghost function Pieces(k: Kernel, d: Path, cut: Cut): seq<Piece>
    decreases cut
  {
    match cut
    case Overlaid => [Piece(d, true)]
    case KeptReadOnly => [Piece(d, false)]
    case Unreadable => []
    case Split(cuts) =>
      if k.listing(d).Some? && |k.listing(d).value| == |cuts| then PiecesAll(k, k.listing(d).value, cuts) else []
  }

  ghost function PiecesAll(k: Kernel, dirs: seq<Path>, cuts: seq<Cut>): seq<Piece>
    requires |dirs| == |cuts|
    decreases cuts
  {
    if |cuts| == 0 then [] else Pieces(k, dirs[0], cuts[0]) + PiecesAll(k, dirs[1..], cuts[1..])
  }

  lemma {:induction false} PiecesAllSnoc(k: Kernel, dirs: seq<Path>, cuts: seq<Cut>, d: Path, cut: Cut)
    requires |dirs| == |cuts|
    ensures PiecesAll(k, dirs + [d], cuts + [cut]) == PiecesAll(k, dirs, cuts) + Pieces(k, d, cut)
    decreases |cuts|
  {
    if |cuts| == 0 {
      assert dirs + [d] == [d] && cuts + [cut] == [cut] && [d][1..] == [] && [cut][1..] == [];
      assert PiecesAll(k, [d], [cut]) == Pieces(k, d, cut) + PiecesAll(k, [], []);
    } else {
      assert (dirs + [d])[1..] == dirs[1..] + [d] && (cuts + [cut])[1..] == cuts[1..] + [cut];
      PiecesAllSnoc(k, dirs[1..], cuts[1..], d, cut);
    }
  }

  ghost function OverlaidPaths(pieces: seq<Piece>): seq<Path> {
    if |pieces| == 0 then []
    else (if pieces[0].overlaid then [pieces[0].path] else []) + OverlaidPaths(pieces[1..])
  }

  ghost function OverlayLog(pieces: seq<Piece>): Log {
    PlainMounts(OverlaidPaths(pieces), Overlay)
  }

  ghost function KeptSet(pieces: seq<Piece>): set<Path> {
    if |pieces| == 0 then {}
    else (if pieces[0].overlaid then {} else {pieces[0].path}) + KeptSet(pieces[1..])
  }

  lemma {:induction false} PiecesConcat(a: seq<Piece>, b: seq<Piece>)
    ensures OverlaidPaths(a + b) == OverlaidPaths(a) + OverlaidPaths(b)
    ensures KeptSet(a + b) == KeptSet(a) + KeptSet(b)
  {
    if |a| == 0 {
      assert a + b == b;
    } else {
      assert (a + b)[1..] == a[1..] + b;
      PiecesConcat(a[1..], b);
    }
  }

  /** The first `n` directories have been dealt with. */
  ghost predicate Progress(k: Kernel, dirs: seq<Path>, depth: nat, n: nat, cuts: seq<Cut>, pieces: seq<Piece>) {
    && n <= |dirs|
    && FitAll(k, dirs[..n], depth, cuts)
    && pieces == PiecesAll(k, dirs[..n], cuts)
  }

  lemma OneMore(
      k: Kernel, dirs: seq<Path>, depth: nat, n: nat, cuts: seq<Cut>, pieces: seq<Piece>, cut: Cut, log: Log)
    requires n < |dirs| && Progress(k, dirs, depth, n, cuts, pieces) && Fits(k, dirs[n], depth, cut)
    ensures
      var piece := Pieces(k, dirs[n], cut);
      && Progress(k, dirs, depth, n + 1, cuts + [cut], pieces + piece)
      && log + OverlayLog(pieces + piece) == log + OverlayLog(pieces) + OverlayLog(piece)
      && KeptSet(pieces + piece) == KeptSet(pieces) + KeptSet(piece)
  {
    assert dirs[..n + 1] == dirs[..n] + [dirs[n]];
    PiecesAllSnoc(k, dirs[..n], cuts, dirs[n], cut);
    PiecesConcat(pieces, Pieces(k, dirs[n], cut));
  }

  lemma {:induction false} PiecesSplitByKind(pieces: seq<Piece>)
    ensures forall p :: p in OverlaidPaths(pieces) <==> Piece(p, true) in pieces
    ensures forall p :: p in KeptSet(pieces) <==> Piece(p, false) in pieces
  {
    if |pieces| > 0 {
      PiecesSplitByKind(pieces[1..]);
      assert pieces == [pieces[0]] + pieces[1..];
    }
  }

  lemma {:induction false} PiecesAllMembers(k: Kernel, dirs: seq<Path>, cuts: seq<Cut>)
    requires |dirs| == |cuts|
    ensures forall x :: x in PiecesAll(k, dirs, cuts) <==>
              exists j :: 0 <= j < |cuts| && x in Pieces(k, dirs[j], cuts[j])
    decreases |cuts|
  {
    if |cuts| > 0 {
      PiecesAllMembers(k, dirs[1..], cuts[1..]);
      forall x | x in PiecesAll(k, dirs[1..], cuts[1..])
        ensures exists j :: 0 <= j < |cuts| && x in Pieces(k, dirs[j], cuts[j])
      {
        var i :| 0 <= i < |cuts[1..]| && x in Pieces(k, dirs[1..][i], cuts[1..][i]);
        assert x in Pieces(k, dirs[i + 1], cuts[i + 1]);
      }
      forall x, j | 0 < j < |cuts| && x in Pieces(k, dirs[j], cuts[j])
        ensures x in PiecesAll(k, dirs[1..], cuts[1..])
      {
        assert dirs[1..][j - 1] == dirs[j] && cuts[1..][j - 1] == cuts[j];
      }
    }
  }

  // ----- the two mutually recursive functions -----

  function DepthLeft(depth: nat): nat {
    if depth > OVERLAY_MAX_DEPTH then 0 else OVERLAY_MAX_DEPTH + 1 - depth
  }

  lemma OnePiece(p: Path)
    ensures OverlayLog([Piece(p, true)]) == [Mount(p, Overlay, p, false)] && KeptSet([Piece(p, true)]) == {}
    ensures OverlayLog([Piece(p, false)]) == [] && KeptSet([Piece(p, false)]) == {p}
  {
    assert [Piece(p, true)][1..] == [] && [Piece(p, false)][1..] == [];
    assert OverlaidPaths([Piece(p, true)]) == [p] + OverlaidPaths([]);
  }

  /** What the overlay mount of a request returns, once its target was made or not. */
  function FirstAnswer(k: Kernel, t: Tree, calls: nat, lower: Path): Errno {
    var answer := k.overlayAnswer(calls + Asked(k, t, lower) + 1);
    var there := CreationOf(k, t, calls, lower, true) == Made || t(lower) == Directory;
    if answer == Ok && !(k.host(lower) == Directory && there) then ENOENT else answer
  }

  /** What ends the process at a request: no target, or an answer other than success and EINVAL. */
  predicate RequestDies(k: Kernel, t: Tree, calls: nat, lower: Path, depth: nat) {
    var answer := FirstAnswer(k, t, calls, lower);
    || CreationOf(k, t, calls, lower, true) == Died
    || (answer != Ok && answer != EINVAL)
    || (answer == EINVAL && depth < OVERLAY_DEPTH_THRESHOLD && k.host(lower) != Directory)
  }

  /** How a request that does not end the process is cut: the fallback takes over on EINVAL alone. */
  ghost predicate Answered(k: Kernel, t: Tree, calls: nat, lower: Path, depth: nat, cut: Cut) {
    if FirstAnswer(k, t, calls, lower) == Ok then cut == Overlaid
    else if depth >= OVERLAY_DEPTH_THRESHOLD then cut == KeptReadOnly
    else if k.listing(lower) == None then cut == Unreadable
    else cut.Split?
  }

  /** A directory when its overlay mount is tried. */
  datatype Attempt = Attempt(path: Path, depth: nat, tree: Tree, calls: nat)

  /** The attempt is at one of the directories, or at one the fallback goes on to from there. */
  ghost predicate AttemptOf(k: Kernel, dirs: seq<Path>, depth: nat, attempt: Attempt)
    decreases if depth > OVERLAY_DEPTH_THRESHOLD then 0 else OVERLAY_DEPTH_THRESHOLD + 1 - depth
  {
    exists i :: 0 <= i < |dirs| &&
      (AttemptAt(dirs[i], depth, attempt) || (depth < OVERLAY_DEPTH_THRESHOLD && k.listing(dirs[i]).Some?
          && AttemptOf(k, k.listing(dirs[i]).value, depth + 1, attempt)))
  }

  predicate AttemptAt(d: Path, depth: nat, attempt: Attempt) {
    attempt.path == d && attempt.depth == depth
  }

  ghost predicate DiesAt(k: Kernel, dirs: seq<Path>, depth: nat, attempt: Attempt) {
    AttemptOf(k, dirs, depth, attempt) && RequestDies(k, attempt.tree, attempt.calls, attempt.path, attempt.depth)
  }

  /** The process ended at this request, or at one the fallback went on to from it. */
  ghost predicate DiesIn(k: Kernel, d: Path, depth: nat, attempt: Attempt) {
    && RequestDies(k, attempt.tree, attempt.calls, attempt.path, attempt.depth)
    && (!AttemptAt(d, depth, attempt) ==>
          && depth < OVERLAY_DEPTH_THRESHOLD && k.listing(d).Some?
          && AttemptOf(k, k.listing(d).value, depth + 1, attempt))
  }

  /** The fallback's only cause. */
  ghost predicate NeverInvalid(k: Kernel) {
    forall n :: k.overlayAnswer(n) != EINVAL
  }

  /** Overlay mounts work, or are refused as invalid. */
  ghost predicate OkOrInvalid(k: Kernel) {
    forall n :: k.overlayAnswer(n) == Ok || k.overlayAnswer(n) == EINVAL
  }

  /** The request, and as far as the fallback goes what is listed in it, are host directories that fit the shape. */
  ghost predicate RequestFits(k: Kernel, shape: Tree, d: Path, depth: nat)
    decreases if depth > OVERLAY_DEPTH_THRESHOLD then 0 else OVERLAY_DEPTH_THRESHOLD - depth
  {
    && k.host(d) == Directory && StepFits(k.host, shape, d, d)
    && (depth < OVERLAY_DEPTH_THRESHOLD && k.listing(d).Some? ==>
          forall i :: 0 <= i < |k.listing(d).value| ==> RequestFits(k, shape, k.listing(d).value[i], depth + 1))
  }

  ghost predicate RequestsFit(k: Kernel, shape: Tree, dirs: seq<Path>, depth: nat) {
    forall i :: 0 <= i < |dirs| ==> RequestFits(k, shape, dirs[i], depth)
  }

  /** Nothing but an invalid overlay can go wrong. */
  ghost predicate Fine(k: Kernel, t: Tree, shape: Tree) {
    Cooperative(k) && OkOrInvalid(k) && Fitted(t, shape)
  }

  /** With such a kernel the answer is the kernel's own. */
  lemma FineAnswer(k: Kernel, t: Tree, calls: nat, shape: Tree, lower: Path, depth: nat)
    requires ParentClosed(t) && Fine(k, t, shape) && RequestFits(k, shape, lower, depth)
    ensures CreationOf(k, t, calls, lower, true) == Made
    ensures FirstAnswer(k, t, calls, lower) == k.overlayAnswer(calls + Asked(k, t, lower) + 1)
  {
    CreationFits(k, t, calls, shape, lower, Directory);
  }

  /** `MountOverlayFs`. It never reaches the abort below the maximal depth. */
  method MountOverlayFs(ns: Sandbox, lower: Path, depth: nat, ghost shape: Tree)
    returns (out: Outcome, ghost cut: Cut, ghost last: Attempt, ghost aborted: bool)
    requires ns.Valid()
    modifies ns`log, ns`tree, ns`calls, ns`readOnlyPaths
    ensures ns.Valid() && !aborted
    ensures RequestDies(ns.kernel, old(ns.tree), old(ns.calls), lower, depth) ==> out == Dead
    ensures out == Dead ==> DiesIn(ns.kernel, lower, depth, last)
    ensures out == Done ==> Answered(ns.kernel, old(ns.tree), old(ns.calls), lower, depth, cut)
    ensures out == Done ==>
      && Fits(ns.kernel, lower, depth, cut)
      && ns.log == old(ns.log) + OverlayLog(Pieces(ns.kernel, lower, cut))
      && ns.readOnlyPaths == old(ns.readOnlyPaths) + KeptSet(Pieces(ns.kernel, lower, cut))
      && (NeverInvalid(ns.kernel) ==> cut == Overlaid)
    ensures Fine(ns.kernel, old(ns.tree), shape) && RequestFits(ns.kernel, shape, lower, depth) ==>
      out == Done && Fitted(ns.tree, shape)
    decreases DepthLeft(depth), 0
  {
    cut, last, aborted := Unreadable, Attempt(lower, depth, ns.tree, ns.calls), false;
    OnePiece(lower);
    ghost var fine := Fine(ns.kernel, ns.tree, shape) && RequestFits(ns.kernel, shape, lower, depth);
    if fine {
      FineAnswer(ns.kernel, ns.tree, ns.calls, shape, lower, depth);
    }
    var made := ns.CreateTarget(lower, true);
    if made == Died {
      return Dead, cut, last, aborted;
    }
    if fine {
      MadeFits(old(ns.tree), ns.tree, shape, lower, Directory);
      MountedFits(ns.tree, shape, lower, ns.kernel.host, lower);
    }
    var error := ns.OverlayMount(lower);
    if error == EINVAL {
      if depth >= OVERLAY_DEPTH_THRESHOLD {
        ns.readOnlyPaths := ns.readOnlyPaths + {lower};
        return Done, KeptReadOnly, last, aborted;
      }
      if ns.kernel.host(lower) != Directory {
        return Dead, cut, last, aborted;
      }
      var directories := ns.kernel.listing(lower);
      if directories == None {
        return Done, Unreadable, last, aborted;
      }
      out, cut, last, aborted := MountSubdirectories(ns, lower, directories.value, depth, shape);
    } else if error != Ok {
      out := Dead;
    } else {
      cut := Overlaid;
      out := Done;
    }
  }

  /** The fallback of `MountOverlayFs`: the sub-directories one by one. */
  method MountSubdirectories(ns: Sandbox, lower: Path, directories: seq<Path>, depth: nat, ghost shape: Tree)
    returns (out: Outcome, ghost cut: Cut, ghost last: Attempt, ghost aborted: bool)
    requires ns.Valid() && depth < OVERLAY_DEPTH_THRESHOLD && ns.kernel.listing(lower) == Some(directories)
    requires !NeverInvalid(ns.kernel)
    modifies ns`log, ns`tree, ns`calls, ns`readOnlyPaths
    ensures ns.Valid() && !aborted && (out == Done ==> cut.Split?)
    ensures out == Dead ==> DiesAt(ns.kernel, directories, depth + 1, last)
    ensures out == Done ==>
      && Fits(ns.kernel, lower, depth, cut)
      && ns.log == old(ns.log) + OverlayLog(Pieces(ns.kernel, lower, cut))
      && ns.readOnlyPaths == old(ns.readOnlyPaths) + KeptSet(Pieces(ns.kernel, lower, cut))
    ensures Fine(ns.kernel, old(ns.tree), shape) && RequestsFit(ns.kernel, shape, directories, depth + 1) ==>
      out == Done && Fitted(ns.tree, shape)
    decreases DepthLeft(depth + 1), 2
  {
    ghost var cuts;
    out, cuts, last, aborted := MountAllOverlayFs(ns, directories, depth + 1, shape);
    cut := Split(cuts);
  }

  /** `MountAllOverlayFs`: gives up only below the maximal depth. */
  method MountAllOverlayFs(ns: Sandbox, dirs: seq<Path>, depth: nat, ghost shape: Tree)
    returns (out: Outcome, ghost cuts: seq<Cut>, ghost last: Attempt, ghost aborted: bool)
    requires ns.Valid()
    modifies ns`log, ns`tree, ns`calls, ns`readOnlyPaths
    ensures ns.Valid()
    ensures aborted <==> depth > 5 && dirs != []
    ensures out == Dead ==> aborted || DiesAt(ns.kernel, dirs, depth, last)
    ensures out == Done ==>
      && FitAll(ns.kernel, dirs, depth, cuts)
      && ns.log == old(ns.log) + OverlayLog(PiecesAll(ns.kernel, dirs, cuts))
      && ns.readOnlyPaths == old(ns.readOnlyPaths) + KeptSet(PiecesAll(ns.kernel, dirs, cuts))
    ensures out == Done && NeverInvalid(ns.kernel) ==> forall cut <- cuts :: cut == Overlaid
    ensures
      Fine(ns.kernel, old(ns.tree), shape) && RequestsFit(ns.kernel, shape, dirs, depth) && depth <= OVERLAY_MAX_DEPTH
      ==>
        out == Done && Fitted(ns.tree, shape)
    decreases DepthLeft(depth), 1
  {
    cuts, last, aborted := [], Attempt(ROOT, depth, ns.tree, ns.calls), false;
    if depth > OVERLAY_MAX_DEPTH {
      if dirs == [] {
        return Done, cuts, last, aborted;
      }
      return Dead, cuts, last, true;
    }
    ghost var k, pieces := ns.kernel, [];
    ghost var fine := Fine(k, ns.tree, shape) && RequestsFit(k, shape, dirs, depth);
    for i := 0 to |dirs|
      invariant ns.Valid() && !aborted && ns.kernel == k
      invariant Progress(k, dirs, depth, i, cuts, pieces)
      invariant ns.log == old(ns.log) + OverlayLog(pieces)
      invariant ns.readOnlyPaths == old(ns.readOnlyPaths) + KeptSet(pieces)
      invariant NeverInvalid(k) ==> forall cut <- cuts :: cut == Overlaid
      invariant fine ==> Fitted(ns.tree, shape)
    {
      ghost var cut;
      out, cut, last, aborted := MountOverlayFs(ns, dirs[i], depth, shape);
      if out == Dead {
        return Dead, cuts, last, aborted;
      }
      ghost var piece := Pieces(k, dirs[i], cut);
      OneMore(k, dirs, depth, i, cuts, pieces, cut, old(ns.log));
      cuts, pieces := cuts + [cut], pieces + piece;
    }
    assert dirs[..|dirs|] == dirs;
    out := Done;
  }

  // ----- the pieces cut the tree -----

  /** Two levels below a requested directory, every listing on the way to `p` works and `p` is in it. */
  ghost predicate ReadableTo(k: Kernel, d: Path, depth: nat, p: Path)
    decreases if depth > OVERLAY_DEPTH_THRESHOLD then 0 else OVERLAY_DEPTH_THRESHOLD - depth
  {
    && d <= p
    && (depth < OVERLAY_DEPTH_THRESHOLD ==>
          && k.listing(d).Some?
          && exists i :: 0 <= i < |k.listing(d).value| && ReadableTo(k, k.listing(d).value[i], depth + 1, p))
  }

  /** How many pieces cover the path. */
  ghost function Covering(pieces: seq<Piece>, p: Path): nat {
    if |pieces| == 0 then 0 else (if pieces[0].path <= p then 1 else 0) + Covering(pieces[1..], p)
  }

  lemma {:induction false} CoveringConcat(a: seq<Piece>, b: seq<Piece>, p: Path)
    ensures Covering(a + b, p) == Covering(a, p) + Covering(b, p)
  {
    if |a| == 0 {
      assert a + b == b;
    } else {
      assert (a + b)[1..] == a[1..] + b;
      CoveringConcat(a[1..], b, p);
    }
  }

  /** Pieces lie at or below the directory they replace, and those kept read-only exactly at the threshold. */
  lemma {:induction false} PiecesLieBelow(k: Kernel, d: Path, depth: nat, cut: Cut)
    requires ListingValid(k) && depth <= OVERLAY_DEPTH_THRESHOLD && Fits(k, d, depth, cut)
    ensures forall x <- Pieces(k, d, cut) ::
              d <= x.path && (!x.overlaid ==> |x.path| == |d| + 2 - depth)
    decreases cut, 0
  {
    if cut.Split? {
      var dirs := k.listing(d).value;
      assert ChildrenOf(d, dirs);
      PiecesAllLieBelow(k, d, dirs, depth + 1, cut.children);
    }
  }

  lemma {:induction false} PiecesAllLieBelow(k: Kernel, d: Path, dirs: seq<Path>, depth: nat, cuts: seq<Cut>)
    requires ListingValid(k) && depth <= OVERLAY_DEPTH_THRESHOLD && FitAll(k, dirs, depth, cuts)
    requires forall i :: 0 <= i < |dirs| ==> d <= dirs[i] && |dirs[i]| == |d| + 1
    ensures forall x <- PiecesAll(k, dirs, cuts) ::
              d <= x.path && (!x.overlaid ==> |x.path| == |d| + 1 + OVERLAY_DEPTH_THRESHOLD - depth)
    decreases cuts
  {
    if |cuts| > 0 {
      PiecesLieBelow(k, dirs[0], depth, cuts[0]);
      forall x | x in Pieces(k, dirs[0], cuts[0])
        ensures d <= x.path && (!x.overlaid ==> |x.path| == |d| + 1 + OVERLAY_DEPTH_THRESHOLD - depth)
      {
        assert d <= dirs[0] <= x.path;
      }
      PiecesAllLieBelow(k, d, dirs[1..], depth, cuts[1..]);
    }
  }

  lemma {:induction false} NoneCovers(pieces: seq<Piece>, d: Path, p: Path)
    requires forall x <- pieces :: d <= x.path
    requires !(d <= p)
    ensures Covering(pieces, p) == 0
  {
    if |pieces| > 0 {
      assert pieces[0] in pieces;
      NoneCovers(pieces[1..], d, p);
    }
  }

  /**
    The request put nothing above the path: somewhere on the way its listing failed,
    or no listed directory leads on to the path.
   */
  ghost predicate Missed(k: Kernel, d: Path, cut: Cut, p: Path)
    decreases cut
  {
    match cut
    case Overlaid => false
    case KeptReadOnly => false
    case Unreadable => true
    case Split(cuts) => k.listing(d).Some? ==> AllMissed(k, k.listing(d).value, cuts, p)
  }

  ghost predicate AllMissed(k: Kernel, dirs: seq<Path>, cuts: seq<Cut>, p: Path)
    decreases cuts
  {
    forall i :: 0 <= i < |cuts| && i < |dirs| && dirs[i] <= p ==> Missed(k, dirs[i], cuts[i], p)
  }

  /**
    The cut: whatever the kernel answered and whatever could be listed, every path at
    or below a requested directory is covered by exactly one piece of that request, or
    by none exactly when the request missed it.
   */
  lemma {:induction false} CoveredExactlyOnce(k: Kernel, d: Path, depth: nat, cut: Cut, p: Path)
    requires ListingValid(k) && depth <= OVERLAY_DEPTH_THRESHOLD && Fits(k, d, depth, cut) && d <= p
    ensures Covering(Pieces(k, d, cut), p) == if Missed(k, d, cut, p) then 0 else 1
    decreases cut, 0
  {
    match cut
    case Overlaid => assert [Piece(d, true)][1..] == [];
    case KeptReadOnly => assert [Piece(d, false)][1..] == [];
    case Unreadable =>
    case Split(cuts) =>
      assert ChildrenOf(d, k.listing(d).value);
      OneChildCovers(k, k.listing(d).value, depth + 1, cuts, p);
  }

  /** In particular nothing is missed two levels down, or deeper, where the listings on the way work. */
  lemma {:induction false} ReadableIsNotMissed(k: Kernel, d: Path, depth: nat, cut: Cut, p: Path)
    requires depth <= OVERLAY_DEPTH_THRESHOLD && Fits(k, d, depth, cut) && ReadableTo(k, d, depth, p)
    ensures !Missed(k, d, cut, p)
    decreases cut
  {
    if cut.Split? {
      var dirs := k.listing(d).value;
      var i :| 0 <= i < |dirs| && ReadableTo(k, dirs[i], depth + 1, p);
      ReadableIsNotMissed(k, dirs[i], depth + 1, cut.children[i], p);
    }
  }

  lemma SameDepthCoversOnce(a: Path, b: Path, p: Path)
    requires |a| == |b| && a != b && b <= p
    ensures !(a <= p)
  {
    assert b == p[..|a|];
  }

  /** At most one of the directories covers the path, so its pieces are all that do. */
  lemma {:induction false} OneChildCovers(k: Kernel, dirs: seq<Path>, depth: nat, cuts: seq<Cut>, p: Path)
    requires ListingValid(k) && depth <= OVERLAY_DEPTH_THRESHOLD && FitAll(k, dirs, depth, cuts)
    requires forall a, b :: 0 <= a < b < |dirs| ==> |dirs[a]| == |dirs[b]| && dirs[a] != dirs[b]
    ensures Covering(PiecesAll(k, dirs, cuts), p) == if AllMissed(k, dirs, cuts, p) then 0 else 1
    decreases cuts, 1
  {
    if |cuts| > 0 {
      var head, rest := Pieces(k, dirs[0], cuts[0]), PiecesAll(k, dirs[1..], cuts[1..]);
      CoveringConcat(head, rest, p);
      AllMissedCons(k, dirs, cuts, p);
      if dirs[0] <= p {
        CoveredExactlyOnce(k, dirs[0], depth, cuts[0], p);
        OthersDoNotCover(k, dirs[1..], depth, cuts[1..], dirs[0], p);
      } else {
        PiecesLieBelow(k, dirs[0], depth, cuts[0]);
        NoneCovers(head, dirs[0], p);
        OneChildCovers(k, dirs[1..], depth, cuts[1..], p);
      }
    }
  }

  lemma AllMissedCons(k: Kernel, dirs: seq<Path>, cuts: seq<Cut>, p: Path)
    requires |dirs| == |cuts| > 0
    ensures AllMissed(k, dirs, cuts, p) <==>
      (dirs[0] <= p ==> Missed(k, dirs[0], cuts[0], p)) && AllMissed(k, dirs[1..], cuts[1..], p)
  {
    if AllMissed(k, dirs[1..], cuts[1..], p) {
      forall i | 0 < i < |cuts| && dirs[i] <= p
        ensures Missed(k, dirs[i], cuts[i], p)
      {
        assert dirs[1..][i - 1] == dirs[i] && cuts[1..][i - 1] == cuts[i];
      }
    }
  }

  lemma {:induction false} OthersDoNotCover(k: Kernel, dirs: seq<Path>, depth: nat, cuts: seq<Cut>, d: Path, p: Path)
    requires ListingValid(k) && depth <= OVERLAY_DEPTH_THRESHOLD && FitAll(k, dirs, depth, cuts)
    requires d <= p && forall a :: 0 <= a < |dirs| ==> |dirs[a]| == |d| && dirs[a] != d
    ensures Covering(PiecesAll(k, dirs, cuts), p) == 0
    ensures AllMissed(k, dirs, cuts, p)
    decreases |cuts|
  {
    if |cuts| > 0 {
      AllMissedCons(k, dirs, cuts, p);
      PiecesLieBelow(k, dirs[0], depth, cuts[0]);
      SameDepthCoversOnce(dirs[0], d, p);
      NoneCovers(Pieces(k, dirs[0], cuts[0]), dirs[0], p);
      CoveringConcat(Pieces(k, dirs[0], cuts[0]), PiecesAll(k, dirs[1..], cuts[1..]), p);
      OthersDoNotCover(k, dirs[1..], depth, cuts[1..], d, p);
    }
  }
}
