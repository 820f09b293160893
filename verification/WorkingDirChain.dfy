/**
  How the directories above the working directory are opened up: the top-level
  directory below the mount point, and on some file systems every directory from
  there down to the working directory.
 */
module WorkingDirChain {
  import opened Text
  import opened Paths
  import opened SandboxOptions

  /**
    The symlink parents `MountHomeSymlinks` would find for each directory, none
    outside home.
   */
  type Links = Path -> seq<Path>

  function OverlayRequest(p: Path, links: Links): Request {
    Plainly(p, true, links(p))
  }

  /**
    `TopLevelRelativeFolder`: the first directory on the way from `mount` to
    `workdir`; nothing when they are the same. When `workdir` is not below, the
    relative path starts with "..", so the answer resolves to the parent.
   */
  function TopLevelRelativeFolder(mount: Path, workdir: Path): Option<Path> {
    if mount == workdir then None
    else if mount <= workdir then Some(mount + [workdir[|mount|]])
    else Some(Parent(mount))
  }

  /** The directories the chain passes through: up while it must, then down, short of the end. */
  function Chain(from: Path, to: Path): seq<Path>
    decreases if from <= to then 0 else 1, if from <= to then |to| - |from| else |from|
  {
    if from == to then []
    else if from <= to then [from] + Chain(from + [to[|from|]], to)
    else [from] + Chain(Parent(from), to)
  }

  function RequestAll(overlays: seq<Path>, chain: seq<Path>, links: Links): seq<Path>
    decreases |chain|
  {
    if |chain| == 0 then overlays
    else RequestAll(AfterOverlay(overlays, OverlayRequest(chain[0], links)), chain[1..], links)
  }

  /**
    `MountOverlaySubfolders` on canonical paths: nothing unless the text of the
    working directory starts with the text of the top level, else one overlay
    request per directory of the chain.
   */
  method MountOverlaySubfolders(topLevel: Path, workdir: Path, opt: Options, links: Links) returns (rc: int)
    requires !opt.running && opt.useOverlayfs
    modifies opt`overlayfsmount
    ensures rc == if StartsWith(Render(workdir), Render(topLevel)) then 0 else 1
    ensures opt.overlayfsmount ==
      if rc == 0 then RequestAll(old(opt.overlayfsmount), Chain(topLevel, workdir), links)
      else old(opt.overlayfsmount)
  {
    if !StartsWith(Render(workdir), Render(topLevel)) {
      return 1;
    }
    var current := topLevel;
    while current != workdir
      invariant RequestAll(old(opt.overlayfsmount), Chain(topLevel, workdir), links)
             == RequestAll(opt.overlayfsmount, Chain(current, workdir), links)
      decreases if current <= workdir then 0 else 1,
                if current <= workdir then |workdir| - |current| else |current|
    {
      ghost var here := current;
      var _ := opt.MountOverlay(OverlayRequest(current, links));
      // one step along the relative path
      current := if current <= workdir then current + [workdir[|current|]] else Parent(current);
      assert Chain(here, workdir) == [here] + Chain(current, workdir);
      assert ([here] + Chain(current, workdir))[1..] == Chain(current, workdir);
    }
    rc := 0;
  }

  /** The proper ancestors of a path with at least this many components, from the top down. */
  function AncestorsFrom(depth: nat, p: Path): seq<Path>
    requires depth <= |p|
  {
    seq(|p| - depth, i requires 0 <= i < |p| - depth => p[..depth + i])
  }

  /** When the top level covers the working directory, the chain is its ancestors from there, itself left out. */
  lemma {:induction false} ChainIsAncestors(topLevel: Path, workdir: Path)
    requires topLevel <= workdir
    ensures Chain(topLevel, workdir) == AncestorsFrom(|topLevel|, workdir)
    decreases |workdir| - |topLevel|
  {
    if topLevel != workdir {
      var next := topLevel + [workdir[|topLevel|]];
      assert next == workdir[..|topLevel| + 1];
      ChainIsAncestors(next, workdir);
      assert workdir[..|topLevel|] == topLevel;
      assert AncestorsFrom(|topLevel|, workdir) == [topLevel] + AncestorsFrom(|next|, workdir);
    }
  }

  /** The whole chain is requested, earlier requests stay, and nothing is added but the chain and its links. */
  lemma {:induction false} RequestsAreKept(overlays: seq<Path>, chain: seq<Path>, links: Links)
    ensures forall p <- chain :: p in RequestAll(overlays, chain, links)
    ensures overlays <= RequestAll(overlays, chain, links)
    ensures forall c <- chain, p <- links(c) :: p in RequestAll(overlays, chain, links)
    ensures forall p <- RequestAll(overlays, chain, links) ::
              p in overlays || p in chain || exists c <- chain :: p in links(c)
    decreases |chain|
  {
    if |chain| > 0 {
      var req := OverlayRequest(chain[0], links);
      assert chain[0] in chain && forall c <- chain[1..] :: c in chain;
      AddAllKeeps(overlays + [chain[0]], Parents(req));
      AddAllAdds(overlays + [chain[0]], Parents(req));
      assert overlays <= overlays + [chain[0]] <= AfterOverlay(overlays, req);
      assert AfterOverlay(overlays, req)[|overlays|] == chain[0];
      RequestsAreKept(AfterOverlay(overlays, req), chain[1..], links);
    }
  }

  lemma {:induction false} AddAllKeeps(paths: seq<Path>, more: seq<Path>)
    ensures paths <= AddAll(paths, more)
    ensures forall p <- AddAll(paths, more) :: p in paths || p in more
    decreases |more|
  {
    if |more| > 0 {
      AddAllKeeps(Add(paths, more[0]), more[1..]);
    }
  }

  lemma {:induction false} AddAllAdds(paths: seq<Path>, more: seq<Path>)
    ensures forall p <- more :: p in AddAll(paths, more)
    decreases |more|
  {
    if |more| > 0 {
      AddAllAdds(Add(paths, more[0]), more[1..]);
      AddAllKeeps(Add(paths, more[0]), more[1..]);
      assert forall p <- Add(paths, more[0]) :: p in AddAll(paths, more);
    }
  }

  lemma {:induction false} NoLinksRequestsExactly(overlays: seq<Path>, chain: seq<Path>, links: Links)
    requires forall p <- chain :: links(p) == []
    ensures RequestAll(overlays, chain, links) == overlays + chain
    decreases |chain|
  {
    if |chain| > 0 {
      var req := OverlayRequest(chain[0], links);
      assert AfterOverlay(overlays, req) == overlays + [chain[0]];
      NoLinksRequestsExactly(overlays + [chain[0]], chain[1..], links);
      assert overlays + [chain[0]] + chain[1..] == overlays + chain;
    } else {
      assert overlays + chain == overlays;
    }
  }

  /**
    Without symlinks on the way the requests are exactly the ancestors of the working
    directory from the top level down, in that order.
   */
  lemma AncestorChainRequested(overlays: seq<Path>, topLevel: Path, workdir: Path, links: Links)
    requires topLevel <= workdir && forall c <- Chain(topLevel, workdir) :: links(c) == []
    ensures RequestAll(overlays, Chain(topLevel, workdir), links) == overlays + AncestorsFrom(|topLevel|, workdir)
  {
    ChainIsAncestors(topLevel, workdir);
    NoLinksRequestsExactly(overlays, Chain(topLevel, workdir), links);
  }

  // ----- the directory finally opened -----

  function FinalTopLevel(mount: Path, workdir: Path, home: Path): Option<Path> {
    var top := TopLevelRelativeFolder(mount, workdir);
    if top.None? then None
    else if top.value <= home then TopLevelRelativeFolder(home, workdir)
    else top
  }

  /**
    The second look at home is there so that the opened directory never contains
    home. For a mount point the working directory lives on it does contain home
    exactly when the first top level contained home and the working directory is
    not under home: then the relative path leads up, to the parent of home.
   */
  lemma OpenedDirectoryContainsHomeIff(mount: Path, workdir: Path, home: Path)
    requires mount <= workdir
    ensures
      var top, final := TopLevelRelativeFolder(mount, workdir), FinalTopLevel(mount, workdir, home);
      (final.Some? && final.value <= home) <==> (top.Some? && top.value <= home && !(home <= workdir))
  {
    var top := TopLevelRelativeFolder(mount, workdir);
    if top.Some? && top.value <= home && home <= workdir && home != workdir {
      assert |home + [workdir[|home|]]| > |home|;
    }
  }

  /** For instance: with a working directory in someone else's home, the directory above the homes is opened. */
  lemma NeighboursHomeOpensHomes()
    ensures FinalTopLevel(ROOT, ["home", "other", "project"], ["home", "user"]) == Some(["home"])
    ensures ["home"] <= ["home", "user"]
  {
    var workdir, home := ["home", "other", "project"], ["home", "user"];
    assert ROOT + [workdir[0]] == ["home"] && home[..1] == ["home"];
    assert home[1] != workdir[1];
  }

  /** With the working directory under home, what is opened covers it and neither is nor contains home. */
  lemma OpenedDirectoryIsBelowHome(mount: Path, workdir: Path, home: Path)
    requires mount <= workdir && home <= workdir
    ensures var final := FinalTopLevel(mount, workdir, home);
      final.Some? ==> mount < final.value <= workdir && !(final.value <= home)
  {
    OpenedDirectoryContainsHomeIff(mount, workdir, home);
    if FinalTopLevel(mount, workdir, home).Some? {
      var top := TopLevelRelativeFolder(mount, workdir).value;
      assert top == workdir[..|mount| + 1];
      if top <= home && home != workdir {
        assert home + [workdir[|home|]] == workdir[..|home| + 1];
      }
    }
  }

  /** The options once the final top level is opened: a writable entry, an overlay or a chain of overlays more. */
  function Opened(
      s: Settings, mountPoint: Option<Path>, home: Path, links: Links, isXfs: Path -> bool, parentsWritable: bool)
      : Settings
  {
    var final := if mountPoint.None? then None else FinalTopLevel(mountPoint.value, s.workingDir, home);
    if final.None? then s
    else if parentsWritable then s.(writables := AfterWrite(s.writables, OverlayRequest(final.value, links)))
    else s.(overlays := RequestAll(s.overlays, OpenedChain(final.value, s.workingDir, isXfs), links))
  }

  /** The text of a directory starts with the text of what covers it. */
  lemma CoverStartsText(a: Path, p: Path)
    requires a <= p && |a| > 0
    ensures StartsWith(Render(p), Render(a))
  {
    BodyOfPrefix(a, p);
  }

  /**
    What is opened, in terms of the paths, for a mount point of the working directory
    that holds home only if home holds the working directory, with no symlinks on the
    way. It is the directory on the way to the working directory that comes next after
    the mount point, or next after home if that one would contain home; and on a file
    system where overlays go directory by directory, every one from there down to the
    parent of the working directory. There is nothing to open for the mount point or
    home itself, or where no mount point was found.
   */
  lemma OpenedByCase(
      s: Settings, mount: Path, home: Path, links: Links, isXfs: Path -> bool, parentsWritable: bool)
    requires mount <= s.workingDir && forall p :: links(p) == []
    requires mount < s.workingDir && s.workingDir[..|mount| + 1] <= home ==> home <= s.workingDir
    ensures
      var workdir := s.workingDir;
      var t := Opened(s, Some(mount), home, links, isXfs, parentsWritable);
      var depth := if mount < workdir && workdir[..|mount| + 1] <= home then |home| + 1 else |mount| + 1;
      if |workdir| < depth then t == s
      else if parentsWritable then t == s.(writables := s.writables + [workdir[..depth]])
      else if isXfs(workdir[..depth]) then t == s.(overlays := s.overlays + AncestorsFrom(depth, workdir))
      else t == s.(overlays := s.overlays + [workdir[..depth]])
    ensures Opened(s, None, home, links, isXfs, parentsWritable) == s
  {
    var workdir := s.workingDir;
    if mount < workdir {
      assert mount + [workdir[|mount|]] == workdir[..|mount| + 1];
      if home < workdir {
        assert home + [workdir[|home|]] == workdir[..|home| + 1];
      }
      var final := FinalTopLevel(mount, workdir, home);
      if final.Some? {
        CoverStartsText(final.value, workdir);
        AncestorChainRequested(s.overlays, final.value, workdir, links);
        NoLinksRequestsExactly(s.overlays, [final.value], links);
      }
    }
  }

  /**
    If the first top level holds home and home does not hold the working directory, the
    parent of home is opened: for writing, as an overlay, or directory by directory on
    the way from there, provided the text of the working directory starts with its text.
   */
  lemma OpenedAboveHome(
      s: Settings, mount: Path, home: Path, links: Links, isXfs: Path -> bool, parentsWritable: bool)
    requires mount < s.workingDir && forall p :: links(p) == []
    requires s.workingDir[..|mount| + 1] <= home && !(home <= s.workingDir)
    ensures
      var t := Opened(s, Some(mount), home, links, isXfs, parentsWritable);
      if parentsWritable then t == s.(writables := s.writables + [Parent(home)])
      else if !isXfs(Parent(home)) then t == s.(overlays := s.overlays + [Parent(home)])
      else if !StartsWith(Render(s.workingDir), Render(Parent(home))) then t == s
      else t == s.(overlays := s.overlays + Chain(Parent(home), s.workingDir))
  {
    assert mount + [s.workingDir[|mount|]] == s.workingDir[..|mount| + 1];
    NoLinksRequestsExactly(s.overlays, OpenedChain(Parent(home), s.workingDir, isXfs), links);
  }

  /** What was requested before stays requested, in its place. */
  lemma OpenedKeepsRequests(
      s: Settings, mountPoint: Option<Path>, home: Path, links: Links, isXfs: Path -> bool, parentsWritable: bool)
    ensures
      var t := Opened(s, mountPoint, home, links, isXfs, parentsWritable);
      && s.writables <= t.writables && s.overlays <= t.overlays
      && t == s.(writables := t.writables, overlays := t.overlays)
  {
    var final := if mountPoint.None? then None else FinalTopLevel(mountPoint.value, s.workingDir, home);
    if final.Some? {
      var req := OverlayRequest(final.value, links);
      AddAllKeeps(s.writables + [final.value], Parents(req));
      assert s.writables <= s.writables + [final.value] <= AfterWrite(s.writables, req);
      RequestsAreKept(s.overlays, OpenedChain(final.value, s.workingDir, isXfs), links);
    }
  }

  /**
    `MountWorkingDirMountPoint`: opens the final top level for writing, or as an
    overlay, either as a whole or directory by directory.
   */
  method MountWorkingDirMountPoint(
      mountPoint: Option<Path>, opt: Options, home: Path, links: Links, isXfs: Path -> bool)
    requires !opt.running && opt.useOverlayfs
    modifies opt`overlayfsmount, opt`writableFiles
    ensures opt.PlanSettings()
         == Opened(old(opt.PlanSettings()), mountPoint, home, links, isXfs, opt.parentsWritable)
  {
    ghost var overlays := opt.overlayfsmount;
    if mountPoint.None? {
      return;
    }
    var top := TopLevelRelativeFolder(mountPoint.value, opt.workingDir);
    if top.None? {
      return;
    }
    var leaks := IsSubpath(top.value, home);
    if leaks {
      top := TopLevelRelativeFolder(home, opt.workingDir);
    }
    if top.None? {
      return;
    }
    if opt.parentsWritable {
      var _ := opt.MountWrite(OverlayRequest(top.value, links));
    } else if isXfs(top.value) {
      var _ := MountOverlaySubfolders(top.value, opt.workingDir, opt, links);
    } else {
      var _ := opt.MountOverlay(OverlayRequest(top.value, links));
      assert [top.value][1..] == [];
      assert RequestAll(overlays, [top.value], links) == RequestAll(opt.overlayfsmount, [], links);
    }
  }

  /** The directories requested as overlays for a top level. */
  function OpenedChain(top: Path, workdir: Path, isXfs: Path -> bool): seq<Path> {
    if !isXfs(top) then [top]
    else if StartsWith(Render(workdir), Render(top)) then Chain(top, workdir)
    else []
  }
}
