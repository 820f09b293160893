/**
  Opening the way to the working directory on a host that is in order: what is
  requested in addition are directories of the host, so the plan still keeps to its shape.
 */
module OpenedHost {
  import opened Text
  import opened Paths
  import opened SandboxOptions
  import opened WorkingDirChain
  import opened Namespace
  import opened OverlayFallback
  import opened InitFile
  import opened HostShape

  /** A directory of the host that is not in the way of the private /tmp. */
  ghost predicate FreeDirectory(host: Tree, p: Path) {
    host(p) == Directory && SettledBelow(host, p)
  }

  /** Symlinks on the way lead to such directories. */
  ghost predicate LinksReady(host: Tree, links: Links) {
    forall p, l :: l in links(p) ==> FreeDirectory(host, l)
  }

  lemma OutsideTmpIsFree(host: Tree, p: Path)
    requires host(p) == Directory && |p| > 0 && p[0] != "tmp"
    ensures FreeDirectory(host, p)
  {
    forall a: Path | p <= a || a <= p
      ensures SameInTmp(host, a)
    {
      StaysOffTmp(p, a);
    }
  }

  lemma StaysOffTmp(p: Path, a: Path)
    requires |p| > 0 && p[0] != "tmp" && (p <= a || a <= p)
    ensures !(TMP < a)
  {
  }

  /** What is opened for a working directory outside /tmp are directories of the host outside /tmp. */
  lemma OpenedAreFree(host: Tree, mount: Path, workdir: Path, home: Path, isXfs: Path -> bool)
    requires ParentClosed(host) && host(workdir) == Directory && host(home) == Directory
    requires mount <= workdir && !(TMP <= workdir)
    ensures
      var final := FinalTopLevel(mount, workdir, home);
      final.Some? ==>
        && FreeDirectory(host, final.value)
        && forall c <- OpenedChain(final.value, workdir, isXfs) :: FreeDirectory(host, c)
  {
    if FinalTopLevel(mount, workdir, home).Some? {
      var top, final := workdir[..|mount| + 1], FinalTopLevel(mount, workdir, home).value;
      FinalIsOnTheWay(mount, workdir, home);
      ChainBelowTop(top, final, workdir, isXfs);
      OutsideTmp(workdir);
      forall c | c == final || c in OpenedChain(final, workdir, isXfs)
        ensures FreeDirectory(host, c)
      {
        assert c <= workdir || c <= home;
        if c != workdir && c != home {
          AncestorsExist(host, c, if c <= workdir then workdir else home);
        }
        assert top <= c && c[0] == top[0] == workdir[0];
        OutsideTmpIsFree(host, c);
      }
    }
  }

  lemma FinalIsOnTheWay(mount: Path, workdir: Path, home: Path)
    requires mount <= workdir && FinalTopLevel(mount, workdir, home).Some?
    ensures
      var final := FinalTopLevel(mount, workdir, home).value;
      mount != workdir && workdir[..|mount| + 1] <= final && (final <= workdir || final <= home)
  {
    assert mount < workdir;
    var top := workdir[..|mount| + 1];
    assert mount + [workdir[|mount|]] == top;
    if top <= home {
      if home <= workdir {
        assert home + [workdir[|home|]] == workdir[..|home| + 1];
      } else {
        assert top != home;
        assert top <= Parent(home);
      }
    }
  }

  /** More free directories on a list. */
  ghost predicate Adds(host: Tree, before: seq<Path>, after: seq<Path>) {
    forall p <- after :: p in before || FreeDirectory(host, p)
  }

  lemma StaysReady(k: Kernel, s: Settings, t: Settings)
    requires Ready(k, s) && Adds(k.host, s.writables, t.writables) && Adds(k.host, s.overlays, t.overlays)
    requires t == s.(writables := t.writables, overlays := t.overlays)
    ensures Ready(k, t)
  {
  }

  lemma OpenedAdds(
      host: Tree, s: Settings, mount: Path, home: Path, links: Links, isXfs: Path -> bool, writable: bool)
    requires ParentClosed(host) && LinksReady(host, links)
    requires host(s.workingDir) == Directory && host(home) == Directory
    requires mount <= s.workingDir && !(TMP <= s.workingDir)
    ensures
      var t := Opened(s, Some(mount), home, links, isXfs, writable);
      && t == s.(writables := t.writables, overlays := t.overlays)
      && Adds(host, s.writables, t.writables) && Adds(host, s.overlays, t.overlays)
  {
    var final := FinalTopLevel(mount, s.workingDir, home);
    if final.Some? {
      OpenedAreFree(host, mount, s.workingDir, home, isXfs);
      RequestsAreKept(s.overlays, OpenedChain(final.value, s.workingDir, isXfs), links);
      AddAllKeeps(s.writables + [final.value], Parents(OverlayRequest(final.value, links)));
    }
  }

  const HOME: Path := ["home", "user"]
  const PROJECT: Path := ["home", "user", "project"]
  const RND: Path := ["home", "user", ".rnd"]

  /** A host with little more than what the default set-up asks for, among it the regular file it makes writable. */
  function SmallHost(p: Path): Node {
    if p == RND then File
    else if p in {ROOT, TMP, SBX_TMP, ["proc"], ["var"], ["opt"], ["home"], HOME, PROJECT} then Directory
    else Absent
  }

  lemma SmallHostIsClosed()
    ensures ParentClosed(p => SmallHost(p))
  {
    assert Parent(RND) == HOME && Parent(PROJECT) == HOME && Parent(HOME) == ["home"] && Parent(SBX_TMP) == TMP;
    assert forall c: string :: Parent([c]) == ROOT;
  }

  /** There the default mode comes up in an empty root. */
  lemma SmallHostComesUp(k: Kernel, t: Tree, s: Settings)
    requires Cooperative(k) && OkOrInvalid(k) && k.host == (p => SmallHost(p)) && forall d :: k.listing(d) == None
    requires forall p: Path :: t(p) == if p == ROOT then Directory else Absent
    requires s.workingDir == PROJECT && s.writables == [RND] && s.overlays == []
    requires s.sources == [SBX_TMP, ["proc"], ["var"], ["opt"]] && s.targets == [TMP, ["proc"], ["var"], ["opt"]]
    ensures ParentClosed(k.host) && ComesUp(k, t, s, HOME)
  {
    SmallHostIsClosed();
    forall p: Path | p == ["proc"] || p == ["var"] || p == ["opt"] || p == HOME || p == PROJECT || p == RND
      ensures Settled(k.host, p)
    {
      assert p[0] != "tmp";
      OutsideTmpIsSettled(k.host, p);
    }
  }

  /** A host that is ready for the options is ready for what is opened for the working directory as well. */
  lemma {:induction false} OpeningKeepsReady(
      k: Kernel, s: Settings, mountPoint: Option<Path>, home: Path, links: Links, isXfs: Path -> bool, writable: bool)
    requires Ready(k, s) && ParentClosed(k.host) && LinksReady(k.host, links) && k.host(home) == Directory
    requires !(TMP <= s.workingDir) && (mountPoint.Some? ==> mountPoint.value <= s.workingDir)
    ensures Ready(k, Opened(s, mountPoint, home, links, isXfs, writable))
  {
    if mountPoint.Some? {
      OpenedAdds(k.host, s, mountPoint.value, home, links, isXfs, writable);
      StaysReady(k, s, Opened(s, mountPoint, home, links, isXfs, writable));
    }
  }
}
