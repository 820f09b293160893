/** The root directories nobody claimed, to be mounted read-only. */
module Leftovers {
  import opened Paths
  import opened SandboxOptions
  import opened Namespace

  const DEV: Path := ["dev"]

  /** Some option or fixed policy says how the directory, or what is in it, is mounted. */
  predicate Claimed(s: Settings, home: Path, d: Path) {
    || home <= d || d <= home
    || (exists o <- s.overlays :: o <= d)
    || (exists w <- s.writables :: w <= d)
    || (exists b <- s.sources :: b <= d)
    || TMP <= d
    || s.workingDir <= d || d <= s.workingDir
    || d == DEV
  }

  /** `ToBeMounted`: it also looks at the set its caller is filling. */
  predicate ToBeMounted(s: Settings, home: Path, readOnlyPaths: set<Path>, d: Path) {
    Claimed(s, home, d) || exists r <- readOnlyPaths :: d <= r
  }

  /** What the iteration over the root finds; `known` is false where its status cannot be read. */
  datatype RootEntry = RootEntry(path: Path, known: bool, isDirectory: bool)

  ghost predicate IsLeftover(s: Settings, home: Path, before: set<Path>, e: RootEntry) {
    e.known && e.isDirectory && !ToBeMounted(s, home, before, e.path)
  }

  /** The root directories no policy claims and no earlier read-only path lies in. */
  ghost function LeftoverSet(s: Settings, home: Path, before: set<Path>, entries: seq<RootEntry>): set<Path> {
    set e | e in entries && IsLeftover(s, home, before, e) :: e.path
  }

  /** Asking about the grown set gives the answer the set at the start gives, except for a directory already added. */
  lemma GrowingSetDoesNotMatter(s: Settings, home: Path, before: set<Path>, entries: seq<RootEntry>, d: Path)
    requires |d| == 1 && forall e <- entries :: |e.path| == 1
    ensures
      var added := LeftoverSet(s, home, before, entries);
      ToBeMounted(s, home, before + added, d) <==> ToBeMounted(s, home, before, d) || d in added
  {
    var added := LeftoverSet(s, home, before, entries);
    if r :| r in before + added && d <= r && r !in before {
      assert |r| == 1;
      assert d == r;
    }
    if d in added {
      assert d in before + added && d <= d;
    }
    if r :| r in before && d <= r {
      assert r in before + added;
    }
  }

  lemma OneMoreEntry(s: Settings, home: Path, before: set<Path>, entries: seq<RootEntry>, n: nat)
    requires n < |entries|
    ensures LeftoverSet(s, home, before, entries[..n + 1])
         == LeftoverSet(s, home, before, entries[..n])
          + if IsLeftover(s, home, before, entries[n]) then {entries[n].path} else {}
  {
    var more := entries[..n + 1];
    assert more == entries[..n] + [entries[n]];
    assert more[n] in more;
    assert forall e <- entries[..n] :: e in more;
  }

  /** `AddLeftoverFoldersToReadOnlyPaths`, for any order of the root's entries and with repetitions. */
  method AddLeftoverFolders(ns: Sandbox, opt: Options, home: Path, entries: seq<RootEntry>)
    requires forall e <- entries :: |e.path| == 1
    modifies ns`readOnlyPaths
    ensures ns.readOnlyPaths
         == old(ns.readOnlyPaths) + LeftoverSet(opt.PlanSettings(), home, old(ns.readOnlyPaths), entries)
  {
    var s := opt.PlanSettings();
    ghost var before := ns.readOnlyPaths;
    for i := 0 to |entries|
      invariant ns.readOnlyPaths == before + LeftoverSet(s, home, before, entries[..i])
    {
      var e := entries[i];
      assert e in entries;
      GrowingSetDoesNotMatter(s, home, before, entries[..i], e.path);
      OneMoreEntry(s, home, before, entries, i);
      if e.known && e.isDirectory && !ToBeMounted(s, home, ns.readOnlyPaths, e.path) {
        ns.readOnlyPaths := ns.readOnlyPaths + {e.path};
      }
    }
    assert entries[..|entries|] == entries;
  }

  /**
    Left over is exactly a known directory of the root that neither covers nor lies in
    home or the working directory, that no overlay, writable entry or bind source
    covers, that no earlier read-only path lies in, and that is neither /tmp nor /dev.
   */
  lemma LeftoverIff(s: Settings, home: Path, before: set<Path>, entries: seq<RootEntry>, d: Path)
    requires forall e <- entries :: |e.path| == 1
    ensures d in LeftoverSet(s, home, before, entries) <==>
      && RootEntry(d, true, true) in entries
      && !(d <= home) && !(home <= d)
      && !(d <= s.workingDir) && !(s.workingDir <= d)
      && (forall p <- s.overlays + s.writables + s.sources :: !(p <= d))
      && (forall r <- before :: !(d <= r))
      && d != ["tmp"] && d != ["dev"]
  {
    var all := s.overlays + s.writables + s.sources;
    assert forall p :: p in all <==> p in s.overlays || p in s.writables || p in s.sources;
    if RootEntry(d, true, true) in entries {
      assert |d| == 1;
      assert TMP <= d <==> d == TMP;
      assert d in LeftoverSet(s, home, before, entries) <==> !ToBeMounted(s, home, before, d);
    }
  }

  /**
    What is left over depends on the root's entries as a set: their order is of no
    consequence, and no left-over directory covers another.
   */
  lemma LeftoversPartition(s: Settings, home: Path, entries: seq<RootEntry>, others: seq<RootEntry>)
    requires forall e <- entries :: |e.path| == 1
    requires forall e :: e in others <==> e in entries
    ensures
      var set0 := LeftoverSet(s, home, {}, entries);
      && LeftoverSet(s, home, {}, others) == set0
      && (forall a <- set0, b <- set0 :: a <= b ==> a == b)
  {
    var set0 := LeftoverSet(s, home, {}, entries);
    forall a, b | a in set0 && b in set0 && a <= b
      ensures a == b
    {
      assert |a| == 1 && |b| == 1;
    }
  }
}
