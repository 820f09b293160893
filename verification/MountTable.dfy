/**
  `GetMountPointOf`: the scan of the mount table for the entry a directory lives on.
 */
module MountTable {
  import opened Text
  import opened Paths

  /** A table entry, with the device `stat` reports for its mount point, if it answers. */
  datatype Entry = Entry(dir: Path, device: Option<nat>)

  /** The entries the scan considers: they cover the directory and are on its device. */
  function Matches(table: seq<Entry>, dir: Path, device: nat): seq<Path> {
    if |table| == 0 then []
    else (if table[0].dir <= dir && table[0].device == Some(device) then [table[0].dir] else [])
         + Matches(table[1..], dir, device)
  }

  lemma {:induction false} MatchesPrefix(table: seq<Entry>, i: nat, dir: Path, device: nat)
    requires i < |table|
    ensures Matches(table[..i + 1], dir, device) == Matches(table[..i], dir, device)
         + if table[i].dir <= dir && table[i].device == Some(device) then [table[i].dir] else []
  {
    if i == 0 {
      assert table[..1] == [table[0]] && [table[0]][1..] == [] && table[..0] == [];
    } else {
      assert table[..i + 1][1..] == table[1..][..i] && table[..i][1..] == table[1..][..i - 1];
      MatchesPrefix(table[1..], i - 1, dir, device);
    }
  }

  lemma {:induction false} MatchesCover(table: seq<Entry>, dir: Path, device: nat)
    ensures forall m <- Matches(table, dir, device) ::
              m <= dir && exists e :: e in table && e.dir == m && e.device == Some(device)
    ensures forall e <- table :: e.dir <= dir && e.device == Some(device) ==> e.dir in Matches(table, dir, device)
  {
    if |table| > 0 {
      MatchesCover(table[1..], dir, device);
      assert table == [table[0]] + table[1..];
    }
  }

  /**
    The position of the answer among the matches: the last one whose text is
    longer than that of the first, because the length to beat is set at the first
    match and never again.
   */
  function Picked(matches: seq<Path>): (k: nat)
    requires |matches| > 0
    ensures k < |matches|
  {
    if |matches| == 1 then 0
    else if |Render(matches[|matches| - 1])| > |Render(matches[0])| then |matches| - 1
    else Picked(matches[..|matches| - 1])
  }

  function Answer(matches: seq<Path>): Option<Path> {
    if matches == [] then None else Some(matches[Picked(matches)])
  }

  /** The length a later match has to beat. */
  function LengthToBeat(matches: seq<Path>): nat {
    if matches == [] then 0 else |Render(matches[0])|
  }

  lemma AnswerSnoc(matches: seq<Path>, m: Path)
    ensures Answer(matches + [m]) ==
            if matches == [] || |Render(m)| > LengthToBeat(matches) then Some(m) else Answer(matches)
    ensures LengthToBeat(matches + [m]) == if matches == [] then |Render(m)| else LengthToBeat(matches)
  {
    var longer := matches + [m];
    assert longer[..|longer| - 1] == matches;
  }

  /** The mount point a directory is taken to live on; none if the directory or the table cannot be read. */
  function MountPointFor(dir: Path, dirDevice: Option<nat>, table: Option<seq<Entry>>): Option<Path> {
    if dirDevice.None? || table.None? then None else Answer(Matches(table.value, dir, dirDevice.value))
  }

  /** The scan. `None` stands for the empty string. */
  method GetMountPointOf(dir: Path, dirDevice: Option<nat>, table: Option<seq<Entry>>) returns (r: Option<Path>)
    ensures r == MountPointFor(dir, dirDevice, table)
  {
    if dirDevice.None? {
      return None;
    }
    if table.None? {
      return None;
    }
    var entries := table.value;
    var mountPoint: Option<Path> := None;
    var currMountPointLen := 0;
    ghost var matches := [];
    for i := 0 to |entries|
      invariant matches == Matches(entries[..i], dir, dirDevice.value)
      invariant mountPoint == Answer(matches) && currMountPointLen == LengthToBeat(matches)
    {
      MatchesPrefix(entries, i, dir, dirDevice.value);
      var covers := IsSubpath(entries[i].dir, dir);
      if covers && entries[i].device == dirDevice {
        AnswerSnoc(matches, entries[i].dir);
        matches := matches + [entries[i].dir];
        if mountPoint.None? {
          mountPoint := Some(entries[i].dir);
          currMountPointLen := |Render(entries[i].dir)|;
        } else {
          var newMountPointLen := |Render(entries[i].dir)|;
          if newMountPointLen > currMountPointLen {
            mountPoint := Some(entries[i].dir);
          }
        }
      }
    }
    assert entries[..|entries|] == entries;
    return mountPoint;
  }

  /** The answer is an entry that covers the directory on its device, and there is one whenever such an entry exists. */
  lemma MountPointCovers(table: seq<Entry>, dir: Path, device: nat)
    ensures
      var matches := Matches(table, dir, device);
      && (matches == [] <==> !exists e :: e in table && e.dir <= dir && e.device == Some(device))
      && (matches != [] ==>
            var m := matches[Picked(matches)];
            m <= dir && exists e :: e in table && e.dir == m && e.device == Some(device))
  {
    MatchesCover(table, dir, device);
    var matches := Matches(table, dir, device);
    if matches != [] {
      assert matches[Picked(matches)] in matches;
      assert matches[0] in matches;
    }
  }

  ghost predicate Deepest(m: Path, matches: seq<Path>) {
    forall i :: 0 <= i < |matches| ==> |matches[i]| <= |m|
  }

  lemma {:induction false} PickedMeans(matches: seq<Path>, dir: Path)
    requires |matches| > 0
    requires forall m <- matches :: m <= dir && Canonical(m)
    ensures var k := Picked(matches);
      && (k > 0 ==> |matches[k]| > |matches[0]|)
      && (forall i :: k < i < |matches| ==> |matches[i]| <= |matches[0]|)
  {
    if |matches| > 1 {
      assert matches[0] in matches && matches[|matches| - 1] in matches;
      LongerTextMeansDeeper(matches[0], matches[|matches| - 1], dir);
      var init := matches[..|matches| - 1];
      if Picked(matches) != |matches| - 1 {
        assert forall m <- init :: m in matches;
        PickedMeans(init, dir);
        assert init[0] == matches[0];
      }
    }
  }

  ghost predicate CanonicalTable(table: seq<Entry>) {
    forall e <- table :: Canonical(e.dir)
  }

  /** The entries that cover the directory on its device, as the scan meets them. */
  lemma MatchesAreCanonical(table: seq<Entry>, dir: Path, device: nat)
    requires CanonicalTable(table)
    ensures forall m <- Matches(table, dir, device) :: m <= dir && Canonical(m)
  {
    MatchesCover(table, dir, device);
  }

  /** Every entry deeper than the first that comes after a deeper one is followed by one at least as deep as that. */
  ghost predicate DepthRecovered(matches: seq<Path>) {
    forall i, j :: 0 <= i < j < |matches| && |matches[0]| < |matches[j]| < |matches[i]| ==>
      DeepAgain(matches, j, |matches[i]|)
  }

  ghost predicate DeepAgain(matches: seq<Path>, j: nat, depth: nat) {
    exists l :: j < l < |matches| && |matches[l]| > |matches[0]| && |matches[l]| >= depth
  }

  /** What `PickedMeans` says of a position. */
  ghost predicate LastDeeper(matches: seq<Path>, k: nat) {
    && k < |matches|
    && (k > 0 ==> |matches[k]| > |matches[0]|)
    && (forall i :: k < i < |matches| ==> |matches[i]| <= |matches[0]|)
  }

  lemma DeepestRecovers(matches: seq<Path>, k: nat)
    requires LastDeeper(matches, k) && Deepest(matches[k], matches)
    ensures DepthRecovered(matches)
  {
    forall i, j | 0 <= i < j < |matches| && |matches[0]| < |matches[j]| < |matches[i]|
      ensures DeepAgain(matches, j, |matches[i]|)
    {
      assert |matches[k]| >= |matches[i]|;
      assert j < k;
    }
  }

  lemma RecoveredIsDeepest(matches: seq<Path>, k: nat, i: nat)
    requires LastDeeper(matches, k) && DepthRecovered(matches) && i < |matches|
    ensures |matches[i]| <= |matches[k]|
  {
    assert forall depth :: depth > |matches[0]| ==> !DeepAgain(matches, k, depth);
  }

  lemma DeepestPickedIff(matches: seq<Path>, dir: Path)
    requires |matches| > 0 && forall m <- matches :: m <= dir && Canonical(m)
    ensures Deepest(matches[Picked(matches)], matches) <==> DepthRecovered(matches)
  {
    var k := Picked(matches);
    PickedMeans(matches, dir);
    if Deepest(matches[k], matches) {
      DeepestRecovers(matches, k);
    }
    if DepthRecovered(matches) {
      forall i | 0 <= i < |matches|
        ensures |matches[i]| <= |matches[k]|
      {
        RecoveredIsDeepest(matches, k, i);
      }
    }
  }

  /** Over every table: the deepest mount point is found exactly when depth lost after the first match is recovered. */
  lemma DeepestIff(table: seq<Entry>, dir: Path, device: nat)
    requires CanonicalTable(table) && Matches(table, dir, device) != []
    ensures
      var matches := Matches(table, dir, device);
      Deepest(Answer(matches).value, matches) <==> DepthRecovered(matches)
  {
    MatchesAreCanonical(table, dir, device);
    DeepestPickedIff(Matches(table, dir, device), dir);
  }

  /** In a table that lists parents before children the deepest mount point is found. */
  lemma SortedTableGivesDeepest(table: seq<Entry>, dir: Path, device: nat)
    requires CanonicalTable(table) && Matches(table, dir, device) != []
    requires
      var matches := Matches(table, dir, device);
      forall i, j :: 0 <= i < j < |matches| ==> |matches[i]| <= |matches[j]|
    ensures Deepest(Answer(Matches(table, dir, device)).value, Matches(table, dir, device))
  {
    DeepestIff(table, dir, device);
  }

  lemma LastPickedIff(matches: seq<Path>, dir: Path)
    requires |matches| > 0 && forall m <- matches :: m <= dir && Canonical(m)
    ensures
      var last := matches[|matches| - 1];
      matches[Picked(matches)] == last <==>
        || |last| > |matches[0]|
        || (|last| == |matches[0]| && forall i :: 0 <= i < |matches| ==> |matches[i]| <= |last|)
  {
    var k, last := Picked(matches), matches[|matches| - 1];
    PickedMeans(matches, dir);
    assert matches[0] in matches && last in matches;
    LongerTextMeansDeeper(matches[0], last, dir);
    CoversAreComparable(last, matches[0], dir);
    if |last| > |matches[0]| {
      assert k == |matches| - 1;
    }
  }

  /**
    The mount that serves the directory is the last match. The scan answers with it
    exactly when that is deeper than the first match, or as deep with none deeper.
   */
  lemma ServingMountFoundIff(table: seq<Entry>, dir: Path, device: nat)
    requires CanonicalTable(table) && Matches(table, dir, device) != []
    ensures
      var matches := Matches(table, dir, device);
      var last := matches[|matches| - 1];
      Answer(matches) == Some(last) <==>
        || |last| > |matches[0]|
        || (|last| == |matches[0]| && forall i :: 0 <= i < |matches| ==> |matches[i]| <= |last|)
  {
    MatchesAreCanonical(table, dir, device);
    LastPickedIff(Matches(table, dir, device), dir);
  }

  /** The matches of a table whose entries all match. */
  lemma {:induction false} AllMatch(table: seq<Entry>, dir: Path, device: nat)
    requires forall e <- table :: e.dir <= dir && e.device == Some(device)
    ensures Matches(table, dir, device) == seq(|table|, i requires 0 <= i < |table| => table[i].dir)
  {
    if |table| > 0 {
      assert table[0] in table && forall e <- table[1..] :: e in table;
      AllMatch(table[1..], dir, device);
    }
  }

  lemma LateParentPicked()
    ensures Picked([ROOT, ["a", "b"], ["a"], ROOT]) == 2
  {
    var matches := [ROOT, ["a", "b"], ["a"], ROOT];
    assert Body(["a"]) == Body([]) + "/" + "a";
    assert ["a"][..0] == [];
    assert |Render(["a"])| == 2 && |Render(ROOT)| == 1;
    assert matches[..3] == [ROOT, ["a", "b"], ["a"]];
    assert Picked(matches[..3]) == 2;
  }

  /**
    Otherwise the answer may be neither: a mount on a parent, made after the child was
    mounted, wins over the child, and over the root, mounted once more, which serves.
   */
  lemma LateParentWins()
    ensures
      var table := [Entry(ROOT, Some(1)), Entry(["a", "b"], Some(1)), Entry(["a"], Some(1)), Entry(ROOT, Some(1))];
      var matches := Matches(table, ["a", "b", "c"], 1);
      && CanonicalTable(table) && Answer(matches) == Some(["a"])
      && !Deepest(["a"], matches)
      && |matches| > 0 && matches[|matches| - 1] == ROOT
  {
    var dir := ["a", "b", "c"];
    var table := [Entry(ROOT, Some(1)), Entry(["a", "b"], Some(1)), Entry(["a"], Some(1)), Entry(ROOT, Some(1))];
    assert dir[..2] == ["a", "b"] && dir[..1] == ["a"];
    AllMatch(table, dir, 1);
    var matches := Matches(table, dir, 1);
    assert matches == [ROOT, ["a", "b"], ["a"], ROOT];
    LateParentPicked();
    assert |matches[1]| > |["a"]|;
  }
}
