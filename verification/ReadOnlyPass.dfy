/**
  The pass that remounts the host's own mount points read-only, in place, when the
  sandbox does not change its root.
 */
module ReadOnlyPass {
  import opened Text
  import opened Paths
  import opened SandboxOptions
  import opened Namespace
  import opened Mounting
  import opened CompletingPass

  datatype Flag = NoDev | NoExec | NoSuid | NoAtime | NoDirAtime | RelAtime

  /** What the mount table says of a mount point besides its path. */
  datatype Mode = Mode(readOnly: bool, flags: set<Flag>)

  /**
    A pass: its mount points, the kernel's answer for each, what is passed over and what
    should be writable, and after how many turns the line of each entry was read, which
    a buffered reader does ahead of its turn.
   */
  datatype Pass = Pass(
    dirs: seq<Path>, answers: nat -> Errno, skip: Path -> bool, writable: Path -> bool, readAt: nat -> nat)

  function PassFor(dirs: seq<Path>, answers: nat -> Errno, s: Settings, readAt: nat -> nat): Pass {
    Pass(dirs, answers, d => EndsWith(Render(d), "/proc"), d => ShouldBeWritable(s, Render(d)), readAt)
  }

  function Lower(a: nat, b: nat): nat {
    if a < b then a else b
  }

  /** How many turns had been taken when the line of entry `i` was read. */
  function ReadAt(pass: Pass, i: nat): (n: nat)
    ensures n <= i
  {
    Lower(pass.readAt(i), i)
  }

  /** No later entry is for the same mount point, so a remount there reaches this one. */
  predicate OnTop(dirs: seq<Path>, i: nat) {
    i < |dirs| && forall j :: i < j < |dirs| ==> dirs[j] != dirs[i]
  }

  /** The modes once the entry on top of a mount point has a new one. */
  function Replaced(dirs: seq<Path>, modes: seq<Mode>, dir: Path, mode: Mode): (r: seq<Mode>)
    requires |modes| == |dirs|
    ensures |r| == |dirs|
  {
    seq(|dirs|, i requires 0 <= i < |dirs| => if dirs[i] == dir && OnTop(dirs, i) then mode else modes[i])
  }

  /** One turn is taken for the entry, and the kernel agrees. */
  predicate Accepted(pass: Pass, i: nat)
    requires i < |pass.dirs|
  {
    !pass.skip(pass.dirs[i]) && pass.answers(i) == Ok
  }

  predicate Fatal(pass: Pass, i: nat)
    requires i < |pass.dirs|
  {
    !pass.skip(pass.dirs[i]) && pass.answers(i) == OtherError
  }

  /** The modes after the first `n` turns. */
  function AfterTurns(pass: Pass, modes: seq<Mode>, n: nat): (r: seq<Mode>)
    requires n <= |pass.dirs| == |modes|
    ensures |r| == |modes|
  {
    if n == 0 then modes
    else
      var before, dir := AfterTurns(pass, modes, n - 1), pass.dirs[n - 1];
      if Accepted(pass, n - 1)
      then
        var line := AfterTurns(pass, modes, ReadAt(pass, n - 1))[n - 1];
        Replaced(pass.dirs, before, dir, Mode(!pass.writable(dir), line.flags))
      else before
  }

  /** The mount table of the namespace, and the kernel's answer to the remount asked for each entry. */
  class HostMounts {
    const pass: Pass
    var modes: seq<Mode>

    predicate Valid()
      reads this
    {
      |modes| == |pass.dirs|
    }

    constructor (dirs: seq<Path>, modes: seq<Mode>, answers: nat -> Errno, s: Settings, readAt: nat -> nat)
      requires |modes| == |dirs|
      ensures Valid() && pass == PassFor(dirs, answers, s, readAt) && this.modes == modes
    {
      pass, this.modes := PassFor(dirs, answers, s, readAt), modes;
    }

    /** `CountMounts`. */
    method CountMounts() returns (n: int)
      ensures n == |pass.dirs|
    {
      n := 0;
      while n < |pass.dirs|
        invariant 0 <= n <= |pass.dirs|
      {
        n := n + 1;
      }
    }

    /** The flags a remount asks for, one test after the other. */
    static method FlagsOf(m: Mode) returns (flags: set<Flag>)
      ensures flags == m.flags
    {
      flags := {};
      if NoDev in m.flags { flags := flags + {NoDev}; }
      if NoExec in m.flags { flags := flags + {NoExec}; }
      if NoSuid in m.flags { flags := flags + {NoSuid}; }
      if NoAtime in m.flags { flags := flags + {NoAtime}; }
      if NoDirAtime in m.flags { flags := flags + {NoDirAtime}; }
      if RelAtime in m.flags { flags := flags + {RelAtime}; }
      forall f | f in m.flags
        ensures f in flags
      {
        match f
        case NoDev | NoExec | NoSuid | NoAtime | NoDirAtime | RelAtime =>
      }
    }

    /** `mount(nullptr, dir, nullptr, flags, nullptr)` for the i-th entry. */
    method Remount(i: nat, dir: Path, mode: Mode) returns (e: Errno)
      requires Valid()
      modifies this
      ensures Valid() && e == pass.answers(i)
      ensures modes == if e == Ok then Replaced(pass.dirs, old(modes), dir, mode) else old(modes)
    {
      e := pass.answers(i);
      if e == Ok {
        modes := Replaced(pass.dirs, modes, dir, mode);
      }
    }

    /** One turn, with the line that was read for the entry. */
    method TakeTurn(i: nat, line: Mode) returns (out: Outcome)
      requires Valid() && i < |pass.dirs|
      modifies this
      ensures Valid() && (out == Dead <==> Fatal(pass, i))
      ensures modes ==
        if Accepted(pass, i)
        then Replaced(pass.dirs, old(modes), pass.dirs[i], Mode(!pass.writable(pass.dirs[i]), line.flags))
        else old(modes)
    {
      var dir := pass.dirs[i];
      if pass.skip(dir) {
        return Done;
      }
      var flags := FlagsOf(line);
      var error := Remount(i, dir, Mode(!pass.writable(dir), flags));
      out := if error != Ok && !Tolerated(error) then Dead else Done;
    }

    /**
      `MakeFilesystemPartiallyReadOnly(false, num)`: it dies exactly on an errno it
      does not tolerate; else one turn was taken for each of the first `num + 1`
      entries. `tables` holds the table as it was before each turn so far, for lines
      read ahead.
     */
    method MakeReadOnly(num: int) returns (out: Outcome)
      requires Valid()
      modifies this
      ensures Valid()
      ensures out == Dead <==> exists i: nat :: i < Reached(|pass.dirs|, num) && Fatal(pass, i)
      ensures out == Done ==> modes == AfterTurns(pass, old(modes), Reached(|pass.dirs|, num))
    {
      var i, count, tables := 0, 0, [modes];
      while i < |pass.dirs|
        invariant 0 <= i == count <= Reached(|pass.dirs|, num) <= |pass.dirs|
        invariant Valid() && TablesSoFar(pass, old(modes), i, tables) && tables[i] == modes
        invariant forall j: nat :: j < i ==> !Fatal(pass, j)
      {
        if count > num {
          break;
        }
        count := count + 1;
        TablesGrow(pass, old(modes), i, tables);
        out := TakeTurn(i, tables[ReadAt(pass, i)][i]);
        if out == Dead {
          assert Fatal(pass, i);
          return;
        }
        i, tables := i + 1, tables + [modes];
      }
      out := Done;
    }
  }

  /** The tables before the turns so far. */
  ghost predicate TablesSoFar(pass: Pass, modes: seq<Mode>, n: nat, tables: seq<seq<Mode>>) {
    && n <= |pass.dirs| == |modes| && |tables| == n + 1
    && forall m: nat :: m <= n ==> TableAt(pass, modes, m, tables[m])
  }

  ghost predicate TableAt(pass: Pass, modes: seq<Mode>, m: nat, table: seq<Mode>) {
    m <= |pass.dirs| == |modes| && table == AfterTurns(pass, modes, m)
  }

  lemma TablesGrow(pass: Pass, modes: seq<Mode>, n: nat, tables: seq<seq<Mode>>)
    requires TablesSoFar(pass, modes, n, tables) && n < |pass.dirs|
    ensures forall m: nat :: m <= n ==> |tables[m]| == |modes|
    ensures
      var line, dir := tables[ReadAt(pass, n)][n], pass.dirs[n];
      var next :=
        if Accepted(pass, n) then Replaced(pass.dirs, tables[n], dir, Mode(!pass.writable(dir), line.flags))
        else tables[n];
      TablesSoFar(pass, modes, n + 1, tables + [next])
  {
    assert TableAt(pass, modes, n, tables[n]);
    assert TableAt(pass, modes, ReadAt(pass, n), tables[ReadAt(pass, n)]);
    forall m: nat | m <= n
      ensures |tables[m]| == |modes|
    {
      assert TableAt(pass, modes, m, tables[m]);
    }
  }

  /** A remount of the mount point was asked for in the first `n` turns and accepted. */
  ghost predicate RemountedBy(pass: Pass, n: nat, dir: Path)
    requires n <= |pass.dirs|
  {
    exists j: nat :: j < n && pass.dirs[j] == dir && Accepted(pass, j)
  }

  lemma OneMoreTurn(pass: Pass, n: nat, dir: Path)
    requires 0 < n <= |pass.dirs|
    ensures RemountedBy(pass, n, dir)
       <==> RemountedBy(pass, n - 1, dir) || (pass.dirs[n - 1] == dir && Accepted(pass, n - 1))
  {
  }

  /**
    Modes, for every table and every kernel: an entry on top of its mount point ends
    up as it should be exactly when a remount there was accepted; an entry hidden by
    another keeps its mode.
   */
  lemma {:induction false} ModesAfterPass(pass: Pass, modes: seq<Mode>, n: nat, i: nat)
    requires n <= |pass.dirs| == |modes| && i < |modes|
    ensures
      var dir := pass.dirs[i];
      AfterTurns(pass, modes, n)[i].readOnly
        == if OnTop(pass.dirs, i) && RemountedBy(pass, n, dir) then !pass.writable(dir) else modes[i].readOnly
  {
    if n > 0 {
      ModesAfterPass(pass, modes, n - 1, i);
      OneMoreTurn(pass, n, pass.dirs[i]);
    }
  }

  /** The last of the first `n` turns that was accepted for the mount point. */
  function LastAccepted(pass: Pass, n: nat, dir: Path): (r: Option<nat>)
    requires n <= |pass.dirs|
    ensures r.Some? ==> r.value < n && pass.dirs[r.value] == dir && Accepted(pass, r.value)
    ensures forall j: nat :: (if r.Some? then r.value + 1 else 0) <= j < n ==>
      !(pass.dirs[j] == dir && Accepted(pass, j))
  {
    if n == 0 then None
    else if pass.dirs[n - 1] == dir && Accepted(pass, n - 1) then Some(n - 1)
    else LastAccepted(pass, n - 1, dir)
  }

  /** How much of the pass bears on an entry's flags: what came before its line was read, if its turn was accepted. */
  function Bearing(pass: Pass, n: nat, i: nat): (m: nat)
    requires n <= |pass.dirs| && i < |pass.dirs|
    ensures m <= n && m <= i
  {
    if i < n && Accepted(pass, i) then ReadAt(pass, i) else Lower(n, i)
  }

  /** Where the flags of an entry on top come from: the last accepted lower entry of its mount point that bears. */
  function FlagsFrom(pass: Pass, n: nat, i: nat): nat
    requires n <= |pass.dirs| && i < |pass.dirs|
  {
    var lower := LastAccepted(pass, Bearing(pass, n, i), pass.dirs[i]);
    if OnTop(pass.dirs, i) && lower.Some? then lower.value else i
  }

  /** The n-th turn sets the flags of entry `i`. */
  predicate SetsFlags(pass: Pass, n: nat, i: nat)
    requires 0 < n <= |pass.dirs| && i < |pass.dirs|
  {
    pass.dirs[n - 1] == pass.dirs[i] && OnTop(pass.dirs, i) && Accepted(pass, n - 1)
  }

  lemma TurnSetsFlags(pass: Pass, modes: seq<Mode>, n: nat, i: nat)
    requires 0 < n <= |pass.dirs| == |modes| && i < |modes|
    ensures AfterTurns(pass, modes, n)[i].flags ==
      if SetsFlags(pass, n, i) then AfterTurns(pass, modes, ReadAt(pass, n - 1))[n - 1].flags
      else AfterTurns(pass, modes, n - 1)[i].flags
  {
  }

  /**
    Flags, for every table, every kernel and every way of reading ahead: an entry
    hidden by another keeps its flags; one on top ends up with those of the last entry
    below it, of the same mount point, whose turn was accepted, before its own line was
    read if its own turn was accepted too, and keeps its own if there is none.
   */
  lemma {:induction false} FlagsAfterPass(pass: Pass, modes: seq<Mode>, n: nat, i: nat)
    requires n <= |pass.dirs| == |modes| && i < |modes|
    ensures AfterTurns(pass, modes, n)[i].flags == modes[FlagsFrom(pass, n, i)].flags
    decreases n
  {
    if n > 0 {
      FlagsAfterPass(pass, modes, n - 1, i);
      TurnSetsFlags(pass, modes, n, i);
      if SetsFlags(pass, n, i) {
        FlagsAfterPass(pass, modes, ReadAt(pass, n - 1), n - 1);
        assert n - 1 < i ==> !OnTop(pass.dirs, n - 1);
      }
    }
  }

  /**
    So flags are kept exactly by hidden entries, by entries with no accepted turn below
    that bears on them, and where the flags of the last such entry agree.
   */
  lemma FlagsAreKeptIff(pass: Pass, modes: seq<Mode>, n: nat, i: nat)
    requires n <= |pass.dirs| == |modes| && i < |modes|
    ensures
      var m := Bearing(pass, n, i);
      AfterTurns(pass, modes, n)[i].flags == modes[i].flags <==>
        || !OnTop(pass.dirs, i)
        || (forall j: nat :: j < m && pass.dirs[j] == pass.dirs[i] ==> !Accepted(pass, j))
        || (exists j: nat ::
              && j < m && pass.dirs[j] == pass.dirs[i] && Accepted(pass, j) && modes[j].flags == modes[i].flags
              && forall l: nat :: j < l < m && pass.dirs[l] == pass.dirs[i] ==> !Accepted(pass, l))
  {
    FlagsAfterPass(pass, modes, n, i);
    var lower := LastAccepted(pass, Bearing(pass, n, i), pass.dirs[i]);
    if lower.Some? {
      assert pass.dirs[lower.value] == pass.dirs[i] && Accepted(pass, lower.value);
    }
  }

  /**
    Otherwise a flag can go: the lower entry's flags are put on the upper one, and the
    upper one's own turn does not put them back if its line was read only then, or if
    it is refused.
   */
  lemma RepeatedMountPointLosesFlags(pass: Pass, dir: Path)
    requires pass.dirs == [dir, dir] && Accepted(pass, 0) && (Accepted(pass, 1) ==> pass.readAt(1) > 0)
    ensures AfterTurns(pass, [Mode(false, {}), Mode(false, {NoDev})], 2)[1].flags == {}
  {
    var modes := [Mode(false, {}), Mode(false, {NoDev})];
    FlagsAfterPass(pass, modes, 2, 1);
    assert Bearing(pass, 2, 1) == 1;
    assert LastAccepted(pass, 1, dir) == Some(0);
  }

  lemma WithoutRepeats(pass: Pass, modes: seq<Mode>, i: nat)
    requires i < |pass.dirs| == |modes| && forall a, b :: 0 <= a < b < |modes| ==> pass.dirs[a] != pass.dirs[b]
    ensures AfterTurns(pass, modes, |modes|)[i]
         == if Accepted(pass, i) then Mode(!pass.writable(pass.dirs[i]), modes[i].flags) else modes[i]
  {
    ModesAfterPass(pass, modes, |modes|, i);
    FlagsAfterPass(pass, modes, |modes|, i);
    assert LastAccepted(pass, Bearing(pass, |modes|, i), pass.dirs[i]) == None;
    assert RemountedBy(pass, |modes|, pass.dirs[i]) <==> Accepted(pass, i);
  }

  /**
    The whole pass with the bound it is given, on a table without repeated mount
    points: every entry is reached, and one that does not end in /proc and was not
    refused is read-only unless it should be writable, with the flags it had.
   */
  lemma {:induction false} ReadOnlyAfterPass(
      dirs: seq<Path>, modes: seq<Mode>, s: Settings, answers: nat -> Errno, readAt: nat -> nat, i: nat)
    requires i < |dirs| == |modes| && forall a, b :: 0 <= a < b < |dirs| ==> dirs[a] != dirs[b]
    ensures Reached(|dirs|, |dirs|) == |dirs|
    ensures
      AfterTurns(PassFor(dirs, answers, s, readAt), modes, |dirs|)[i] ==
        if EndsWith(Render(dirs[i]), "/proc") || answers(i) != Ok then modes[i]
        else Mode(!ShouldBeWritable(s, Render(dirs[i])), modes[i].flags)
  {
    WithoutRepeats(PassFor(dirs, answers, s, readAt), modes, i);
  }

  /** On canonical paths both tests of the pass ask for components. */
  lemma {:induction false} TestsAskForComponents(
      dirs: seq<Path>, s: Settings, answers: nat -> Errno, readAt: nat -> nat, dir: Path)
    requires Canonical(dir) && CanonicalSettings(s)
    ensures
      var pass := PassFor(dirs, answers, s, readAt);
      && (pass.skip(dir) <==> |dir| > 0 && Last(dir) == "proc")
      && (pass.writable(dir) <==> WritablePath(s, dir))
  {
    ShouldBeWritableIff(s, dir);
    EndsWithComponent(dir, "proc");
    assert "/" + "proc" == "/proc";
  }
}
