/**
  The pass over the mount table that completes the sandbox after the plan: host
  mount points the sandbox does not show yet are mounted too.
 */
module CompletingPass {
  import opened Text
  import opened Paths
  import opened SandboxOptions
  import opened Namespace
  import opened Mounting

  datatype MountEntry = MountEntry(dir: Path, fsType: string)

  /** File systems that must not be touched, told by their type alone. */
  predicate NetworkType(fsType: string) {
    fsType in {"autofs", "cifs"} || "nfs" <= fsType || "fuse" <= fsType
  }

  predicate Skipped(root: Path, e: MountEntry) {
    EndsWith(Render(e.dir), "/proc") || NetworkType(e.fsType) || root <= e.dir
  }

  /** Which entries the pass leaves alone, and which mount points should be writable. */
  datatype Rules = Rules(skip: MountEntry -> bool, writable: Path -> bool)

  function RulesFor(root: Path, s: Settings): Rules {
    Rules(e => Skipped(root, e), d => ShouldBeWritable(s, Render(d)))
  }

  /** `fs::exists`, false also where `stat` fails. */
  predicate Exists(k: Kernel, t: Tree, p: Path) {
    k.statAnswer(p) && t(p) != Absent
  }

  /** The errors of the remount the pass moves on from. */
  predicate Tolerated(e: Errno) {
    match e
    case EACCES | EPERM | EINVAL | ENOENT | ESTALE | ENODEV => true
    case Ok | OtherError => false
  }

  /**
    What ends the process at an entry: a directory above the mount point that cannot
    be made or looked up, or an errno of the remount that is not tolerated.
   */
  predicate EndsProcess(k: Kernel, rules: Rules, e: MountEntry, a: Snapshot) {
    !rules.skip(e) && !Exists(k, a.tree, e.dir) && MountingEnds(k, e.dir, a)
  }

  predicate MountingEnds(k: Kernel, dir: Path, a: Snapshot) {
    var made := CreationOf(k, a.tree, a.calls, dir, true);
    var next := a.calls + ToMake(a.tree, dir) + 1;
    || made == Died
    || (made == Made && k.bindAnswer(next) && k.host(dir) == Directory
        && k.remountAnswer(next + 1) == OtherError)
  }

  predicate Adds(a: Log, b: Log, dir: Path, readOnly: bool) {
    b == a + [Mount(dir, Completed, dir, readOnly)]
  }

  /** What one entry of the table may do to the sandbox. */
  ghost predicate Turn(k: Kernel, rules: Rules, e: MountEntry, a: Snapshot, b: Snapshot) {
    if rules.skip(e) || Exists(k, a.tree, e.dir) then a == b
    else MountsMissing(k, e.dir, !rules.writable(e.dir), a, b)
  }

  /** An attempt at a mount point the sandbox does not show; its mode stays open if the remount is refused. */
  ghost predicate MountsMissing(k: Kernel, dir: Path, readOnly: bool, a: Snapshot, b: Snapshot) {
    && (forall p :: a.tree(p) != Absent ==> b.tree(p) == a.tree(p))
    && (b.log != a.log ==>
          && a.tree(dir) == Absent && b.tree(dir) != Absent
          && (Adds(a.log, b.log, dir, false) || Adds(a.log, b.log, dir, readOnly)))
    && (Cooperative(k) && k.host(dir) == Directory && !BelowFile(a.tree, dir) ==> Adds(a.log, b.log, dir, readOnly))
  }

  /** Entry `i` took its turn, and the process went on. */
  ghost predicate StepAt(k: Kernel, rules: Rules, table: seq<MountEntry>, trace: seq<Snapshot>, i: nat)
  {
    && i < |table| && i + 1 < |trace|
    && ParentClosed(trace[i].tree)
    && Turn(k, rules, table[i], trace[i], trace[i + 1])
    && !EndsProcess(k, rules, table[i], trace[i])
  }

  /** The first `n` entries took their turns: one snapshot before each and one at the end. */
  ghost predicate Passed(k: Kernel, rules: Rules, table: seq<MountEntry>, n: nat, trace: seq<Snapshot>) {
    n <= |table| && |trace| == n + 1 && forall i: nat :: i < n ==> StepAt(k, rules, table, trace, i)
  }

  /** One entry. */
  method CompleteOne(ns: Sandbox, s: Settings, e: MountEntry) returns (out: Outcome)
    requires ns.Valid()
    modifies ns`log, ns`tree, ns`calls
    ensures ns.Valid()
    ensures out == Done ==>
      Turn(ns.kernel, RulesFor(ns.root, s), e, Snapshot(old(ns.log), old(ns.tree), old(ns.calls)),
        Snapshot(ns.log, ns.tree, ns.calls))
    ensures out == Dead <==>
      EndsProcess(ns.kernel, RulesFor(ns.root, s), e, Snapshot(old(ns.log), old(ns.tree), old(ns.calls)))
    ensures Cooperative(ns.kernel) ==> out == Done
    ensures forall p :: ns.tree(p) == File ==> old(ns.tree)(p) == File || ns.kernel.host(p) == File
  {
    if EndsWith(Render(e.dir), "/proc") {
      return Done;
    }
    if e.fsType == "autofs" || StartsWith(e.fsType, "nfs") || e.fsType == "cifs" || StartsWith(e.fsType, "fuse") {
      return Done;
    }
    var ours := IsSubpath(ns.root, e.dir);
    if ours {
      return Done;
    }
    if ns.kernel.statAnswer(e.dir) && ns.tree(e.dir) != Absent {
      return Done;
    }
    out := MountMissing(ns, e.dir, !ShouldBeWritable(s, Render(e.dir)));
  }

  /** The mounting half of one turn: a failure before the remount only moves on to the next entry. */
  method MountMissing(ns: Sandbox, dir: Path, readOnly: bool) returns (out: Outcome)
    requires ns.Valid() && !Exists(ns.kernel, ns.tree, dir)
    modifies ns`log, ns`tree, ns`calls
    ensures ns.Valid()
    ensures out == Done ==>
      MountsMissing(ns.kernel, dir, readOnly, Snapshot(old(ns.log), old(ns.tree), old(ns.calls)),
        Snapshot(ns.log, ns.tree, ns.calls))
    ensures out == Dead <==> MountingEnds(ns.kernel, dir, Snapshot(old(ns.log), old(ns.tree), old(ns.calls)))
    ensures Cooperative(ns.kernel) ==> out == Done
    ensures forall p :: ns.tree(p) == File ==> old(ns.tree)(p) == File || ns.kernel.host(p) == File
  {
    CooperativeMissing(ns.kernel, ns.tree, ns.calls, dir);
    var made, accepted := ns.MakeAndBind(dir, dir, true, Completed, ns.tree);
    assert forall p :: dir <= p ==> dir + p[|dir|..] == p;
    if made == Died {
      return Dead;
    }
    if made == Refused {
      return Done;
    }
    if !accepted {
      return Done;
    }
    NewestIsRemounted(old(ns.log), Mount(dir, Completed, dir, false));
    var error := ns.Remount(dir, readOnly);
    out := if error == Ok || Tolerated(error) then Done else Dead;
  }

  lemma CooperativeMissing(k: Kernel, t: Tree, calls: nat, dir: Path)
    ensures Cooperative(k) ==>
      CreationOf(k, t, calls, dir, true) ==
        if if t(dir) == Absent then !BelowFile(t, dir) else t(dir) == Directory then Made else Refused
  {
    if Cooperative(k) {
      CooperativeCreation(k, t, calls, dir, true);
    }
  }

  lemma NewestIsRemounted(log: Log, m: Mount)
    ensures Serving(log + [m], m.target) == Some(|log|)
    ensures forall mode :: (log + [m])[|log| := m.(readOnly := mode)] == log + [m.(readOnly := mode)]
  {
    ServingSnoc(log, m, m.target);
  }

  /** How many entries the loop bound lets through. */
  function Reached(length: nat, num: int): nat {
    if num < 0 then 0 else if num < length then num + 1 else length
  }

  /**
    `MakeFilesystemPartiallyReadOnly(true, num)`. The table may be one that grew under
    the loop. The process ends exactly at the first entry that ends it.
   */
  method CompleteFilesystem(ns: Sandbox, s: Settings, table: seq<MountEntry>, num: int)
    returns (out: Outcome, ghost trace: seq<Snapshot>, ghost n: nat)
    requires ns.Valid()
    modifies ns`log, ns`tree, ns`calls
    ensures ns.Valid()
    ensures Passed(ns.kernel, RulesFor(ns.root, s), table, n, trace)
    ensures trace[0] == Snapshot(old(ns.log), old(ns.tree), old(ns.calls))
    ensures out == Done ==> n == Reached(|table|, num) && trace[n] == Snapshot(ns.log, ns.tree, ns.calls)
    ensures out == Dead ==>
      n < Reached(|table|, num) <= |table| && EndsProcess(ns.kernel, RulesFor(ns.root, s), table[n], trace[n])
    ensures Cooperative(ns.kernel) ==> out == Done
    ensures forall p :: ns.tree(p) == File ==> old(ns.tree)(p) == File || ns.kernel.host(p) == File
  {
    trace := [Snapshot(ns.log, ns.tree, ns.calls)];
    ghost var rules := RulesFor(ns.root, s);
    var i, count := 0, 0;
    n := 0;
    while i < |table|
      invariant 0 <= i == n == count <= Reached(|table|, num) <= |table|
      invariant ns.Valid() && Passed(ns.kernel, rules, table, i, trace)
      invariant trace[0] == Snapshot(old(ns.log), old(ns.tree), old(ns.calls))
      invariant trace[i] == Snapshot(ns.log, ns.tree, ns.calls)
      invariant forall p :: ns.tree(p) == File ==> old(ns.tree)(p) == File || ns.kernel.host(p) == File
    {
      if count > num {
        break;
      }
      count := count + 1;
      out := CompleteOne(ns, s, table[i]);
      if out == Dead {
        return;
      }
      PassedSnoc(ns.kernel, rules, table, i, trace, Snapshot(ns.log, ns.tree, ns.calls));
      trace := trace + [Snapshot(ns.log, ns.tree, ns.calls)];
      i, n := i + 1, n + 1;
    }
    out := Done;
  }

  lemma PassedSnoc(
      k: Kernel, rules: Rules, table: seq<MountEntry>, n: nat, trace: seq<Snapshot>, next: Snapshot)
    requires n < |table| && Passed(k, rules, table, n, trace) && ParentClosed(trace[n].tree)
    requires Turn(k, rules, table[n], trace[n], next) && !EndsProcess(k, rules, table[n], trace[n])
    ensures Passed(k, rules, table, n + 1, trace + [next])
  {
    var longer := trace + [next];
    forall i: nat | i < n + 1
      ensures StepAt(k, rules, table, longer, i)
    {
      if i < n {
        assert StepAt(k, rules, table, trace, i);
      }
      assert longer[i] == trace[i] && longer[i + 1] == if i < n then trace[i + 1] else next;
    }
  }

  // ----- the pass never shadows -----

  /**
    Whatever the table and the kernel: a path the sandbox showed before the pass
    shows the same at every later point of it, through the same mount in the same
    mode. The log only gets longer.
   */
  lemma {:induction false} PassNeverShadows(
      k: Kernel, rules: Rules, table: seq<MountEntry>, n: nat, trace: seq<Snapshot>, i: nat, p: Path)
    requires Passed(k, rules, table, n, trace) && i <= n && trace[0].tree(p) != Absent
    ensures
      var first, later := trace[0], trace[i];
      && first.log <= later.log
      && later.tree(p) == first.tree(p)
      && Serving(later.log, p) == Serving(first.log, p)
      && HostPath(later.log, p) == HostPath(first.log, p)
    decreases i
  {
    if i > 0 {
      PassNeverShadows(k, rules, table, n, trace, i - 1, p);
      assert StepAt(k, rules, table, trace, i - 1);
      TurnNeverShadows(k, rules, table[i - 1], trace[i - 1], trace[i], p);
    }
  }

  lemma TurnNeverShadows(k: Kernel, rules: Rules, e: MountEntry, a: Snapshot, b: Snapshot, p: Path)
    requires Turn(k, rules, e, a, b) && ParentClosed(a.tree) && a.tree(p) != Absent
    ensures a.log <= b.log && b.tree(p) == a.tree(p) && Serving(b.log, p) == Serving(a.log, p)
  {
    if b.log != a.log {
      NothingBelowAbsent(a.tree, e.dir, p);
      ServingSnoc(a.log, b.log[|a.log|], p);
    }
  }

  /** A mount of a table entry on its own path, absent before, read-only only where it should be. */
  ghost predicate Missing(rules: Rules, table: seq<MountEntry>, before: Tree, m: Mount) {
    && m.policy == Completed && m.source == m.target && before(m.target) == Absent
    && (m.readOnly ==> !rules.writable(m.target))
    && exists e <- table :: e.dir == m.target && !rules.skip(e)
  }

  lemma WidenTable(rules: Rules, some: seq<MountEntry>, all: seq<MountEntry>, before: Tree, m: Mount)
    requires Missing(rules, some, before, m) && forall e <- some :: e in all
    ensures Missing(rules, all, before, m)
  {
    var e :| e in some && e.dir == m.target && !rules.skip(e);
    assert e in all;
  }

  lemma TurnAddsOnlyMissing(
      k: Kernel, rules: Rules, e: MountEntry, before: Tree, a: Snapshot, b: Snapshot)
    requires Turn(k, rules, e, a, b)
    requires forall p :: before(p) != Absent ==> a.tree(p) != Absent
    ensures a.log <= b.log && |b.log| <= |a.log| + 1
    ensures forall p :: before(p) != Absent ==> b.tree(p) != Absent
    ensures |b.log| > |a.log| ==> Missing(rules, [e], before, b.log[|a.log|])
  {
    assert e in [e];
  }

  /** The pass adds only mounts of missing mount points, and takes nothing away from the tree. */
  lemma {:induction false} PassAddsOnlyMissing(
      k: Kernel, rules: Rules, table: seq<MountEntry>, n: nat, trace: seq<Snapshot>, i: nat)
    requires Passed(k, rules, table, n, trace) && i <= n
    ensures
      var first, later := trace[0], trace[i];
      && first.log <= later.log
      && (forall p :: first.tree(p) != Absent ==> later.tree(p) != Absent)
      && (forall j :: |first.log| <= j < |later.log| ==> Missing(rules, table[..i], first.tree, later.log[j]))
    decreases i
  {
    if i > 0 {
      var first, mid, later := trace[0], trace[i - 1], trace[i];
      PassAddsOnlyMissing(k, rules, table, n, trace, i - 1);
      assert StepAt(k, rules, table, trace, i - 1);
      TurnAddsOnlyMissing(k, rules, table[i - 1], first.tree, mid, later);
      assert table[..i] == table[..i - 1] + [table[i - 1]];
      forall j | |first.log| <= j < |later.log|
        ensures Missing(rules, table[..i], first.tree, later.log[j])
      {
        if j < |mid.log| {
          assert later.log[j] == mid.log[j];
          WidenTable(rules, table[..i - 1], table[..i], first.tree, mid.log[j]);
        } else {
          WidenTable(rules, [table[i - 1]], table[..i], first.tree, later.log[j]);
        }
      }
    }
  }

  /**
    The pass does complete: with a kernel that refuses nothing, a directory of the host
    that is a mount point of the table, not to be skipped and not below a file when its
    turn comes, is there from then on.
   */
  lemma {:induction false} PassCompletes(
      k: Kernel, rules: Rules, table: seq<MountEntry>, n: nat, trace: seq<Snapshot>, i: nat, later: nat)
    requires Passed(k, rules, table, n, trace) && i < later <= n && Cooperative(k)
    requires !rules.skip(table[i]) && k.host(table[i].dir) == Directory && !BelowFile(trace[i].tree, table[i].dir)
    ensures trace[later].tree(table[i].dir) != Absent
    decreases later
  {
    assert StepAt(k, rules, table, trace, later - 1);
    if i < later - 1 {
      PassCompletes(k, rules, table, n, trace, i, later - 1);
    }
  }
}
