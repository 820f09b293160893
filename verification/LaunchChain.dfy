/**
  The launch protocol in library mode. The original process forks a chain of
  waiters that ends in the sandboxed process; each waiter sleeps until the next
  one is gone and passes its exit code on. The sandboxed process records in the
  init file that it finished its set-up, and the original process decides from
  that file whether the start failed or the sandboxed program is over.
 */
module LaunchChain {
  import opened Text

  const EXIT_FAILURE: nat := 1
  const EXIT_MINUS_ONE: nat := 255   // what exit(-1) leaves of its argument

  datatype Status = Exited(code: nat) | Signaled

  datatype Process = Absent | Alive | Dead(status: Status)

  /** The init file: "0", then truncated, then "1". */
  datatype InitFile = Zero | Empty | One

  /** How a waiter passes an exit code on: as it is, or 0 when the init file still reads "0". */
  datatype Role = Relay | Checker

  datatype Outcome = Undecided | Returns(value: int) | Exits(code: nat)

  /** Processes 0 to n-1 are the waiters, process n is the sandboxed one. */
  datatype State = State(roles: seq<Role>, processes: seq<Process>, file: InitFile, outcome: Outcome)

  /** libmini-sandbox: one waiter between the original and the sandboxed process. */
  const PLAIN: seq<Role> := [Relay]

  /** libmini-tapbox: two more, one of them the process that started the tap. */
  const TAP: seq<Role> := [Relay, Checker, Relay]

  datatype Event =
    | Fork(i: nat)
    | ForkFails(other: Option<Status>)   // the original cannot fork; how another child it has ends, if any
    | GiveUp(i: nat, code: nat)   // a waiter exits before it forks the next process
    | Truncate                    // InitDone opens the init file
    | Write                       // InitDone writes "1"
    | End(status: Status)         // the sandboxed process is over
    | Reap(i: nat)
    | Decide
    | Kill(i: nat)                // a waiter is killed from outside

  function Start(roles: seq<Role>): State {
    State(roles, seq(|roles| + 1, i => Absent), Zero, Undecided)
  }

  function Inner(s: State): nat {
    |s.roles|
  }

  predicate WellFormed(s: State) {
    |s.processes| == |s.roles| + 1
  }

  predicate Enabled(s: State, e: Event)
    requires WellFormed(s)
  {
    match e
    case Fork(i) =>
      && i <= Inner(s) && s.processes[i] == Absent
      && if i == 0 then s.outcome == Undecided else s.processes[i - 1] == Alive
    case ForkFails(_) => s.processes[0] == Absent && s.outcome == Undecided
    case GiveUp(i, _) => i < Inner(s) && s.processes[i] == Alive && s.processes[i + 1] == Absent
    case Truncate => s.processes[Inner(s)] == Alive && s.file == Zero
    case Write => s.processes[Inner(s)] == Alive && s.file == Empty
    case End(_) => s.processes[Inner(s)] == Alive
    case Reap(i) => i < Inner(s) && s.processes[i] == Alive && s.processes[i + 1].Dead?
    case Decide => s.outcome == Undecided && s.processes[0].Dead?
    case Kill(i) => i < Inner(s) && s.processes[i] == Alive
  }

  /** The code a process exits with after waiting for a child with this status. */
  function Passed(status: Status): nat {
    if status.Exited? then status.code else EXIT_FAILURE
  }

  function WaiterCode(role: Role, status: Status, file: InitFile): nat {
    if role == Checker && status.Exited? && file == Zero then 0 else Passed(status)
  }

  /** The original process: a failed start is an error return, everything else an exit. */
  function Verdict(status: Status, file: InitFile): Outcome {
    if status.Exited? && file == Zero then Returns(-1) else Exits(Passed(status))
  }

  /**
    What becomes of the original when its first fork fails. Without a tap it exits at
    once. On the way to a tap, told here by the checker in the chain, it does not look:
    it waits for any child it has, exits with 1 if there is none, and else takes the end
    of that child for the end of its first waiter.
   */
  function AfterFailedFork(roles: seq<Role>, other: Option<Status>): Outcome {
    if Checker !in roles then Exits(EXIT_MINUS_ONE)
    else match other
      case None => Exits(EXIT_FAILURE)
      case Some(status) => Verdict(status, Zero)
  }

  predicate NoForkFails(events: seq<Event>) {
    forall e <- events :: !e.ForkFails?
  }

  function Next(s: State, e: Event): (r: State)
    requires WellFormed(s) && Enabled(s, e)
    ensures WellFormed(r) && r.roles == s.roles
  {
    match e
    case Fork(i) => s.(processes := s.processes[i := Alive])
    case ForkFails(other) => s.(outcome := AfterFailedFork(s.roles, other))
    case GiveUp(i, code) => s.(processes := s.processes[i := Dead(Exited(code))])
    case Truncate => s.(file := Empty)
    case Write => s.(file := One)
    case End(status) => s.(processes := s.processes[Inner(s) := Dead(status)])
    case Reap(i) =>
      var code := WaiterCode(s.roles[i], s.processes[i + 1].status, s.file);
      s.(processes := s.processes[i := Dead(Exited(code))])
    case Decide => s.(outcome := Verdict(s.processes[0].status, s.file))
    case Kill(i) => s.(processes := s.processes[i := Dead(Signaled)])
  }

  predicate Possible(s: State, events: seq<Event>)
    requires WellFormed(s)
    decreases |events|
  {
    |events| > 0 ==> Enabled(s, events[0]) && Possible(Next(s, events[0]), events[1..])
  }

  function Run(s: State, events: seq<Event>): (r: State)
    requires WellFormed(s) && Possible(s, events)
    ensures WellFormed(r) && r.roles == s.roles
    decreases |events|
  {
    if |events| == 0 then s else Run(Next(s, events[0]), events[1..])
  }

  predicate NoWaiterKilled(events: seq<Event>) {
    forall e <- events :: !e.Kill?
  }

  // ----- what every run keeps -----

  ghost predicate Invariant(s: State) {
    && WellFormed(s)
    && (s.file != Zero ==> s.processes[Inner(s)] != Absent)
    && (forall i :: 0 <= i < Inner(s) && s.processes[i] == Absent ==> s.processes[i + 1] == Absent)
    && (forall i :: 0 <= i < Inner(s) && s.processes[i].Dead? ==>
          && s.processes[i + 1] != Alive
          && s.processes[i].status.Exited?
          && (s.processes[i + 1] == Absent ==> s.file == Zero)
          && (s.file != Zero ==>
                && s.processes[Inner(s)].Dead?
                && s.processes[i].status == Exited(Passed(s.processes[Inner(s)].status))))
    && (s.outcome != Undecided ==>
          s.processes[0] == Absent || (s.processes[0].Dead? && s.outcome == Verdict(s.processes[0].status, s.file)))
  }

  /** Without a process in between, none further down the chain exists. */
  lemma {:induction false} AbsentFrom(s: State, i: nat)
    requires Invariant(s) && i <= Inner(s) && s.processes[i] == Absent
    ensures s.processes[Inner(s)] == Absent
    decreases Inner(s) - i
  {
    if i < Inner(s) {
      AbsentFrom(s, i + 1);
    }
  }

  /** Every process above a live one is alive. */
  lemma {:induction false} AliveAbove(s: State, i: nat)
    requires Invariant(s) && i <= Inner(s) && s.processes[i] == Alive
    ensures forall j :: 0 <= j <= i ==> s.processes[j] == Alive
    ensures s.outcome == Undecided
  {
    if i > 0 {
      AliveAbove(s, i - 1);
    }
  }

  /** A process that is over leaves the chain in order. */
  lemma EndingKeepsInvariant(s: State, i: nat, status: Status)
    requires Invariant(s) && i <= Inner(s) && s.processes[i] == Alive && s.outcome == Undecided
    requires forall j :: 0 <= j <= i ==> s.processes[j] == Alive
    requires i < Inner(s) ==>
      && s.processes[i + 1] != Alive
      && status.Exited?
      && (s.processes[i + 1] == Absent ==> s.file == Zero)
      && (s.file != Zero ==>
            && s.processes[Inner(s)].Dead?
            && status == Exited(Passed(s.processes[Inner(s)].status)))
    ensures Invariant(s.(processes := s.processes[i := Dead(status)]))
  {
    var s' := s.(processes := s.processes[i := Dead(status)]);
    forall j | 0 <= j < Inner(s) && s'.processes[j].Dead?
      ensures
        && s'.processes[j + 1] != Alive
        && s'.processes[j].status.Exited?
        && (s'.processes[j + 1] == Absent ==> s'.file == Zero)
        && (s'.file != Zero ==>
              && s'.processes[Inner(s)].Dead?
              && s'.processes[j].status == Exited(Passed(s'.processes[Inner(s)].status)))
    {
      assert j >= i;
      if j > i {
        assert s'.processes[j] == s.processes[j] && s'.processes[j + 1] == s.processes[j + 1];
      }
    }
  }

  lemma ForkKeepsInvariant(s: State, i: nat)
    requires Invariant(s) && Enabled(s, Fork(i))
    ensures Invariant(Next(s, Fork(i)))
  {
    if i > 0 {
      AliveAbove(s, i - 1);
    }
    AbsentFrom(s, i);
    var s' := Next(s, Fork(i));
    forall j | 0 <= j < Inner(s) && s'.processes[j].Dead?
      ensures s.processes[j].Dead? && j + 1 != i
    {
    }
  }

  lemma DecidingKeepsInvariant(s: State, e: Event)
    requires Invariant(s) && Enabled(s, e) && (e == Decide || e.ForkFails?)
    ensures Invariant(Next(s, e))
  {
  }

  lemma OpeningKeepsInvariant(s: State, e: Event)
    requires Invariant(s) && Enabled(s, e) && (e == Truncate || e == Write)
    ensures Invariant(Next(s, e))
  {
    AliveAbove(s, Inner(s));
  }

  lemma NextKeepsInvariant(s: State, e: Event)
    requires Invariant(s) && Enabled(s, e) && !e.Kill?
    ensures Invariant(Next(s, e))
  {
    match e
    case Fork(i) => ForkKeepsInvariant(s, i);
    case ForkFails(_) => DecidingKeepsInvariant(s, e);
    case GiveUp(i, code) =>
      AliveAbove(s, i);
      AbsentFrom(s, i + 1);
      EndingKeepsInvariant(s, i, Exited(code));
    case Truncate => OpeningKeepsInvariant(s, e);
    case Write => OpeningKeepsInvariant(s, e);
    case End(status) =>
      AliveAbove(s, Inner(s));
      EndingKeepsInvariant(s, Inner(s), status);
    case Reap(i) =>
      AliveAbove(s, i);
      EndingKeepsInvariant(s, i, Exited(WaiterCode(s.roles[i], s.processes[i + 1].status, s.file)));
    case Decide => DecidingKeepsInvariant(s, e);
  }

  lemma {:induction false} RunKeepsInvariant(s: State, events: seq<Event>)
    requires Invariant(s) && Possible(s, events) && NoWaiterKilled(events)
    ensures Invariant(Run(s, events))
    decreases |events|
  {
    if |events| > 0 {
      NextKeepsInvariant(s, events[0]);
      RunKeepsInvariant(Next(s, events[0]), events[1..]);
    }
  }

  /** The init file leaves "0" exactly when the sandboxed process opens it. */
  lemma {:induction false} FileRecordsInitDone(s: State, events: seq<Event>)
    requires WellFormed(s) && Possible(s, events)
    ensures Run(s, events).file == Zero <==> s.file == Zero && Truncate !in events
    decreases |events|
  {
    if |events| > 0 {
      FileRecordsInitDone(Next(s, events[0]), events[1..]);
      assert events == [events[0]] + events[1..];
    }
  }

  /** A failed first fork is the end of the matter: it decides the outcome and nothing else ever exists. */
  lemma {:induction false} ForkFailureIsFinal(s: State, events: seq<Event>)
    requires WellFormed(s) && Possible(s, events)
    requires s.processes[0] == Absent ==> forall i :: 0 <= i <= Inner(s) ==> s.processes[i] == Absent
    ensures s.processes[0] != Absent || s.outcome != Undecided ==> NoForkFails(events)
    ensures
      var f := Run(s, events);
      && (s.outcome != Undecided ==> f.outcome == s.outcome)
      && (f.processes[0] == Absent ==> forall i :: 0 <= i <= Inner(s) ==> f.processes[i] == Absent)
      && (f.processes[0] == Absent && f.outcome != Undecided <==>
            s.processes[0] == Absent && (!NoForkFails(events) || s.outcome != Undecided))
      && (forall e <- events :: e.ForkFails? ==> f.outcome == AfterFailedFork(s.roles, e.other))
    decreases |events|
  {
    if |events| > 0 {
      ForkFailureIsFinal(Next(s, events[0]), events[1..]);
      assert events == [events[0]] + events[1..];
    }
  }

  /**
    The launch outcome, for a chain of any length and every interleaving in which
    no waiter is killed. Once the original process has decided, the sandboxed
    process is gone or never existed. If the first fork worked, the start returned -1
    exactly when that process never reached InitDone; otherwise the original process
    exits with the code of the sandboxed one, or with 1 if a signal ended it. If it
    failed, `AfterFailedFork` says what happens.
   */
  lemma LaunchOutcome(roles: seq<Role>, events: seq<Event>)
    requires |roles| > 0
    requires Possible(Start(roles), events) && NoWaiterKilled(events)
    requires Run(Start(roles), events).outcome != Undecided
    ensures
      var s := Run(Start(roles), events);
      var inner := s.processes[|roles|];
      && inner != Alive
      && (NoForkFails(events) ==> (s.outcome == Returns(-1) <==> Truncate !in events))
      && (forall e <- events :: e.ForkFails? ==> s.outcome == AfterFailedFork(roles, e.other))
      && (Truncate in events ==>
            inner.Dead? && s.outcome == Exits(match inner.status case Exited(code) => code case Signaled => 1))
  {
    RunKeepsInvariant(Start(roles), events);
    FileRecordsInitDone(Start(roles), events);
    ForkFailureIsFinal(Start(roles), events);
    var s := Run(Start(roles), events);
    if s.processes[|roles|] == Alive {
      AliveAbove(s, |roles|);
    }
  }

  /** If the first fork works, the two extra waiters of the tap do not show: alike processes, alike outcomes. */
  lemma TapChainIsTransparent(plain: seq<Event>, tap: seq<Event>)
    requires Possible(Start(PLAIN), plain) && NoWaiterKilled(plain) && NoForkFails(plain)
    requires Possible(Start(TAP), tap) && NoWaiterKilled(tap) && NoForkFails(tap)
    requires Run(Start(PLAIN), plain).outcome != Undecided && Run(Start(TAP), tap).outcome != Undecided
    requires Truncate in plain <==> Truncate in tap
    requires Run(Start(PLAIN), plain).processes[1] == Run(Start(TAP), tap).processes[3]
    ensures Run(Start(PLAIN), plain).outcome == Run(Start(TAP), tap).outcome
  {
    LaunchOutcome(PLAIN, plain);
    LaunchOutcome(TAP, tap);
  }

  /** As long as the tap's checker can still answer for a failed start, it has not answered anything but 0. */
  ghost predicate CheckerInvariant(s: State) {
    && s.roles == TAP && Invariant(s) && s.file == Zero
    && (s.processes[1].Dead? && s.processes[2] != Absent ==> s.processes[1].status == Exited(0))
  }

  lemma NextKeepsChecker(s: State, e: Event)
    requires CheckerInvariant(s) && Enabled(s, e) && !e.Kill? && e != Truncate
    ensures CheckerInvariant(Next(s, e))
  {
    NextKeepsInvariant(s, e);
    assert TAP[1] == Checker;
  }

  lemma {:induction false} RunKeepsChecker(s: State, events: seq<Event>)
    requires CheckerInvariant(s) && Possible(s, events) && NoWaiterKilled(events) && Truncate !in events
    ensures CheckerInvariant(Run(s, events))
    decreases |events|
  {
    if |events| > 0 {
      assert events[0] in events && forall e <- events[1..] :: e in events;
      NextKeepsChecker(s, events[0]);
      RunKeepsChecker(Next(s, events[0]), events[1..]);
    }
  }

  /**
    On the tap chain a failed start is told once, by the original process: the process
    that started the tap exits with 0 after its child, whatever code the child had.
   */
  lemma CheckerHidesFailedStart(events: seq<Event>)
    requires Possible(Start(TAP), events) && NoWaiterKilled(events) && Truncate !in events
    ensures
      var s := Run(Start(TAP), events);
      s.processes[1].Dead? && s.processes[2] != Absent ==> s.processes[1].status == Exited(0)
  {
    RunKeepsChecker(Start(TAP), events);
  }

  /** If it fails they do: the plain chain exits with 255, the tap chain never does. */
  lemma FailedForkTellsTheChains(other: Option<Status>)
    ensures Possible(Start(PLAIN), [ForkFails(other)]) && Possible(Start(TAP), [ForkFails(other)])
    ensures Run(Start(PLAIN), [ForkFails(other)]).outcome == Exits(255)
    ensures Run(Start(TAP), [ForkFails(other)]).outcome ==
      if other.Some? && other.value.Exited? then Returns(-1) else Exits(1)
  {
    var e := ForkFails(other);
    assert [e][1..] == [];
    assert TAP[1] == Checker;
    assert Run(Next(Start(PLAIN), e), []) == Next(Start(PLAIN), e);
    assert Run(Next(Start(TAP), e), []) == Next(Start(TAP), e);
  }

  // ----- every run comes to a decision -----

  /** The process to act next: the first one whose successor is not alive. */
  lemma {:induction false} LastAlive(s: State, i: nat) returns (e: Event)
    requires WellFormed(s) && i <= Inner(s) && s.processes[i] == Alive
    ensures Enabled(s, e) && !e.Kill?
    decreases Inner(s) - i
  {
    if i == Inner(s) {
      e := End(Signaled);
    } else if s.processes[i + 1] == Absent {
      e := Fork(i + 1);
    } else if s.processes[i + 1].Dead? {
      e := Reap(i);
    } else {
      e := LastAlive(s, i + 1);
    }
  }

  /** Nothing blocks, whichever waiters are killed: while the original has not decided, some process can act. */
  lemma UndecidedCanGoOn(roles: seq<Role>, events: seq<Event>) returns (e: Event)
    requires Possible(Start(roles), events) && Run(Start(roles), events).outcome == Undecided
    ensures Enabled(Run(Start(roles), events), e) && !e.Kill?
  {
    var s := Run(Start(roles), events);
    if s.processes[0] == Absent {
      e := Fork(0);
    } else if s.processes[0].Dead? {
      e := Decide;
    } else {
      e := LastAlive(s, 0);
    }
  }

  function Weights(processes: seq<Process>): nat {
    if |processes| == 0 then 0
    else (match processes[0] case Absent => 2 case Alive => 1 case Dead(_) => 0) + Weights(processes[1..])
  }

  /** What is left to happen. */
  function Weight(s: State): nat {
    Weights(s.processes)
    + (match s.file case Zero => 2 case Empty => 1 case One => 0)
    + if s.outcome == Undecided then 1 else 0
  }

  lemma {:induction false} WeightsUpdate(processes: seq<Process>, i: nat, p: Process)
    requires i < |processes|
    requires (processes[i] == Absent && p == Alive) || (processes[i] == Alive && p.Dead?)
    ensures Weights(processes[i := p]) == Weights(processes) - 1
  {
    var updated := processes[i := p];
    if i == 0 {
      assert updated[1..] == processes[1..];
    } else {
      assert updated[1..] == processes[1..][i - 1 := p];
      WeightsUpdate(processes[1..], i - 1, p);
    }
  }

  lemma EventsUseUpWeight(s: State, e: Event)
    requires WellFormed(s) && Enabled(s, e)
    ensures Weight(Next(s, e)) == Weight(s) - 1
  {
    match e
    case Fork(i) => WeightsUpdate(s.processes, i, Alive);
    case ForkFails(_) =>
    case GiveUp(i, code) => WeightsUpdate(s.processes, i, Dead(Exited(code)));
    case Truncate =>
    case Write =>
    case End(status) => WeightsUpdate(s.processes, Inner(s), Dead(status));
    case Reap(i) =>
      var code := WaiterCode(s.roles[i], s.processes[i + 1].status, s.file);
      WeightsUpdate(s.processes, i, Dead(Exited(code)));
    case Decide =>
    case Kill(i) => WeightsUpdate(s.processes, i, Dead(Signaled));
  }

  lemma {:induction false} StartWeights(n: nat)
    ensures Weights(seq(n, i => Absent)) == 2 * n
  {
    if n > 0 {
      assert seq(n, i => Absent)[1..] == seq(n - 1, i => Absent);
      StartWeights(n - 1);
    }
  }

  lemma {:induction false} RunUsesUpWeight(s: State, events: seq<Event>)
    requires WellFormed(s) && Possible(s, events)
    ensures Weight(Run(s, events)) == Weight(s) - |events|
    decreases |events|
  {
    if |events| > 0 {
      EventsUseUpWeight(s, events[0]);
      RunUsesUpWeight(Next(s, events[0]), events[1..]);
    }
  }

  /** No run is longer than this, so one that goes on as far as it can ends in a decision. */
  lemma EveryRunIsFinite(roles: seq<Role>, events: seq<Event>)
    requires Possible(Start(roles), events)
    ensures |events| <= 2 * |roles| + 5
  {
    RunUsesUpWeight(Start(roles), events);
    StartWeights(|roles| + 1);
    assert Start(roles).processes == seq(|roles| + 1, i => Absent);
  }

  // ----- every run, whichever waiters are killed -----

  lemma {:induction false} RunConcat(s: State, a: seq<Event>, b: seq<Event>)
    requires WellFormed(s) && Possible(s, a + b)
    ensures Possible(s, a) && Possible(Run(s, a), b) && Run(s, a + b) == Run(Run(s, a), b)
    decreases |a|
  {
    if |a| == 0 {
      assert a + b == b;
    } else {
      assert (a + b)[1..] == a[1..] + b;
      RunConcat(Next(s, a[0]), a[1..], b);
    }
  }

  lemma {:induction false} OutcomeStays(s: State, events: seq<Event>)
    requires WellFormed(s) && Possible(s, events) && s.outcome != Undecided
    ensures Run(s, events).outcome == s.outcome
    decreases |events|
  {
    if |events| > 0 {
      OutcomeStays(Next(s, events[0]), events[1..]);
    }
  }

  /** A first waiter is over by a signal exactly when it was killed. */
  lemma {:induction false} FirstWaiterKilledIff(s: State, events: seq<Event>)
    requires WellFormed(s) && Inner(s) > 0 && Possible(s, events)
    ensures Run(s, events).processes[0] == Dead(Signaled)
       <==> s.processes[0] == Dead(Signaled) || Kill(0) in events
    decreases |events|
  {
    if |events| > 0 {
      FirstWaiterKilledIff(Next(s, events[0]), events[1..]);
      assert events == [events[0]] + events[1..];
    }
  }

  /** A run that decided without a failed fork has one decision. */
  lemma {:induction false} SplitAtDecision(s: State, events: seq<Event>) returns (before: seq<Event>, after: seq<Event>)
    requires WellFormed(s) && Possible(s, events) && s.outcome == Undecided
    requires Run(s, events).outcome != Undecided && NoForkFails(events)
    ensures events == before + [Decide] + after
    decreases |events|
  {
    if events[0] == Decide {
      before, after := [], events[1..];
    } else {
      before, after := SplitAtDecision(Next(s, events[0]), events[1..]);
      before := [events[0]] + before;
    }
  }

  /** What a waiter passes on below which some waiter was killed: a failure, or the 0 a checker puts for an exit. */
  ghost predicate FailureCode(status: Status, roles: seq<Role>) {
    status == Exited(EXIT_FAILURE) || (status == Exited(0) && Checker in roles)
  }

  /** The killed waiters are those over by a signal; above one of them only failures are passed on. */
  ghost predicate KillInvariant(s: State, killed: set<nat>) {
    && WellFormed(s)
    && (forall i :: 0 <= i < Inner(s) && s.processes[i] == Absent ==> s.processes[i + 1] == Absent)
    && (forall i <- killed :: i < Inner(s))
    && (forall i :: 0 <= i < Inner(s) ==> (s.processes[i] == Dead(Signaled) <==> i in killed))
    && (forall i :: 0 <= i < Inner(s) && s.processes[i].Dead? && i !in killed ==>
          && s.processes[i + 1] != Alive
          && (forall k <- killed :: i < k ==> FailureCode(s.processes[i].status, s.roles)))
  }

  /** Below a waiter that is over, with no killed one in between, nothing is alive. */
  lemma {:induction false} NothingAliveBelow(s: State, killed: set<nat>, i: nat, k: nat)
    requires KillInvariant(s, killed) && i < k <= Inner(s)
    requires s.processes[i] == Absent || (s.processes[i].Dead? && forall j <- killed :: !(i <= j < k))
    ensures s.processes[k] != Alive
    decreases k - i
  {
    if i + 1 < k {
      NothingAliveBelow(s, killed, i + 1, k);
    }
  }

  lemma KillingKeeps(s: State, killed: set<nat>, k: nat)
    requires KillInvariant(s, killed) && Enabled(s, Kill(k))
    ensures KillInvariant(Next(s, Kill(k)), killed + {k})
  {
    var s' := Next(s, Kill(k));
    forall i | 0 <= i < Inner(s) && s'.processes[i].Dead? && i !in killed + {k} && i < k
      ensures FailureCode(s'.processes[i].status, s.roles)
    {
      if forall j <- killed :: !(i <= j < k) {
        NothingAliveBelow(s, killed, i, k);
      } else {
        var j :| j in killed && i <= j < k;
        assert i < j;
      }
    }
  }

  /** An absent process has no killed one below. */
  lemma NoneKilledBelowAbsent(s: State, killed: set<nat>, i: nat)
    requires KillInvariant(s, killed) && i <= Inner(s) && s.processes[i] == Absent
    ensures forall k <- killed :: k < i
    decreases Inner(s) - i
  {
    if i < Inner(s) {
      NoneKilledBelowAbsent(s, killed, i + 1);
    }
  }

  lemma ReapingKeepsKills(s: State, killed: set<nat>, i: nat)
    requires KillInvariant(s, killed) && Enabled(s, Reap(i))
    ensures KillInvariant(Next(s, Reap(i)), killed)
  {
  }

  lemma ForkingKeepsKills(s: State, killed: set<nat>, i: nat)
    requires KillInvariant(s, killed) && Enabled(s, Fork(i))
    ensures KillInvariant(Next(s, Fork(i)), killed)
  {
    NoneKilledBelowAbsent(s, killed, i);
  }

  lemma GivingUpKeepsKills(s: State, killed: set<nat>, i: nat, code: nat)
    requires KillInvariant(s, killed) && Enabled(s, GiveUp(i, code))
    ensures KillInvariant(Next(s, GiveUp(i, code)), killed)
  {
    NoneKilledBelowAbsent(s, killed, i + 1);
  }

  lemma NextKeepsKills(s: State, e: Event, killed: set<nat>)
    requires KillInvariant(s, killed) && Enabled(s, e)
    ensures KillInvariant(Next(s, e), if e.Kill? then killed + {e.i} else killed)
  {
    match e
    case Fork(i) => ForkingKeepsKills(s, killed, i);
    case GiveUp(i, code) => GivingUpKeepsKills(s, killed, i, code);
    case Kill(k) => KillingKeeps(s, killed, k);
    case Reap(i) => ReapingKeepsKills(s, killed, i);
    case End(status) =>
    case ForkFails(_) =>
    case Truncate =>
    case Write =>
    case Decide =>
  }

  ghost function Killed(events: seq<Event>): set<nat> {
    set e | e in events && e.Kill? :: e.i
  }

  lemma {:induction false} RunKeepsKills(s: State, events: seq<Event>, killed: set<nat>)
    requires KillInvariant(s, killed) && Possible(s, events)
    ensures KillInvariant(Run(s, events), killed + Killed(events))
    decreases |events|
  {
    if |events| == 0 {
      assert killed + Killed(events) == killed;
    } else {
      var e, rest := events[0], events[1..];
      var now := if e.Kill? then killed + {e.i} else killed;
      NextKeepsKills(s, e, killed);
      RunKeepsKills(Next(s, e), rest, now);
      assert events == [e] + rest;
      assert killed + Killed(events) == now + Killed(rest);
    }
  }

  /**
    The outcome of every run, cut at its decision. The start returned -1 exactly when
    by then the first waiter had not been killed and the init file was not opened; a
    killed first waiter makes the original exit with 1. If another waiter was killed,
    an opened file makes it exit with 1, or with 0 past a checker, and if none was,
    with the code of the sandboxed process.
   */
  lemma OutcomeOfEveryRun(roles: seq<Role>, before: seq<Event>, after: seq<Event>)
    requires |roles| > 0 && Possible(Start(roles), before + [Decide] + after)
    ensures Possible(Start(roles), before)
    ensures
      var outcome := Run(Start(roles), before + [Decide] + after).outcome;
      var inner := Run(Start(roles), before).processes[|roles|];
      && (outcome == Returns(-1) <==> Truncate !in before && Kill(0) !in before)
      && (Kill(0) in before ==> outcome == Exits(1))
      && (Truncate in before && Kill(0) !in before && Killed(before) != {} ==>
            outcome == Exits(1) || (outcome == Exits(0) && Checker in roles))
      && (Truncate in before && NoWaiterKilled(before) ==>
            inner.Dead? && outcome == Exits(match inner.status case Exited(code) => code case Signaled => 1))
  {
    var s := Start(roles);
    var b := DecisionPoint(s, before, after);
    FileRecordsInitDone(s, before);
    FirstWaiterKilledIff(s, before);
    RunKeepsKills(s, before, {});
    if Kill(0) !in before && Killed(before) != {} {
      var k :| k in Killed(before);
      assert k != 0;
      assert FailureCode(b.processes[0].status, roles);
    }
    if NoWaiterKilled(before) {
      RunKeepsInvariant(s, before);
    }
  }

  /** The state a run decides in, and that nothing changes the decision. */
  lemma DecisionPoint(s: State, before: seq<Event>, after: seq<Event>) returns (b: State)
    requires WellFormed(s) && Possible(s, before + [Decide] + after)
    ensures Possible(s, before) && b == Run(s, before) && Enabled(b, Decide)
    ensures Run(s, before + [Decide] + after).outcome == Verdict(b.processes[0].status, b.file)
  {
    RunConcat(s, before + [Decide], after);
    RunConcat(s, before, [Decide]);
    b := Run(s, before);
    assert [Decide][1..] == [];
    assert Run(Next(b, Decide), []) == Next(b, Decide);
    assert Run(b, [Decide]) == Next(b, Decide);
    OutcomeStays(Next(b, Decide), after);
  }

  /** While the file reads "0", what was decided is the verdict on how the first waiter ended. */
  lemma {:induction false} VerdictOnFirstWaiter(s: State, events: seq<Event>)
    requires WellFormed(s) && Possible(s, events) && Truncate !in events && NoForkFails(events) && s.file == Zero
    requires s.outcome != Undecided ==> s.processes[0].Dead? && s.outcome == Verdict(s.processes[0].status, Zero)
    ensures
      var f := Run(s, events);
      f.outcome != Undecided ==> f.processes[0].Dead? && f.outcome == Verdict(f.processes[0].status, Zero)
    decreases |events|
  {
    if |events| > 0 {
      assert events[0] in events && forall e <- events[1..] :: e in events;
      VerdictOnFirstWaiter(Next(s, events[0]), events[1..]);
    }
  }

  /**
    A start that failed is reported as such exactly when the first waiter was not
    killed, whatever happened to the others.
   */
  lemma FailedStartReportedIff(roles: seq<Role>, events: seq<Event>)
    requires |roles| > 0 && Possible(Start(roles), events)
    requires Truncate !in events && NoForkFails(events) && Run(Start(roles), events).outcome != Undecided
    ensures Run(Start(roles), events).outcome == Returns(-1) <==> Kill(0) !in events
  {
    VerdictOnFirstWaiter(Start(roles), events);
    FirstWaiterKilledIff(Start(roles), events);
  }

  // ----- every end is possible -----

  lemma {:induction false} RunAppend(s: State, a: seq<Event>, b: seq<Event>)
    requires WellFormed(s) && Possible(s, a) && Possible(Run(s, a), b)
    ensures Possible(s, a + b) && Run(s, a + b) == Run(Run(s, a), b)
    decreases |a|
  {
    if |a| == 0 {
      assert a + b == b;
    } else {
      assert (a + b)[1..] == a[1..] + b;
      RunAppend(Next(s, a[0]), a[1..], b);
    }
  }

  lemma RunOne(s: State, e: Event)
    requires WellFormed(s) && Enabled(s, e)
    ensures Possible(s, [e]) && Run(s, [e]) == Next(s, e)
  {
    assert [e][1..] == [];
    assert Run(Next(s, e), []) == Next(s, e);
  }

  /** The first `n` processes forked. */
  ghost predicate Forked(s: State, roles: seq<Role>, n: nat) {
    && s == State(roles, s.processes, Zero, Undecided) && WellFormed(s) && n <= |roles| + 1
    && forall j :: 0 <= j <= |roles| ==> s.processes[j] == if j < n then Alive else Absent
  }

  lemma {:induction false} ForkInTurn(roles: seq<Role>, n: nat) returns (events: seq<Event>)
    requires n <= |roles| + 1
    ensures Possible(Start(roles), events) && Forked(Run(Start(roles), events), roles, n)
    ensures forall e <- events :: e.Fork?
    decreases n
  {
    events := [];
    if n > 0 {
      var first := ForkInTurn(roles, n - 1);
      RunOne(Run(Start(roles), first), Fork(n - 1));
      RunAppend(Start(roles), first, [Fork(n - 1)]);
      events := first + [Fork(n - 1)];
    }
  }

  /** Above a process that is over, the waiters are over one after the other. */
  lemma {:induction false} UnwindFrom(s: State, i: nat) returns (events: seq<Event>)
    requires WellFormed(s) && s.outcome == Undecided && i <= Inner(s) && s.processes[i].Dead?
    requires forall j :: 0 <= j < i ==> s.processes[j] == Alive
    ensures Possible(s, events)
    ensures
      var f := Run(s, events);
      && Enabled(f, Decide) && f.processes[i..] == s.processes[i..]
    ensures forall e <- events :: e.Reap?
    decreases i
  {
    events := [];
    if i > 0 {
      var e := Reap(i - 1);
      RunOne(s, e);
      var rest := UnwindFrom(Next(s, e), i - 1);
      RunAppend(s, [e], rest);
      events := [e] + rest;
      var f := Run(s, events);
      assert forall j :: i <= j <= Inner(s) ==> f.processes[j] == f.processes[i - 1..][j - (i - 1)];
    }
  }

  /** How process `i` of the chain can end once the init file was opened, or before. */
  predicate IsEnd(roles: seq<Role>, i: nat, started: bool, e: Event) {
    match e
    case End(_) => i == |roles|
    case GiveUp(j, _) => j == i < |roles| && !started
    case Kill(j) => j == i < |roles|
    case Fork(_) | ForkFails(_) | Truncate | Write | Reap(_) | Decide => false
  }

  lemma Extend(s: State, events: seq<Event>, e: Event)
    requires WellFormed(s) && Possible(s, events) && Enabled(Run(s, events), e)
    ensures Possible(s, events + [e]) && Run(s, events + [e]) == Next(Run(s, events), e)
  {
    RunOne(Run(s, events), e);
    RunAppend(s, events, [e]);
  }

  /** A run that comes just before the end. */
  lemma UpToEnd(roles: seq<Role>, i: nat, started: bool, e: Event) returns (events: seq<Event>)
    requires IsEnd(roles, i, started, e)
    ensures Possible(Start(roles), events) && Enabled(Run(Start(roles), events), e)
    ensures
      var s := Run(Start(roles), events);
      s.outcome == Undecided && forall j :: 0 <= j <= i ==> s.processes[j] == Alive
    ensures Truncate in events <==> started
    ensures forall e <- events :: e.Fork? || e == Truncate
  {
    events := ForkInTurn(roles, if e.GiveUp? then i + 1 else |roles| + 1);
    if started {
      Extend(Start(roles), events, Truncate);
      events := events + [Truncate];
    }
  }

  /** What is left of the chain above the process that ended. */
  lemma AfterEnd(s: State, i: nat, e: Event) returns (events: seq<Event>)
    requires WellFormed(s) && s.outcome == Undecided && i <= Inner(s) && Enabled(s, e)
    requires e.End? || e.GiveUp? || e.Kill?
    requires i == if e.End? then Inner(s) else e.i
    requires forall j :: 0 <= j <= i ==> s.processes[j] == Alive
    ensures Possible(s, [e] + events)
    ensures
      var f := Run(s, [e] + events);
      Enabled(f, Decide) && f.processes[i] == Next(s, e).processes[i]
    ensures forall e <- events :: e.Reap?
  {
    RunOne(s, e);
    events := UnwindFrom(Next(s, e), i);
    RunAppend(s, [e], events);
    var f := Run(s, [e] + events);
    assert f.processes[i..][0] == f.processes[i];
  }

  /**
    Whatever the chain, the process and its end, and whether the init file was opened
    before or not, there is a run with just this end that comes to a decision. What is
    decided is told by `OutcomeOfEveryRun`.
   */
  lemma EveryEndIsPossible(roles: seq<Role>, i: nat, started: bool, e: Event) returns (before: seq<Event>)
    requires IsEnd(roles, i, started, e)
    ensures Possible(Start(roles), before) && Possible(Start(roles), before + [Decide])
    ensures e in before && (Truncate in before <==> started) && NoForkFails(before)
    ensures Killed(before) == if e.Kill? then {i} else {}
    ensures e.End? ==> Run(Start(roles), before).processes[|roles|] == Dead(e.status)
  {
    var first := UpToEnd(roles, i, started, e);
    var s := Run(Start(roles), first);
    var rest := AfterEnd(s, i, e);
    RunAppend(Start(roles), first, [e] + rest);
    before := first + ([e] + rest);
    Extend(Start(roles), before, Decide);
    KilledAlone(first, e, rest);
  }

  lemma KilledAlone(first: seq<Event>, e: Event, rest: seq<Event>)
    requires (forall x <- first :: !x.Kill?) && forall x <- rest :: !x.Kill?
    ensures Killed(first + ([e] + rest)) == if e.Kill? then {e.i} else {}
  {
    var all := first + ([e] + rest);
    assert all[|first|] == e;
    assert forall x <- all :: x in first || x == e || x in rest;
  }

  /** Every exit code comes through to the original process. */
  lemma EveryCodeComesThrough(roles: seq<Role>, code: nat) returns (events: seq<Event>)
    requires |roles| > 0
    ensures Possible(Start(roles), events) && NoWaiterKilled(events) && Truncate in events
    ensures Run(Start(roles), events).outcome == Exits(code)
  {
    var before := EveryEndIsPossible(roles, |roles|, true, End(Exited(code)));
    events := before + [Decide];
    assert forall e <- before :: e.Kill? ==> e.i in Killed(before);
    assert events + [] == events;
    OutcomeOfEveryRun(roles, before, []);
  }

  /**
    Such a run: with a first waiter killed before the sandboxed process exists, a
    start that failed looks like a program that exited with 1.
   */
  lemma KilledWaiterHidesFailedStart(roles: seq<Role>)
    requires |roles| > 0
    ensures
      var events := [Fork(0), Kill(0), Decide];
      && Possible(Start(roles), events)
      && Truncate !in events
      && Run(Start(roles), events).outcome == Exits(1)
  {
    var s0, events := Start(roles), [Fork(0), Kill(0), Decide];
    var s1 := Next(s0, events[0]);
    var s2 := Next(s1, events[1]);
    var s3 := Next(s2, events[2]);
    assert events[1..][1..] == [Decide] && events[1..][0] == Kill(0);
    assert [Decide][1..] == [];
    assert Possible(s3, []) && Run(s3, []) == s3;
    assert Possible(s2, [Decide]) && Run(s2, [Decide]) == s3;
    assert Possible(s1, events[1..]) && Run(s1, events[1..]) == s3;
  }
}
