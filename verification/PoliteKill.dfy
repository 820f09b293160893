/**
  The signal handling of the command-line program: while `MiniSbxStart` arms its
  handlers one by one, SIGTERM, SIGINT and the alarm may arrive between any two
  steps. `Next` is the effect of one event on the globals; the class carries them.
 */
module PoliteKill {

  datatype Signal = TERM | INT | ALRM

  datatype Sent = Sent(pid: nat, kill: bool)   // SIGKILL if `kill`, else SIGTERM

  datatype Alarm = Off | Timeout | KillDelay

  /** The child's pid and the options the steps depend on. */
  datatype Config = Config(child: nat, killDelay: int, timeout: int, sigintSendsSigterm: bool)

  /** The start-up steps, in program order. */
  datatype Step = StorePid | StorePolite | InstallAlrm | ArmTimeout | InstallTerm | InstallInt | Waiting

  datatype State = State(
    step: Step,
    childPid: nat,
    polite: bool,
    handled: set<Signal>,
    alarm: Alarm,
    sent: seq<Sent>,
    dead: bool,
    clobbered: bool)   // history: the start-up alarm replaced a pending kill delay

  datatype Event =
    | Advance               // MiniSbxStart takes its next step
    | Deliver(s: Signal)    // someone sends us a signal
    | TimerFires            // the pending alarm goes off

  const START := State(StorePid, 0, false, {}, Off, [], false, false)

  predicate Enabled(s: State, e: Event) {
    && !s.dead
    && (e.Advance? ==> s.step != Waiting)
    && (e.TimerFires? ==> s.alarm != Off)
  }

  /** `OnTimeoutOrTerm`. It runs with all signals blocked, so it is one event. */
  function Handler(c: Config, s: State): State {
    if !s.polite then s.(sent := s.sent + [Sent(s.childPid, true)])
    else s.(polite := false, sent := s.sent + [Sent(s.childPid, false)], alarm := KillDelay)
  }

  /** A signal without a handler ends the process. */
  function Receive(c: Config, s: State, signal: Signal): State {
    if signal in s.handled then Handler(c, s) else s.(dead := true)
  }

  function Next(c: Config, s: State, e: Event): State
    requires Enabled(s, e)
  {
    match e
    case Deliver(signal) => Receive(c, s, signal)
    case TimerFires => Receive(c, s.(alarm := Off), ALRM)
    case Advance =>
      match s.step
      case StorePid => s.(step := StorePolite, childPid := c.child)
      case StorePolite => s.(step := InstallAlrm, polite := s.polite || c.killDelay > 0)
      case InstallAlrm => s.(step := ArmTimeout, handled := s.handled + {ALRM})
      case ArmTimeout =>
        if c.timeout > 0
        then s.(step := InstallTerm, alarm := Timeout, clobbered := s.clobbered || s.alarm == KillDelay)
        else s.(step := InstallTerm)
      case InstallTerm => s.(step := InstallInt, handled := s.handled + {TERM})
      case InstallInt => s.(step := Waiting, handled := s.handled + if c.sigintSendsSigterm then {INT} else {})
      case Waiting => s
  }

  /** The globals `linux-sandbox.cc` shares between start-up and handler. */
  class Supervisor {
    const config: Config
    var step: Step
    var globalChildPid: nat
    var needPoliteSigterm: bool
    var handled: set<Signal>
    var alarm: Alarm
    var sent: seq<Sent>
    var dead: bool
    ghost var clobbered: bool

    constructor (config: Config)
      ensures this.config == config && Value() == START
    {
      this.config := config;
      step, globalChildPid, needPoliteSigterm, handled := StorePid, 0, false, {};
      alarm, sent, dead, clobbered := Off, [], false, false;
    }

    ghost function Value(): State
      reads this
    {
      State(step, globalChildPid, needPoliteSigterm, handled, alarm, sent, dead, clobbered)
    }

    method OnTimeoutOrTerm()
      modifies this`needPoliteSigterm, this`sent, this`alarm
      ensures Value() == Handler(config, old(Value()))
    {
      var childPid := globalChildPid;
      var politely := needPoliteSigterm;   // fetch_and(0)
      needPoliteSigterm := false;
      if !politely {
        sent := sent + [Sent(childPid, true)];
        return;
      }
      sent := sent + [Sent(childPid, false)];
      alarm := KillDelay;
    }

    method OnSignal(signal: Signal)
      requires !dead
      modifies this`needPoliteSigterm, this`sent, this`alarm, this`dead
      ensures Value() == Receive(config, old(Value()), signal)
    {
      if signal in handled {
        OnTimeoutOrTerm();
      } else {
        dead := true;
      }
    }

    /** The part of `MiniSbxStart` from the spawned child to the wait, one step at a time. */
    method TakeStep()
      requires Enabled(Value(), Advance)
      modifies this
      ensures Value() == Next(config, old(Value()), Advance)
    {
      match step
      case StorePid =>
        globalChildPid := config.child;
        step := StorePolite;
      case StorePolite =>
        if config.killDelay > 0 {
          needPoliteSigterm := true;
        }
        step := InstallAlrm;
      case InstallAlrm =>
        handled := handled + {ALRM};
        step := ArmTimeout;
      case ArmTimeout =>
        if config.timeout > 0 {
          clobbered := clobbered || alarm == KillDelay;
          alarm := Timeout;
        }
        step := InstallTerm;
      case InstallTerm =>
        handled := handled + {TERM};
        step := InstallInt;
      case InstallInt =>
        if config.sigintSendsSigterm {
          handled := handled + {INT};
        }
        step := Waiting;
      case Waiting =>
    }
  }

  // ----- every interleaving -----

  predicate Possible(c: Config, s: State, events: seq<Event>)
    decreases |events|
  {
    |events| > 0 ==> Enabled(s, events[0]) && Possible(c, Next(c, s, events[0]), events[1..])
  }

  function Run(c: Config, s: State, events: seq<Event>): State
    requires Possible(c, s, events)
    decreases |events|
  {
    if |events| == 0 then s else Run(c, Next(c, s, events[0]), events[1..])
  }

  /** What the child gets after `n` calls of the handler. */
  function Escalation(c: Config, n: nat): seq<Sent> {
    seq(n, i => Sent(c.child, i > 0 || c.killDelay <= 0))
  }

  function Rank(step: Step): nat {
    match step
    case StorePid => 0
    case StorePolite => 1
    case InstallAlrm => 2
    case ArmTimeout => 3
    case InstallTerm => 4
    case InstallInt => 5
    case Waiting => 6
  }

  ghost predicate Invariant(c: Config, s: State) {
    && (ALRM in s.handled <==> Rank(s.step) > Rank(InstallAlrm))
    && (TERM in s.handled <==> Rank(s.step) > Rank(InstallTerm))
    && (INT in s.handled <==> s.step == Waiting && c.sigintSendsSigterm)
    && (Rank(s.step) > Rank(StorePid) ==> s.childPid == c.child)
    && (Rank(s.step) <= Rank(InstallAlrm) ==> s.sent == [] && s.alarm == Off)
    && (Rank(s.step) <= Rank(StorePolite) ==> !s.polite)
    && (Rank(s.step) > Rank(StorePolite) ==> (s.polite <==> c.killDelay > 0 && s.sent == []))
    && s.sent == Escalation(c, |s.sent|)
  }

  lemma EscalationGrows(c: Config, n: nat)
    ensures Escalation(c, n + 1) == Escalation(c, n) + [Sent(c.child, n > 0 || c.killDelay <= 0)]
  {
  }

  lemma NextKeepsInvariant(c: Config, s: State, e: Event)
    requires Invariant(c, s) && Enabled(s, e)
    ensures Invariant(c, Next(c, s, e))
  {
    EscalationGrows(c, |s.sent|);
    if e.Deliver? {
      match e.s
      case TERM =>
      case INT =>
      case ALRM =>
    }
  }

  lemma {:induction false} RunKeepsInvariant(c: Config, s: State, events: seq<Event>)
    requires Invariant(c, s) && Possible(c, s, events)
    ensures Invariant(c, Run(c, s, events))
    decreases |events|
  {
    if |events| > 0 {
      NextKeepsInvariant(c, s, events[0]);
      RunKeepsInvariant(c, Next(c, s, events[0]), events[1..]);
    }
  }

  /**
    Whatever arrives whenever: only the child is ever signalled, never pid 0; the
    first call of the handler asks politely exactly when a kill delay is set, and
    every later one kills.
   */
  lemma ChildIsKilledPolitely(c: Config, events: seq<Event>)
    requires c.child > 0 && Possible(c, START, events)
    ensures
      var sent := Run(c, START, events).sent;
      && (forall i :: 0 <= i < |sent| ==> sent[i].pid == c.child != 0)
      && (forall i :: 0 <= i < |sent| ==> (!sent[i].kill <==> i == 0 && c.killDelay > 0))
  {
    RunKeepsInvariant(c, START, events);
    var s := Run(c, START, events);
    assert forall i :: 0 <= i < |s.sent| ==> s.sent[i] == Escalation(c, |s.sent|)[i];
  }

  lemma {:induction false} RunSnoc(c: Config, s: State, events: seq<Event>, e: Event)
    requires Possible(c, s, events) && Enabled(Run(c, s, events), e)
    ensures Possible(c, s, events + [e]) && Run(c, s, events + [e]) == Next(c, Run(c, s, events), e)
    decreases |events|
  {
    if |events| == 0 {
      assert events + [e] == [e] && [e][1..] == [];
      assert Run(c, Next(c, s, e), []) == Next(c, s, e);
    } else {
      assert (events + [e])[1..] == events[1..] + [e];
      RunSnoc(c, Next(c, s, events[0]), events[1..], e);
    }
  }

  /**
    A signal can arrive at any moment, and it ends the program exactly as long as its
    handler is not in place: SIGALRM before the time-out is armed, SIGTERM before SIGINT
    is seen to, and SIGINT to the end of the start-up, or for good without its option.
   */
  lemma SignalEndsIff(c: Config, events: seq<Event>, signal: Signal)
    requires Possible(c, START, events) && !Run(c, START, events).dead
    ensures Possible(c, START, events + [Deliver(signal)])
    ensures
      var step := Run(c, START, events).step;
      Run(c, START, events + [Deliver(signal)]).dead <==>
        match signal
        case ALRM => step == StorePid || step == StorePolite || step == InstallAlrm
        case TERM => step != InstallInt && step != Waiting
        case INT => step != Waiting || !c.sigintSendsSigterm
  {
    RunSnoc(c, START, events, Deliver(signal));
    RunKeepsInvariant(c, START, events);
  }

  // ----- the kill delay survives start-up -----

  /** SIGALRM comes from the timer only. */
  predicate OnlyTimerAlarms(events: seq<Event>) {
    Deliver(ALRM) !in events
  }

  ghost predicate AlarmInvariant(c: Config, s: State) {
    && Invariant(c, s)
    && !s.clobbered
    && (Rank(s.step) <= Rank(ArmTimeout) ==> s.alarm == Off && s.sent == [])
    && (|s.sent| == 1 && c.killDelay > 0 ==> s.alarm == KillDelay)
  }

  lemma NextKeepsAlarm(c: Config, s: State, e: Event)
    requires AlarmInvariant(c, s) && Enabled(s, e) && e != Deliver(ALRM)
    ensures AlarmInvariant(c, Next(c, s, e))
  {
    NextKeepsInvariant(c, s, e);
    if e.Deliver? {
      match e.s
      case TERM =>
      case INT =>
    }
  }

  lemma {:induction false} RunKeepsAlarm(c: Config, s: State, events: seq<Event>)
    requires AlarmInvariant(c, s) && Possible(c, s, events) && OnlyTimerAlarms(events)
    ensures AlarmInvariant(c, Run(c, s, events))
    decreases |events|
  {
    if |events| > 0 {
      NextKeepsAlarm(c, s, events[0]);
      RunKeepsAlarm(c, Next(c, s, events[0]), events[1..]);
    }
  }

  /**
    If SIGALRM comes from the timer only, start-up never replaces the pending kill
    delay. After the polite request the delay is pending until the child is sent
    SIGKILL, and its expiry sends it.
   */
  lemma KillDelayIsKept(c: Config, events: seq<Event>)
    requires Possible(c, START, events) && OnlyTimerAlarms(events)
    ensures
      var s := Run(c, START, events);
      && !s.clobbered
      && (c.killDelay > 0 && |s.sent| == 1 && !s.dead ==>
            && s.alarm == KillDelay
            && Enabled(s, TimerFires)
            && Next(c, s, TimerFires).sent == s.sent + [Sent(c.child, true)])
  {
    RunKeepsAlarm(c, START, events);
  }

  /** Some event of the kind arrives after the SIGALRM handler is in place and before the time-out is armed. */
  predicate InGap(c: Config, s: State, events: seq<Event>, kind: Event)
    requires Possible(c, s, events)
    decreases |events|
  {
    |events| > 0 && ((s.step == ArmTimeout && events[0] == kind) || InGap(c, Next(c, s, events[0]), events[1..], kind))
  }

  ghost predicate GapInvariant(c: Config, s: State) {
    && Invariant(c, s)
    && !s.clobbered
    && Rank(s.step) <= Rank(ArmTimeout)
    && (s.alarm == Off || (s.alarm == KillDelay && s.sent != [] && c.killDelay > 0))
  }

  lemma {:induction false} ClobberedOnlyInGap(c: Config, s: State, events: seq<Event>)
    requires Rank(s.step) > Rank(ArmTimeout) && Possible(c, s, events)
    ensures Run(c, s, events).clobbered == s.clobbered
    ensures Rank(Run(c, s, events).step) > Rank(ArmTimeout)
    ensures forall kind :: !InGap(c, s, events, kind)
    decreases |events|
  {
    if |events| > 0 {
      ClobberedOnlyInGap(c, Next(c, s, events[0]), events[1..]);
    }
  }

  /** Whether the delay will be replaced, seen from a state before the time-out is armed. */
  ghost predicate WillClobber(c: Config, s: State, events: seq<Event>)
    requires Possible(c, s, events)
  {
    && c.killDelay > 0 && c.timeout > 0
    && Rank(Run(c, s, events).step) > Rank(ArmTimeout)
    && (if s.sent == [] then InGap(c, s, events, Deliver(ALRM)) else s.alarm == KillDelay)
    && !InGap(c, s, events, TimerFires)
  }

  lemma {:induction false} ClobberedIff(c: Config, s: State, events: seq<Event>)
    requires GapInvariant(c, s) && Possible(c, s, events)
    ensures Run(c, s, events).clobbered <==> WillClobber(c, s, events)
    decreases |events|
  {
    if |events| > 0 {
      var e, rest := events[0], events[1..];
      NextKeepsInvariant(c, s, e);
      var s' := Next(c, s, e);
      if Rank(s'.step) > Rank(ArmTimeout) {
        assert e == Advance && s.step == ArmTimeout;
        ClobberedOnlyInGap(c, s', rest);
        assert !InGap(c, s', rest, TimerFires) && !InGap(c, s', rest, Deliver(ALRM));
      } else {
        if e.Deliver? {
          match e.s
          case TERM => assert rest == [];
          case INT => assert rest == [];
          case ALRM =>
        }
        ClobberedIff(c, s', rest);
      }
    }
  }

  /**
    A SIGALRM sent from outside is different: start-up replaces a pending kill
    delay exactly when both a kill delay and a time-out are set, an outside
    SIGALRM arrives between the installation of its handler and the arming of the
    time-out, and the delay it starts has not run out by then.
   */
  lemma KillDelayClobberedIff(c: Config, events: seq<Event>)
    requires Possible(c, START, events)
    ensures
      var s := Run(c, START, events);
      s.clobbered <==>
        && c.killDelay > 0 && c.timeout > 0
        && Rank(s.step) > Rank(ArmTimeout)
        && InGap(c, START, events, Deliver(ALRM))
        && !InGap(c, START, events, TimerFires)
  {
    ClobberedIff(c, START, events);
  }

  /** Such a run: a SIGALRM from outside asks the child to quit, and the start-up alarm then replaces the kill delay. */
  lemma OutsideAlarmClobbers(c: Config)
    requires c.child > 0 && c.killDelay > 0 && c.timeout > 0
    ensures
      var events := [Advance, Advance, Advance, Deliver(ALRM), Advance];
      && Possible(c, START, events)
      && Run(c, START, events).sent == [Sent(c.child, false)]
      && Run(c, START, events).clobbered && Run(c, START, events).alarm == Timeout
  {
    var events := [Advance, Advance, Advance, Deliver(ALRM), Advance];
    var s1 := Next(c, START, Advance);
    var s2 := Next(c, s1, Advance);
    var s3 := Next(c, s2, Advance);
    var s4 := Next(c, s3, Deliver(ALRM));
    var s5 := Next(c, s4, Advance);
    assert events[4..][1..] == [] && events[3..][1..] == events[4..] && events[2..][1..] == events[3..];
    assert events[1..][1..] == events[2..];
    assert Possible(c, s5, []) && Run(c, s5, []) == s5;
    assert Possible(c, s4, events[4..]) && Run(c, s4, events[4..]) == s5;
    assert Possible(c, s3, events[3..]) && Run(c, s3, events[3..]) == s5;
    assert Possible(c, s2, events[2..]) && Run(c, s2, events[2..]) == s5;
    assert Possible(c, s1, events[1..]) && Run(c, s1, events[1..]) == s5;
  }
}
