/**
  The dispatcher of `mux.go`: patterns registered in order, and one notification
  at a time, under the lock, offered to the first pattern that matches an address
  the firewall admits.
 */
module Mux {
  import opened Text
  import opened AnswerCache
  import opened Minitap

  /** A `net.Addr`; an IPv6 host comes in brackets. */
  datatype Addr = Addr(host: string, port: nat)

  function Render(addr: Addr): string {
    addr.host + ":" + Decimal(addr.port)
  }

  predicate PatternMatches(pattern: string, addr: Addr) {
    pattern == "*" || (":" <= pattern && EndsWith(Render(addr), pattern))
  }

  const DNS_PATTERN := ":53"
  const ANY_PATTERN := "*"

  /** Only one colon is followed by nothing but digits. */
  lemma LastColon(host: string, digits: string, other: string)
    requires forall c <- digits :: IsDigit(c)
    requires forall c <- other :: IsDigit(c)
    requires EndsWith(host + ":" + digits, ":" + other)
    ensures other == digits
  {
    var s, pattern := host + ":" + digits, ":" + other;
    var k := |s| - |pattern|;
    assert s[k..] == pattern;
    assert s[k] == ':' && s[|host|] == ':';
    forall i | k < i < |s|
      ensures IsDigit(s[i])
    {
      assert s[i] == pattern[i - k] == other[i - k - 1];
    }
    forall i | |host| < i < |s|
      ensures IsDigit(s[i])
    {
      assert s[i] == digits[i - |host| - 1];
    }
    assert k == |host|;
    assert pattern[1..] == other && s[k + 1..] == digits;
  }

  /** A port pattern looks at the text only, yet matches exactly the addresses with that port. */
  lemma PortPatternMatchesPort(port: nat, addr: Addr)
    ensures PatternMatches(":" + Decimal(port), addr) <==> addr.port == port
  {
    var pattern, s := ":" + Decimal(port), Render(addr);
    if EndsWith(s, pattern) {
      LastColon(addr.host, Decimal(addr.port), Decimal(port));
      DecimalIsInjective(port, addr.port);
    }
    if addr.port == port {
      assert s == addr.host + pattern;
      assert s[|s| - |pattern|..] == pattern;
    }
  }

  lemma DnsPatternMatchesPort53(addr: Addr)
    ensures PatternMatches(DNS_PATTERN, addr) <==> addr.port == 53
  {
    assert Decimal(5) == "5" && Decimal(53) == Decimal(5) + "3";
    PortPatternMatchesPort(53, addr);
  }

  /** The asterisk matches everything, and a pattern that does not start with a colon nothing else. */
  lemma OtherPatterns(pattern: string, addr: Addr)
    ensures PatternMatches("*", addr)
    ensures pattern != "*" && !StartsWith(pattern, ":") ==> !PatternMatches(pattern, addr)
  {
  }

  function FirstMatch(handlers: seq<string>, addr: Addr): (r: Option<nat>)
    ensures r.Some? ==> r.value < |handlers| && PatternMatches(handlers[r.value], addr)
    ensures r.Some? ==> forall i :: 0 <= i < r.value ==> !PatternMatches(handlers[i], addr)
    ensures r.None? ==> forall pattern <- handlers :: !PatternMatches(pattern, addr)
  {
    if |handlers| == 0 then None
    else if PatternMatches(handlers[0], addr) then Some(0)
    else match FirstMatch(handlers[1..], addr)
      case None => None
      case Some(i) => Some(i + 1)
  }

  /** The counter and the handlers launched so far. */
  datatype Capped = Capped(connections: nat, launched: seq<nat>)

  /** The handler one notification launches under a cap. */
  function CapChoice(connections: nat, max: nat, firstMatch: Option<nat>): Option<nat> {
    if connections < max then firstMatch else None
  }

  function AsSeq<T>(o: Option<T>): seq<T> {
    if o.Some? then [o.value] else []
  }

  function CapStep(s: Capped, max: nat, firstMatch: Option<nat>): Capped {
    var choice := CapChoice(s.connections, max, firstMatch);
    Capped(s.connections + |AsSeq(choice)|, s.launched + AsSeq(choice))
  }

  /** What the decision on a notification looks at. */
  datatype Gate = Gate(max: int, count: nat, connections: nat, allowed: set<Ip>)

  /**
    One decision. A launched handler matches. Under a cap it is the first match, while
    the counter is below the cap, and it is counted. Without a cap nothing is counted:
    without rules the first match is launched, with rules a match if and only if the
    address is cached by then, and at once the first one if it was cached before.
   */
  ghost predicate Decided(
      handlers: seq<string>, addr: Addr, before: Gate, after: Gate, launched: Option<nat>, trace: seq<Answer>)
  {
    var match0 := FirstMatch(handlers, addr);
    && before.max == after.max && before.count == after.count
    && (launched.Some? ==> launched.value < |handlers| && PatternMatches(handlers[launched.value], addr))
    && (before.max >= 0 ==>
          && launched == CapChoice(before.connections, before.max, match0)
          && after.connections == before.connections + |AsSeq(launched)|)
    && (before.max < 0 ==>
          && after.connections == before.connections
          && (before.count == 0 ==> launched == match0)
          && (before.count > 0 && match0.Some? ==> (launched.Some? <==> addr.host in after.allowed))
          && (addr.host in before.allowed ==> launched == match0 && trace == []))
  }

  class Dispatcher {
    const firewall: Process
    var tcpHandlers: seq<string>
    var udpHandlers: seq<string>

    constructor (firewall: Process)
      ensures this.firewall == firewall && tcpHandlers == [] && udpHandlers == []
    {
      this.firewall := firewall;
      tcpHandlers, udpHandlers := [], [];
    }

    method HandleTCPRequest(pattern: string)
      modifies this`tcpHandlers
      ensures tcpHandlers == old(tcpHandlers) + [pattern]
    {
      tcpHandlers := tcpHandlers + [pattern];
    }

    method HandleUDP(pattern: string)
      modifies this`udpHandlers
      ensures udpHandlers == old(udpHandlers) + [pattern]
    {
      udpHandlers := udpHandlers + [pattern];
    }

    ghost function GateNow(): Gate
      reads firewall
    {
      Gate(firewall.maxConnections, firewall.count, firewall.connections, firewall.allowedIps)
    }

    /** The loop of both notifications: the index of the handler that was launched. */
    method Notify(handlers: seq<string>, addr: Addr, env: nat -> (nat -> Turn))
      returns (launched: Option<nat>, ghost trace: seq<Answer>)
      requires firewall.Valid()
      modifies firewall`connections, firewall`allowedIps, firewall`domainMap, firewall`deniedDomainMap
      ensures firewall.Valid() && firewall.Cache() == UpdateAll(old(firewall.Cache()), trace)
      ensures firewall.domainMap.Keys == old(firewall.domainMap.Keys)
      ensures Decided(handlers, addr, old(GateNow()), GateNow(), launched, trace)
    {
      trace := [];
      for i := 0 to |handlers|
        invariant firewall.Valid() && firewall.Cache() == UpdateAll(old(firewall.Cache()), trace)
        invariant firewall.domainMap.Keys == old(firewall.domainMap.Keys)
        invariant firewall.connections == old(firewall.connections)
        invariant FirstMatch(handlers, addr).Some? && FirstMatch(handlers, addr).value < i ==>
          if firewall.maxConnections >= 0 then firewall.connections >= firewall.maxConnections
          else firewall.count > 0 && addr.host !in firewall.allowedIps
        invariant addr.host in old(firewall.allowedIps) && firewall.maxConnections < 0 ==>
          trace == [] && firewall.allowedIps == old(firewall.allowedIps)
      {
        if PatternMatches(handlers[i], addr) {
          var ok;
          ghost var order, steps;
          ok, order, steps := firewall.FirewallConnection(addr.host, env(i));
          UpdateAllConcat(old(firewall.Cache()), trace, steps);
          trace := trace + steps;
          if ok {
            return Some(i), trace;
          }
        }
      }
      launched := None;
    }

    method NotifyTCP(addr: Addr, env: nat -> (nat -> Turn)) returns (launched: Option<nat>, ghost trace: seq<Answer>)
      requires firewall.Valid()
      modifies firewall`connections, firewall`allowedIps, firewall`domainMap, firewall`deniedDomainMap
      ensures firewall.Valid() && firewall.Cache() == UpdateAll(old(firewall.Cache()), trace)
      ensures firewall.domainMap.Keys == old(firewall.domainMap.Keys)
      ensures Decided(tcpHandlers, addr, old(GateNow()), GateNow(), launched, trace)
    {
      launched, trace := Notify(tcpHandlers, addr, env);
    }

    method NotifyUDP(addr: Addr, env: nat -> (nat -> Turn)) returns (launched: Option<nat>, ghost trace: seq<Answer>)
      requires firewall.Valid()
      modifies firewall`connections, firewall`allowedIps, firewall`domainMap, firewall`deniedDomainMap
      ensures firewall.Valid() && firewall.Cache() == UpdateAll(old(firewall.Cache()), trace)
      ensures firewall.domainMap.Keys == old(firewall.domainMap.Keys)
      ensures Decided(udpHandlers, addr, old(GateNow()), GateNow(), launched, trace)
    {
      launched, trace := Notify(udpHandlers, addr, env);
    }
  }

  // ----- every interleaving of notifications under a cap -----

  datatype Notification = Tcp(addr: Addr) | Udp(addr: Addr)

  function Matched(tcp: seq<string>, udp: seq<string>, n: Notification): Option<nat> {
    match n
    case Tcp(addr) => FirstMatch(tcp, addr)
    case Udp(addr) => FirstMatch(udp, addr)
  }

  function CapRun(s: Capped, max: nat, tcp: seq<string>, udp: seq<string>, notes: seq<Notification>): Capped
    decreases |notes|
  {
    if |notes| == 0 then s
    else CapRun(CapStep(s, max, Matched(tcp, udp, notes[0])), max, tcp, udp, notes[1..])
  }

  /** The handlers a run would launch if there were no cap. */
  function Wanted(tcp: seq<string>, udp: seq<string>, notes: seq<Notification>): seq<nat> {
    if |notes| == 0 then []
    else AsSeq(Matched(tcp, udp, notes[0])) + Wanted(tcp, udp, notes[1..])
  }

  function Min(a: nat, b: nat): nat {
    if a <= b then a else b
  }

  /** One step and then the cut of what is left is the cut of the whole. */
  lemma StepTakesFromCut(s: Capped, max: nat, m: Option<nat>, rest: seq<nat>)
    requires s.connections == |s.launched| <= max
    ensures
      var next, all := CapStep(s, max, m), AsSeq(m) + rest;
      && next.connections == |next.launched| <= max
      && next.launched + rest[..Min(|rest|, max - next.connections)]
           == s.launched + all[..Min(|all|, max - s.connections)]
  {
    var room := max - s.connections;
    TakeFromConcat(AsSeq(m), rest, room);
    if room == 0 {
      assert rest[..0] == [];
    }
  }

  lemma TakeFromConcat(a: seq<nat>, b: seq<nat>, room: nat)
    requires |a| <= 1
    ensures (a + b)[..Min(|a + b|, room)] == if room == 0 then [] else a + b[..Min(|b|, room - |a|)]
  {
  }

  /**
    Over every interleaving: the handlers launched are the first matches of the
    first notifications that have one, cut off at the cap; the counter is their
    number. So the cap is never exceeded, never leaves room unused, and once hit
    nothing is launched again.
   */
  lemma {:induction false} CapIsExact(s: Capped, max: nat, tcp: seq<string>, udp: seq<string>, notes: seq<Notification>)
    requires s.connections == |s.launched| <= max
    ensures
      var s', wanted := CapRun(s, max, tcp, udp, notes), Wanted(tcp, udp, notes);
      && s'.launched == s.launched + wanted[..Min(|wanted|, max - s.connections)]
      && s'.connections == |s'.launched| <= max
    decreases |notes|
  {
    if |notes| > 0 {
      var m, rest := Matched(tcp, udp, notes[0]), Wanted(tcp, udp, notes[1..]);
      StepTakesFromCut(s, max, m, rest);
      CapIsExact(CapStep(s, max, m), max, tcp, udp, notes[1..]);
    } else {
      assert Wanted(tcp, udp, notes)[..0] == [];
    }
  }

  /** With the handlers the program registers, every notification counts until the cap. */
  lemma {:induction false} EveryNotificationWanted(notes: seq<Notification>)
    ensures
      var wanted := Wanted([ANY_PATTERN], [DNS_PATTERN, ANY_PATTERN], notes);
      && |wanted| == |notes|
      && forall i :: 0 <= i < |notes| ==> wanted[i] == if notes[i].Udp? && notes[i].addr.port != 53 then 1 else 0
  {
    if |notes| > 0 {
      DnsPatternMatchesPort53(notes[0].addr);
      assert [DNS_PATTERN, ANY_PATTERN][1..] == [ANY_PATTERN];
      EveryNotificationWanted(notes[1..]);
    }
  }
}
