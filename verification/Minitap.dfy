/**
  The Go process: the globals of `firewall.go` and `dns.go` and the functions
  that change them. The resolver is an arbitrary function, a fresh one for every
  query, and DNS queries of the sandboxed program may fall between any two
  lookups of the slow path.
 */
module Minitap {
  import opened Text
  import opened RulesFile
  import opened AnswerCache

  /** `LookupIP`: `None` is an error, a missing address is a nil entry. */
  type Resolver = string -> Option<seq<Option<Ip>>>

  datatype Query = Query(name: string, resolver: Resolver)

  /** One turn of the slow path: the queries that get in first, then the lookup itself. */
  datatype Turn = Turn(before: seq<Query>, resolver: Resolver)

  datatype ResolvConf = ResolvConf(servers: seq<string>, search: seq<string>, ndots: int)

  const DEFAULT_DNS_HOST := "8.8.8.8"

  /** The host queries go to: the first configured server, or the default. */
  function UpstreamHost(conf: Option<ResolvConf>): string {
    if conf.Some? && |conf.value.servers| > 0 then conf.value.servers[0] else DEFAULT_DNS_HOST
  }

  /** The configuration of lookups: search domains and the number of dots that makes a name qualified. */
  datatype Search = Search(domains: seq<string>, ndots: int)

  /** What the configured servers bring along; a non-positive ndots does not count. */
  function UpstreamSearch(conf: Option<ResolvConf>, search: Search): Search {
    if conf.Some? && |conf.value.servers| > 0
    then Search(conf.value.search, if conf.value.ndots > 0 then conf.value.ndots else search.ndots)
    else search
  }

  function Present(ips: seq<Option<Ip>>): seq<Ip> {
    if |ips| == 0 then []
    else (if ips[0].Some? then [ips[0].value] else []) + Present(ips[1..])
  }

  lemma {:induction false} PresentSnoc(ips: seq<Option<Ip>>, ip: Option<Ip>)
    ensures Present(ips + [ip]) == Present(ips) + if ip.Some? then [ip.value] else []
  {
    if |ips| == 0 {
      assert ips + [ip] == [ip] && [ip][1..] == [];
    } else {
      assert (ips + [ip])[1..] == ips[1..] + [ip];
      PresentSnoc(ips[1..], ip);
    }
  }

  function TrimDot(s: string): string {
    if |s| > 0 && s[|s| - 1] == '.' then s[..|s| - 1] else s
  }

  function CountDots(s: string): nat {
    if |s| == 0 then 0 else (if s[0] == '.' then 1 else 0) + CountDots(s[1..])
  }

  function Suffixed(name: string, search: seq<string>): seq<string> {
    if |search| == 0 then []
    else [TrimDot(name) + "." + TrimDot(search[0]) + "."] + Suffixed(name, search[1..])
  }

  /** The names to try, in order: the bare name goes first when it looks qualified. */
  function Candidates(name: string, search: seq<string>, ndots: int): seq<string> {
    if CountDots(TrimDot(name)) >= ndots || search == [] then [name] + Suffixed(name, search)
    else Suffixed(name, search) + [name]
  }

  lemma {:induction false} DotsCounted(s: string)
    ensures CountDots(s) == multiset(s)['.']
  {
    if |s| > 0 {
      DotsCounted(s[1..]);
      assert s == [s[0]] + s[1..];
    }
  }

  lemma {:induction false} SuffixedAt(name: string, search: seq<string>, i: nat)
    requires i < |search|
    ensures |Suffixed(name, search)| == |search|
    ensures Suffixed(name, search)[i] == TrimDot(name) + "." + TrimDot(search[i]) + "."
  {
    if |search| > 1 {
      SuffixedAt(name, search[1..], if i == 0 then 0 else i - 1);
    }
  }

  lemma TrimDotIs(s: string)
    ensures TrimDot(s + ".") == s
    ensures !EndsWith(s, ".") ==> TrimDot(s) == s
  {
    EndsWithDot(s);
  }

  /**
    The order of the candidates for a name, written with or without its final dot: the
    name as it was asked comes first exactly when it has enough dots, the final one not
    counted, or there is no search domain, and else last; the search domains keep their order.
   */
  lemma {:induction false} CandidateOrder(base: string, dotted: bool, search: seq<string>, ndots: int, i: nat)
    requires !EndsWith(base, ".") && i < |search|
    ensures
      var name := if dotted then base + "." else base;
      var candidates := Candidates(name, search, ndots);
      var first := multiset(base)['.'] >= ndots;
      && |candidates| == |search| + 1
      && candidates[if first then 0 else |search|] == name
      && candidates[if first then i + 1 else i] == base + "." + TrimDot(search[i]) + "."
    ensures Candidates(if dotted then base + "." else base, [], ndots) == [if dotted then base + "." else base]
  {
    var name := if dotted then base + "." else base;
    TrimDotIs(base);
    DotsCounted(base);
    SuffixedAt(name, search, i);
  }

  /** The answer of the first candidate that resolves. */
  function FirstResolved(candidates: seq<string>, resolver: Resolver): Option<seq<Option<Ip>>> {
    if |candidates| == 0 then None
    else if resolver(candidates[0]).Some? then resolver(candidates[0])
    else FirstResolved(candidates[1..], resolver)
  }

  /** The first that resolves is taken, and there is no answer exactly when none does. */
  lemma {:induction false} FirstResolvedIs(candidates: seq<string>, resolver: Resolver, i: nat)
    requires i <= |candidates| && forall j :: 0 <= j < i ==> resolver(candidates[j]).None?
    requires i < |candidates| ==> resolver(candidates[i]).Some?
    ensures FirstResolved(candidates, resolver) == if i < |candidates| then resolver(candidates[i]) else None
  {
    if i > 0 {
      FirstResolvedIs(candidates[1..], resolver, i - 1);
    }
  }

  /** What a lookup of `name` would record: nothing when it fails or answers with a nil address. */
  function Found(name: string, search: seq<string>, ndots: int, resolver: Resolver): Option<seq<Ip>> {
    match FirstResolved(Candidates(name, search, ndots), resolver)
    case None => None
    case Some(ips) => if None in ips then None else Some(Present(ips))
  }

  lemma {:induction false} AllPresent(ips: seq<Option<Ip>>)
    requires None !in ips
    ensures |Present(ips)| == |ips| && forall i :: 0 <= i < |ips| ==> ips[i] == Some(Present(ips)[i])
  {
    if |ips| > 0 {
      AllPresent(ips[1..]);
    }
  }

  /** The answers one query records: at most one, and only for an allowed domain. */
  function Learned(names: set<string>, name: string, found: Option<seq<Ip>>): (t: seq<Answer>)
    ensures forall a <- t :: a.domain in names && found == Some(a.ips)
  {
    if found.Some? && Fqdn(name) in names then [Answer(Fqdn(name), found.value)] else []
  }

  function LearnedBy(names: set<string>, search: Search, q: Query): seq<Answer> {
    Learned(names, q.name, Found(q.name, search.domains, search.ndots, q.resolver))
  }

  /** What a sequence of queries records, one after the other. */
  function QueryTrace(names: set<string>, search: Search, queries: seq<Query>): seq<Answer> {
    if |queries| == 0 then []
    else
      QueryTrace(names, search, queries[..|queries| - 1]) + LearnedBy(names, search, queries[|queries| - 1])
  }

  lemma QueryTraceSnoc(names: set<string>, search: Search, queries: seq<Query>, n: nat)
    requires n < |queries|
    ensures QueryTrace(names, search, queries[..n + 1])
         == QueryTrace(names, search, queries[..n]) + LearnedBy(names, search, queries[n])
  {
    assert queries[..n + 1][..n] == queries[..n];
  }

  lemma OneMoreQuery(c: Cache, names: set<string>, search: Search, queries: seq<Query>, n: nat)
    requires n < |queries|
    ensures
      var trace, learned := QueryTrace(names, search, queries[..n]), LearnedBy(names, search, queries[n]);
      && QueryTrace(names, search, queries[..n + 1]) == trace + learned
      && UpdateAll(c, trace + learned) == UpdateAll(UpdateAll(c, trace), learned)
  {
    QueryTraceSnoc(names, search, queries, n);
    UpdateAllConcat(c, QueryTrace(names, search, queries[..n]), LearnedBy(names, search, queries[n]));
  }

  /** What a turn of the slow path records: the queries that got in first, then its own lookup. */
  function TurnTrace(names: set<string>, search: Search, domain: string, turn: Turn): seq<Answer> {
    QueryTrace(names, search, turn.before) + LearnedBy(names, search, Query(domain, turn.resolver))
  }

  /** What the slow path records for the domains in this order. */
  function SlowTrace(names: set<string>, search: Search, order: seq<string>, env: nat -> Turn): seq<Answer> {
    var n := |order|;
    if n == 0 then []
    else SlowTrace(names, search, order[..n - 1], env) + TurnTrace(names, search, order[n - 1], env(n - 1))
  }

  lemma SlowTraceSnoc(names: set<string>, search: Search, order: seq<string>, domain: string, env: nat -> Turn)
    ensures SlowTrace(names, search, order + [domain], env)
         == SlowTrace(names, search, order, env) + TurnTrace(names, search, domain, env(|order|))
  {
    assert (order + [domain])[..|order|] == order;
  }

  function Literals(rules: seq<string>, isIp: string -> bool): set<Ip> {
    set r | r in rules && isIp(r)
  }

  /** The fully qualified form of every rule that is not an address. */
  function Names(rules: seq<string>, isIp: string -> bool): set<string> {
    set r | r in rules && !isIp(r) :: Fqdn(r)
  }

  /** The names allowed by the rules: those of a rule that is no address, up to the final dot. */
  lemma NameAllowedIff(rules: seq<string>, isIp: string -> bool, name: string)
    ensures Fqdn(name) in Names(rules, isIp) <==> exists r <- rules :: !isIp(r) && SameName(r, name)
  {
    forall r | r in rules
      ensures Fqdn(r) == Fqdn(name) <==> SameName(r, name)
    {
      FqdnAddsTheDot(r, name);
    }
  }

  /**
    A rule without a final dot is kept with one, and a query for the name, however it is
    written, records its answer there.
   */
  lemma RuleMeetsItsQueries(
      rules: seq<string>, isIp: string -> bool, rule: string, dotted: bool, search: Search, resolver: Resolver)
    requires rule in rules && !isIp(rule) && !EndsWith(rule, ".")
    ensures rule + "." in Names(rules, isIp)
    ensures
      var name := if dotted then rule + "." else rule;
      var found := Found(name, search.domains, search.ndots, resolver);
      LearnedBy(Names(rules, isIp), search, Query(name, resolver))
        == if found.Some? then [Answer(rule + ".", found.value)] else []
  {
    FqdnAddsTheDot(rule, rule);
    assert Fqdn(rule) in Names(rules, isIp);
  }

  function Unanswered(names: set<string>): map<string, seq<Ip>> {
    map d | d in names :: []
  }

  lemma UnansweredGrows(names: set<string>, d: string)
    ensures Unanswered(names + {d}) == Unanswered(names)[d := []]
  {
  }

  /** The cache `InitFirewall` leaves: literal addresses on one side, names on the other. */
  function InitialCache(allowed: set<Ip>, rules: seq<string>, isIp: string -> bool): Cache {
    Cache(allowed + Literals(rules, isIp), Unanswered(Names(rules, isIp)))
  }

  lemma LiteralsCons(rule: string, rules: seq<string>, isIp: string -> bool)
    ensures Literals([rule] + rules, isIp) == Literals(rules, isIp) + if isIp(rule) then {rule} else {}
  {
    assert forall r :: r in [rule] + rules <==> r == rule || r in rules;
  }

  lemma NamesCons(rule: string, rules: seq<string>, isIp: string -> bool)
    ensures Names([rule] + rules, isIp) == Names(rules, isIp) + if isIp(rule) then {} else {Fqdn(rule)}
  {
    var both := [rule] + rules;
    assert forall r :: r in both <==> r == rule || r in rules;
    forall d | d in Names(rules, isIp)
      ensures d in Names(both, isIp)
    {
      var r :| r in rules && !isIp(r) && d == Fqdn(r);
      assert r in both;
    }
    if !isIp(rule) {
      assert rule in both;
    }
  }

  lemma InitialCacheCons(allowed: set<Ip>, rule: string, rules: seq<string>, isIp: string -> bool)
    ensures InitialCache(allowed, [rule] + rules, isIp) ==
            var c := InitialCache(allowed, rules, isIp);
            if isIp(rule) then c.(allowed := c.allowed + {rule}) else c.(domains := c.domains[Fqdn(rule) := []])
  {
    LiteralsCons(rule, rules, isIp);
    NamesCons(rule, rules, isIp);
    if !isIp(rule) {
      UnansweredGrows(Names(rules, isIp), Fqdn(rule));
    }
  }

  /** Nobody else asks, and every turn meets the same resolver. */
  ghost predicate Quiet(env: nat -> Turn) {
    forall k: nat :: env(k).before == [] && env(k).resolver == env(0).resolver
  }

  /** What looking each domain up would record. */
  function LookupOutcomes(search: Search, resolver: Resolver): Outcomes {
    d => Found(d, search.domains, search.ndots, resolver)
  }

  /** In a quiet environment with one resolver the slow path is one refresh of the domains in its order. */
  lemma {:induction false} QuietSlowPathIsARefresh(
      names: set<string>, search: Search, order: seq<string>, env: nat -> Turn)
    requires Quiet(env) && forall d <- order :: d in names && Fqdn(d) == d
    ensures SlowTrace(names, search, order, env) == RefreshTrace(order, LookupOutcomes(search, env(0).resolver))
    decreases |order|
  {
    var n := |order|;
    if n > 0 {
      var init, d := order[..n - 1], order[n - 1];
      assert order == init + [d];
      QuietSlowPathIsARefresh(names, search, init, env);
      RefreshTraceSnoc(init, d, LookupOutcomes(search, env(0).resolver));
      assert env(n - 1).before == [] && d in names;
    }
  }

  /**
    With disjoint pools the order in which the runtime ranges over the domains is of
    no consequence to the maps a quiet slow path leaves.
   */
  lemma {:induction false} SlowPathIsOrderIndependent(
      owner: Owner, base: set<Ip>, c: Cache, search: Search, env: nat -> Turn, order: seq<string>, other: seq<string>)
    requires PoolsDisjoint(owner, base, c) && Exact(base, c) && Quiet(env)
    requires forall d <- c.domains :: Fqdn(d) == d
    requires Enumerates(order, c.domains.Keys) && Enumerates(other, c.domains.Keys)
    requires
      var outcomes := LookupOutcomes(search, env(0).resolver);
      forall d <- c.domains :: outcomes(d).Some? ==> FromPool(owner, Answer(d, outcomes(d).value))
    ensures UpdateAll(c, SlowTrace(c.domains.Keys, search, order, env))
         == UpdateAll(c, SlowTrace(c.domains.Keys, search, other, env))
  {
    var outcomes := LookupOutcomes(search, env(0).resolver);
    QuietSlowPathIsARefresh(c.domains.Keys, search, order, env);
    QuietSlowPathIsARefresh(c.domains.Keys, search, other, env);
    RefreshIsOrderIndependent(owner, base, c, outcomes, order);
    RefreshIsOrderIndependent(owner, base, c, outcomes, other);
  }

  class Process {
    /** `net.ParseIP(s) != nil`. */
    const isIp: string -> bool

    var rules: seq<string>
    var count: nat
    var maxConnections: int
    var connections: nat
    var allowedIps: set<Ip>
    var domainMap: map<string, seq<Ip>>
    var deniedDomainMap: seq<string>
    var upstreamSet: bool
    var searchDomains: seq<string>
    var ndots: int

    constructor (isIp: string -> bool)
      ensures this.isIp == isIp && rules == [] && count == 0 && maxConnections == 0 && connections == 0
      ensures Cache() == AnswerCache.Cache({}, map[]) && !upstreamSet && deniedDomainMap == []
    {
      this.isIp := isIp;
      rules, count, maxConnections, connections := [], 0, 0, 0;
      allowedIps, domainMap, deniedDomainMap := {}, map[], [];
      upstreamSet, searchDomains, ndots := false, [], 1;
    }

    ghost function Cache(): Cache
      reads this
    {
      AnswerCache.Cache(allowedIps, domainMap)
    }

    function Searching(): Search
      reads this
    {
      Search(searchDomains, ndots)
    }

    /** Rules are counted, and the keys of the map are fully qualified names. */
    ghost predicate Valid()
      reads this
    {
      count == |rules| && (forall d <- domainMap :: Fqdn(d) == d) && (count == 0 ==> domainMap == map[])
    }

    /** The scan loop; the header sets the cap, every further line is a rule. */
    method ReadFirewallRules(text: string)
      requires Valid()
      modifies this`rules, this`count, this`maxConnections
      ensures Valid() && rules == old(rules) + ReadPolicy(text).rules
      ensures maxConnections == if ReadPolicy(text).max.Some? then ReadPolicy(text).max.value else old(maxConnections)
    {
      var lines := Lines(text);
      ghost var policy, before := ReadPolicy(text), rules;
      var lineno := 0;
      for i := 0 to |lines|
        invariant lineno == if i == 0 then 0 else 1
        invariant i == 0 ==> maxConnections == old(maxConnections) && rules == before
        invariant i > 0 ==> policy.max == Some(maxConnections) && rules == before + TrimAll(lines[1..i])
        invariant count == |rules|
      {
        var line := TrimSpace(lines[i]);
        if lineno == 0 {
          lineno := lineno + 1;
          var n := ParseInt(line);
          if n.None? {
            return;
          }
          maxConnections := n.value;
          assert lines[1..1] == [];
        } else {
          TrimAllPrefix(lines, i);
          rules := rules + [line];
          count := count + 1;
        }
      }
      assert |lines| > 0 ==> lines[1..|lines|] == lines[1..];
    }

    /** Adds the host of the upstream resolver to the admitted addresses, once. */
    method SetUpstreamDNS(conf: Option<ResolvConf>)
      modifies this`upstreamSet, this`allowedIps, this`searchDomains, this`ndots
      ensures upstreamSet
      ensures allowedIps == if old(upstreamSet) then old(allowedIps) else old(allowedIps) + {UpstreamHost(conf)}
      ensures !old(upstreamSet) && conf == None ==> allowedIps == old(allowedIps) + {"8.8.8.8"}
      ensures Searching() == if old(upstreamSet) then old(Searching()) else UpstreamSearch(conf, old(Searching()))
    {
      if upstreamSet {
        return;
      }
      upstreamSet := true;
      var host := DEFAULT_DNS_HOST;
      if conf.Some? && conf.value.servers != [] {
        host := conf.value.servers[0];
        searchDomains := conf.value.search;
        if conf.value.ndots > 0 {
          ndots := conf.value.ndots;
        }
      }
      allowedIps := allowedIps + {host};
    }

    /** Sorts the rules into literal addresses and names, last rule first. */
    method InitFirewall()
      requires count == |rules| && domainMap == map[]
      modifies this`allowedIps, this`domainMap
      ensures Valid() && Cache() == InitialCache(old(allowedIps), rules, isIp)
      ensures forall r <- rules :: !isIp(r) && !EndsWith(r, ".") ==> r + "." in domainMap && domainMap[r + "."] == []
      ensures forall r <- rules :: isIp(r) ==> r in allowedIps
    {
      if count == 0 {
        return;
      }
      var i := count;
      while i > 0
        invariant 0 <= i <= count
        invariant Cache() == InitialCache(old(allowedIps), rules[i..], isIp)
      {
        i := i - 1;
        var rule := rules[i];
        assert rules[i..] == [rule] + rules[i + 1..];
        InitialCacheCons(old(allowedIps), rule, rules[i + 1..], isIp);
        if !isIp(rule) {
          domainMap := domainMap[Fqdn(rule) := []];
        } else {
          allowedIps := allowedIps + {rule};
        }
      }
      assert rules[0..] == rules;
      forall r | r in rules && !isIp(r) && !EndsWith(r, ".")
        ensures r + "." in domainMap && domainMap[r + "."] == []
      {
        FqdnAddsTheDot(r, r);
        assert Fqdn(r) in Names(rules, isIp);
      }
    }

    method ForgetAddresses(previous: seq<Ip>)
      modifies this`allowedIps
      ensures allowedIps == old(allowedIps) - Elements(previous)
    {
      for i := 0 to |previous|
        invariant allowedIps == old(allowedIps) - Elements(previous[..i])
      {
        allowedIps := allowedIps - {previous[i]};
        assert previous[..i + 1] == previous[..i] + [previous[i]];
      }
      assert previous[..|previous|] == previous;
    }

    method AdmitAddresses(ips: seq<Option<Ip>>) returns (ipStrs: seq<Ip>)
      modifies this`allowedIps
      ensures ipStrs == Present(ips) && allowedIps == old(allowedIps) + Elements(ipStrs)
    {
      ipStrs := [];
      for i := 0 to |ips|
        invariant ipStrs == Present(ips[..i])
        invariant allowedIps == old(allowedIps) + Elements(ipStrs)
      {
        PresentSnoc(ips[..i], ips[i]);
        assert ips[..i + 1] == ips[..i] + [ips[i]];
        if ips[i].Some? {
          ipStrs := ipStrs + [ips[i].value];
          allowedIps := allowedIps + {ips[i].value};
        }
      }
      assert ips[..|ips|] == ips;
    }

    /** Replaces the recorded answers of an allowed domain, in both maps. */
    method UpdateFirewall(name: string, ips: seq<Option<Ip>>)
      requires Valid()
      modifies this`allowedIps, this`domainMap, this`deniedDomainMap
      ensures Valid() && Cache() == Update(old(Cache()), Answer(Fqdn(name), Present(ips)))
      ensures deniedDomainMap == old(deniedDomainMap) + if Fqdn(name) in old(domainMap) then [] else [Fqdn(name)]
    {
      var domain := Fqdn(name);
      if domain in domainMap {
        ForgetAddresses(domainMap[domain]);
        var ipStrs := AdmitAddresses(ips);
        domainMap := domainMap[domain := ipStrs];
      } else {
        deniedDomainMap := deniedDomainMap + [domain];
      }
    }

    /** Whether a name may be looked up at all. */
    predicate FirewallDns(name: string)
      reads this
    {
      if count == 0 then maxConnections < 0 || connections < maxConnections else Fqdn(name) in domainMap
    }

    /** With rules, the name is looked for with its final dot; without, the cap decides. */
    lemma FirewallDnsIff(name: string)
      ensures count > 0 && EndsWith(name, ".") ==> (FirewallDns(name) <==> name in domainMap)
      ensures count > 0 && !EndsWith(name, ".") ==> (FirewallDns(name) <==> name + "." in domainMap)
      ensures count == 0 ==> (FirewallDns(name) <==> maxConnections < 0 || connections < maxConnections)
    {
      EndsWithDot(name);
      FqdnAddsTheDot(name, name);
    }

    method LookupWithSearch(name: string, resolver: Resolver) returns (ips: Option<seq<Option<Ip>>>)
      ensures ips == FirstResolved(Candidates(name, searchDomains, ndots), resolver)
    {
      var stripped := TrimDot(name);
      var suffixed := Suffixed(name, searchDomains);
      var candidates;
      if CountDots(stripped) >= ndots || searchDomains == [] {
        candidates := [name] + suffixed;
      } else {
        candidates := suffixed + [name];
      }
      for i := 0 to |candidates|
        invariant FirstResolved(candidates, resolver) == FirstResolved(candidates[i..], resolver)
      {
        var answer := resolver(candidates[i]);
        if answer.Some? {
          return answer;
        }
        assert candidates[i..][1..] == candidates[i + 1..];
      }
      return None;
    }

    /** Answers an A query and records what it learned. */
    method HandleDNSQuery(name: string, resolver: Resolver) returns (rrs: Option<seq<Ip>>)
      requires Valid()
      modifies this`allowedIps, this`domainMap, this`deniedDomainMap
      ensures Valid() && domainMap.Keys == old(domainMap.Keys)
      ensures Cache() == UpdateAll(old(Cache()), LearnedBy(old(domainMap.Keys), Searching(), Query(name, resolver)))
      ensures rrs == if old(FirewallDns(name)) then Found(name, searchDomains, ndots, resolver) else None
      ensures deniedDomainMap ==
        old(deniedDomainMap) + if rrs.Some? && Fqdn(name) !in old(domainMap) then [Fqdn(name)] else []
    {
      if !FirewallDns(name) {
        assert Fqdn(name) !in domainMap.Keys;
        return None;
      }
      var answer := LookupWithSearch(name, resolver);
      if answer.None? {
        return None;
      }
      var ips := answer.value;
      if None in ips {
        // dns.NewRR has no record to build
        return None;
      }
      UpdateFirewall(name, ips);
      if Fqdn(name) in old(domainMap) {
        ghost var a := Answer(Fqdn(name), Present(ips));
        UpdateAllSnoc(old(Cache()), [], a);
        assert [] + [a] == [a];
      }
      return Some(Present(ips));
    }

    method HandleAll(queries: seq<Query>)
      requires Valid()
      modifies this`allowedIps, this`domainMap, this`deniedDomainMap
      ensures Valid() && domainMap.Keys == old(domainMap.Keys)
      ensures Cache() == UpdateAll(old(Cache()), QueryTrace(old(domainMap.Keys), Searching(), queries))
      ensures count > 0 ==> deniedDomainMap == old(deniedDomainMap)
    {
      ghost var names, search, start, trace := domainMap.Keys, Searching(), Cache(), [];
      for i := 0 to |queries|
        invariant Valid() && domainMap.Keys == names
        invariant trace == QueryTrace(names, search, queries[..i])
        invariant count > 0 ==> deniedDomainMap == old(deniedDomainMap)
        invariant Cache() == UpdateAll(start, trace)
      {
        var q := queries[i];
        OneMoreQuery(start, names, search, queries, i);
        var _ := HandleDNSQuery(q.name, q.resolver);
        trace := trace + LearnedBy(names, search, q);
      }
      assert queries[..|queries|] == queries;
    }

    /** One turn of the slow path. */
    method TakeTurn(domain: string, turn: Turn)
      requires Valid() && domain in domainMap
      modifies this`allowedIps, this`domainMap, this`deniedDomainMap
      ensures Valid() && domainMap.Keys == old(domainMap.Keys)
      ensures Cache() == UpdateAll(old(Cache()), TurnTrace(old(domainMap.Keys), Searching(), domain, turn))
      ensures deniedDomainMap == old(deniedDomainMap)
    {
      ghost var names, search := domainMap.Keys, Searching();
      UpdateAllConcat(Cache(), QueryTrace(names, search, turn.before),
        LearnedBy(names, search, Query(domain, turn.resolver)));
      HandleAll(turn.before);
      var _ := HandleDNSQuery(domain, turn.resolver);
    }

    /**
      The slow path: a lookup for every domain, in the order the runtime picks,
      with other queries in between.
     */
    method RefreshDomains(env: nat -> Turn) returns (ghost order: seq<string>)
      requires Valid() && count > 0
      modifies this`allowedIps, this`domainMap, this`deniedDomainMap
      ensures Valid() && domainMap.Keys == old(domainMap.Keys)
      ensures Enumerates(order, old(domainMap.Keys))
      ensures Cache() == UpdateAll(old(Cache()), SlowTrace(old(domainMap.Keys), Searching(), order, env))
      ensures deniedDomainMap == old(deniedDomainMap)
    {
      ghost var names, search, start, trace := domainMap.Keys, Searching(), Cache(), [];
      var todo := domainMap.Keys;
      var turn: nat := 0;
      order := [];
      while todo != {}
        invariant Valid() && domainMap.Keys == names
        invariant todo <= names && Enumerates(order, names - todo) && turn == |order|
        invariant trace == SlowTrace(names, search, order, env)
        invariant deniedDomainMap == old(deniedDomainMap)
        invariant Cache() == UpdateAll(start, trace)
        decreases todo
      {
        var domain :| domain in todo;
        OneMoreDone(order, names, todo, domain);
        todo := todo - {domain};
        ghost var learned := TurnTrace(names, search, domain, env(turn));
        SlowTraceSnoc(names, search, order, domain, env);
        UpdateAllConcat(start, trace, learned);
        TakeTurn(domain, env(turn));
        order, trace := order + [domain], trace + learned;
        turn := turn + 1;
      }
      assert names - todo == names;
    }

    /**
      The admission decision. With a cap it only counts; without rules it lets
      everything through; otherwise the address must be cached, before or after a
      refresh of every domain.
     */
    method FirewallConnection(destination: Ip, env: nat -> Turn)
      returns (ok: bool, ghost order: seq<string>, ghost trace: seq<Answer>)
      requires Valid()
      modifies this`connections, this`allowedIps, this`domainMap, this`deniedDomainMap
      ensures Valid() && domainMap.Keys == old(domainMap.Keys)
      ensures Cache() == UpdateAll(old(Cache()), trace)
      ensures deniedDomainMap == old(deniedDomainMap)
      ensures maxConnections >= 0 ==> ok == (old(connections) < maxConnections)
      ensures connections == old(connections) + if maxConnections >= 0 && ok then 1 else 0
      ensures maxConnections < 0 && count == 0 ==> ok
      ensures maxConnections < 0 && count > 0 ==> ok == (destination in allowedIps)
      ensures
        if maxConnections < 0 && count > 0 && destination !in old(allowedIps) then
          && Enumerates(order, old(domainMap.Keys))
          && trace == SlowTrace(old(domainMap.Keys), Searching(), order, env)
        else
          trace == []
    {
      order, trace := [], [];
      if maxConnections >= 0 {
        if connections < maxConnections {
          connections := connections + 1;
          return true, order, trace;
        }
        return false, order, trace;
      } else {
        if count == 0 {
          return true, order, trace;
        }
        if destination in allowedIps {
          return true, order, trace;
        }
        order := RefreshDomains(env);
        trace := SlowTrace(domainMap.Keys, Searching(), order, env);
        ok := destination in allowedIps;
      }
    }
  }

  lemma OneMoreDone(order: seq<string>, names: set<string>, todo: set<string>, d: string)
    requires Enumerates(order, names - todo) && todo <= names && d in todo
    ensures Enumerates(order + [d], names - (todo - {d}))
  {
    EnumerationGrows(order, names - todo, d);
    assert names - todo + {d} == names - (todo - {d});
  }

  lemma {:induction false} RefreshTraceSnoc(order: seq<string>, d: string, outcomes: Outcomes)
    ensures RefreshTrace(order + [d], outcomes)
         == RefreshTrace(order, outcomes) + if outcomes(d).Some? then [Answer(d, outcomes(d).value)] else []
  {
    if |order| == 0 {
      assert order + [d] == [d] && [d][1..] == [];
    } else {
      assert (order + [d])[1..] == order[1..] + [d];
      RefreshTraceSnoc(order[1..], d, outcomes);
    }
  }
}
