/**
  From the calls of the C++ interface to the decisions of the Go process: table,
  rules file, reader and the two maps, end to end.
 */
module PolicyPipeline {
  import opened Text
  import opened FirewallTable
  import opened RulesFile
  import opened AnswerCache
  import opened Minitap

  /** Every slot in use can be read back, and every accepted rule is a single trimmed line. */
  ghost predicate CleanCalls(calls: seq<Call>)
  {
    && RunCallable(Zeroed(), calls)
    && AllReadable(Expected(Zeroed(), NothingYet(), calls))
    && (forall r <- Expected(Zeroed(), NothingYet(), calls).accepted :: OneLine(r))
  }

  function AcceptedRules(calls: seq<Call>): seq<string>
    requires RunCallable(Zeroed(), calls)
  {
    Expected(Zeroed(), NothingYet(), calls).accepted
  }

  /** What the reader makes of the table the calls leave: the cap alone, or exactly the accepted rules. */
  lemma PolicySurvivesTheFile(calls: seq<Call>)
    requires CleanCalls(calls)
    ensures
      var t := Run(Zeroed(), calls);
      ReadPolicy(DumpText(t.max, Slots(t)))
        == Policy(Some(t.max), if t.max >= 0 then [] else AcceptedRules(calls))
  {
    TableHoldsAcceptedRules(calls);
    var t := Run(Zeroed(), calls);
    RulesFileRoundTrip(t.max, Slots(t));
  }

  /** The order of the rules and their repetitions do not matter. */
  lemma RulesAreASet(allowed: set<Ip>, rules: seq<string>, others: seq<string>, isIp: string -> bool)
    requires Elements(rules) == Elements(others)
    ensures InitialCache(allowed, rules, isIp) == InitialCache(allowed, others, isIp)
  {
    assert forall r :: r in rules <==> r in Elements(rules);
    assert forall r :: r in others <==> r in Elements(others);
    assert Literals(rules, isIp) == Literals(others, isIp);
    assert Names(rules, isIp) == Names(others, isIp);
  }

  method DumpedPolicy(table: FirewallRules, ghost calls: seq<Call>) returns (text: string)
    requires table.Valid() && CleanCalls(calls) && table.Value() == Run(Zeroed(), calls)
    ensures ReadPolicy(text).max == Some(table.maxConnections)
    ensures ReadPolicy(text).rules == if table.maxConnections >= 0 then [] else AcceptedRules(calls)
  {
    text := table.DumpRules();
    PolicySurvivesTheFile(calls);
  }

  /** The order in which the Go process sets itself up. */
  method Boot(text: string, conf: Option<ResolvConf>, isIp: string -> bool) returns (p: Process)
    requires ReadPolicy(text).max.Some?
    ensures fresh(p) && p.Valid() && p.connections == 0
    ensures p.maxConnections == ReadPolicy(text).max.value && p.rules == ReadPolicy(text).rules
    ensures p.Cache() == InitialCache({UpstreamHost(conf)}, p.rules, isIp)
  {
    p := new Process(isIp);
    p.ReadFirewallRules(text);
    p.SetUpstreamDNS(conf);
    p.InitFirewall();
  }

  /**
    Start-up of the Go process on the dumped table. Either the cap is in force and
    there is no rule, or there is no cap and the two maps are exactly the literal
    addresses, plus the resolver host, and the names among the accepted rules.
   */
  method StartMinitap(table: FirewallRules, ghost calls: seq<Call>, conf: Option<ResolvConf>, isIp: string -> bool)
    returns (p: Process)
    requires table.Valid() && CleanCalls(calls) && table.Value() == Run(Zeroed(), calls)
    ensures fresh(p) && p.Valid() && p.connections == 0
    ensures p.maxConnections == table.maxConnections
    ensures p.rules == if p.maxConnections >= 0 then [] else AcceptedRules(calls)
    ensures p.Cache() == InitialCache({UpstreamHost(conf)}, p.rules, isIp)
  {
    var text := DumpedPolicy(table, calls);
    p := Boot(text, conf, isIp);
  }

  /**
    Over all runs: after start-up, whatever lookups succeed and however they
    interleave, the allowed domains stay the names among the rules, and every
    cached address is a literal rule, the resolver host, or in the answer now
    recorded for one of those names.
   */
  lemma AdmissionIsSound(host: string, rules: seq<string>, isIp: string -> bool, trace: seq<Answer>, destination: Ip)
    ensures
      var c := UpdateAll(InitialCache({host}, rules, isIp), trace);
      && c.domains.Keys == Names(rules, isIp)
      && (destination in c.allowed ==>
            || destination == host
            || (destination in rules && isIp(destination))
            || RecordedFor(c.domains, destination))
  {
    var base := {host} + Literals(rules, isIp);
    var start := InitialCache({host}, rules, isIp);
    UpdatesStaySound(base, start, trace);
    var c := UpdateAll(start, trace);
    assert start.domains.Keys == Names(rules, isIp);
    if destination in c.allowed {
      assert destination in base || RecordedFor(c.domains, destination);
    }
  }

  /** The start-up cache is exact, so with disjoint pools every later one is. */
  lemma CacheIsExactFromStartUp(
      owner: Owner, host: string, rules: seq<string>, isIp: string -> bool, trace: seq<Answer>)
    requires owner(host) == None && forall r <- rules :: isIp(r) ==> owner(r) == None
    requires forall a <- trace :: FromPool(owner, a)
    ensures
      var base := {host} + Literals(rules, isIp);
      var c := UpdateAll(InitialCache({host}, rules, isIp), trace);
      c.allowed == base + Recorded(c.domains)
  {
    var base := {host} + Literals(rules, isIp);
    var start := InitialCache({host}, rules, isIp);
    assert Recorded(start.domains) == {};
    CacheStaysExact(owner, base, start, trace);
  }
}
