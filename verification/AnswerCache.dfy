/**
  The cache of the Go firewall as a value: the addresses admitted on the fast
  path and the answers last recorded for each allowed domain. `Update` is the
  effect of `updateFirewall`; the theorems are about every sequence of updates.
 */
module AnswerCache {
  import opened Text

  type Ip = string

  datatype Cache = Cache(allowed: set<Ip>, domains: map<string, seq<Ip>>)

  /** A successful lookup, ready to be recorded: a fully qualified name and its addresses. */
  datatype Answer = Answer(domain: string, ips: seq<Ip>)

  function Fqdn(name: string): (r: string)
    ensures r != "" && r[|r| - 1] == '.' && name <= r
  {
    if |name| > 0 && name[|name| - 1] == '.' then name else name + "."
  }

  /** One name, whether the final dot was written or not. */
  predicate SameName(a: string, b: string) {
    a == b || (a == b + "." && !EndsWith(b, ".")) || (b == a + "." && !EndsWith(a, "."))
  }

  lemma EndsWithDot(s: string)
    ensures EndsWith(s, ".") <==> |s| > 0 && s[|s| - 1] == '.'
  {
    if |s| > 0 {
      assert s[|s| - 1..] == [s[|s| - 1]];
    }
  }

  /** A final dot is added where there is none, and only there; so names meet exactly when they differ by it at most. */
  lemma FqdnAddsTheDot(a: string, b: string)
    ensures !EndsWith(a, ".") ==> Fqdn(a) == a + "."
    ensures Fqdn(a + ".") == a + "."
    ensures Fqdn(a) == Fqdn(b) <==> SameName(a, b)
  {
    EndsWithDot(a);
    EndsWithDot(b);
    if Fqdn(a) == Fqdn(b) {
      assert !EndsWith(a, ".") ==> (a + ".")[..|a|] == a;
      assert !EndsWith(b, ".") ==> (b + ".")[..|b|] == b;
    }
  }

  function Elements<T>(s: seq<T>): set<T> {
    set x | x in s
  }

  function Update(c: Cache, a: Answer): Cache {
    if a.domain !in c.domains then c
    else Cache(c.allowed - Elements(c.domains[a.domain]) + Elements(a.ips), c.domains[a.domain := a.ips])
  }

  function UpdateAll(c: Cache, trace: seq<Answer>): Cache
    decreases |trace|
  {
    if |trace| == 0 then c else UpdateAll(Update(c, trace[0]), trace[1..])
  }

  lemma {:induction false} UpdateAllConcat(c: Cache, s: seq<Answer>, t: seq<Answer>)
    ensures UpdateAll(c, s + t) == UpdateAll(UpdateAll(c, s), t)
    decreases |s|
  {
    if |s| == 0 {
      assert s + t == t;
    } else {
      assert (s + t)[1..] == s[1..] + t;
      UpdateAllConcat(Update(c, s[0]), s[1..], t);
    }
  }

  lemma UpdateAllSnoc(c: Cache, s: seq<Answer>, a: Answer)
    ensures UpdateAll(c, s + [a]) == Update(UpdateAll(c, s), a)
  {
    UpdateAllConcat(c, s, [a]);
    assert UpdateAll(UpdateAll(c, s), [a]) == UpdateAll(Update(UpdateAll(c, s), a), [a][1..]);
  }

  /** The address is in the answer currently recorded for some allowed domain. */
  ghost predicate RecordedFor(domains: map<string, seq<Ip>>, ip: Ip) {
    exists d :: d in domains && ip in domains[d]
  }

  function Recorded(domains: map<string, seq<Ip>>): (r: set<Ip>)
    ensures forall ip :: ip in r <==> RecordedFor(domains, ip)
  {
    set d, ip | d in domains && ip in domains[d] :: ip
  }

  // ----- soundness, without any assumption on the answers -----

  ghost predicate Sound(base: set<Ip>, c: Cache) {
    forall ip <- c.allowed :: ip in base || RecordedFor(c.domains, ip)
  }

  lemma UpdateKeepsSound(base: set<Ip>, c: Cache, a: Answer)
    requires Sound(base, c)
    ensures Sound(base, Update(c, a))
  {
    var c' := Update(c, a);
    forall ip | ip in c'.allowed && ip !in base
      ensures RecordedFor(c'.domains, ip)
    {
      if a.domain in c.domains && ip in a.ips {
        assert a.domain in c'.domains && ip in c'.domains[a.domain];
      } else {
        assert RecordedFor(c.domains, ip);
        var d :| d in c.domains && ip in c.domains[d];
        assert d in c'.domains && ip in c'.domains[d];
      }
    }
  }

  /**
    Whatever lookups succeed, in whatever order and however they interleave, no
    domain is ever added or lost, and every admitted address is a base address or
    is in the answer now recorded for an allowed domain.
   */
  lemma {:induction false} UpdatesStaySound(base: set<Ip>, c: Cache, trace: seq<Answer>)
    requires Sound(base, c)
    ensures UpdateAll(c, trace).domains.Keys == c.domains.Keys
    ensures Sound(base, UpdateAll(c, trace))
    decreases |trace|
  {
    if |trace| > 0 {
      UpdateKeepsSound(base, c, trace[0]);
      UpdatesStaySound(base, Update(c, trace[0]), trace[1..]);
    }
  }

  // ----- equality with what is recorded -----

  ghost predicate Exact(base: set<Ip>, c: Cache) {
    c.allowed == base + Recorded(c.domains)
  }

  /** Some other source still vouches for the address. */
  ghost predicate OwnedElsewhere(base: set<Ip>, c: Cache, domain: string, ip: Ip) {
    ip in base || exists e :: e in c.domains && e != domain && ip in c.domains[e]
  }

  /**
    One update keeps the cache equal to what is recorded exactly when every
    address it drops is dropped by all of its owners: the delete counts no other
    owner, so an address shared with a literal rule, the resolver host or
    another domain is lost.
   */
  lemma UpdateKeepsExactIff(base: set<Ip>, c: Cache, a: Answer)
    requires Exact(base, c) && a.domain in c.domains
    ensures Exact(base, Update(c, a)) <==>
      forall ip <- c.domains[a.domain] :: ip in a.ips || !OwnedElsewhere(base, c, a.domain, ip)
  {
    var c' := Update(c, a);
    forall ip
      ensures ip in base + Recorded(c'.domains) <==> ip in a.ips || OwnedElsewhere(base, c, a.domain, ip)
    {
      if RecordedFor(c'.domains, ip) {
        var d :| d in c'.domains && ip in c'.domains[d];
        assert d == a.domain || OwnedElsewhere(base, c, a.domain, ip);
      }
      if ip in a.ips {
        assert a.domain in c'.domains && ip in c'.domains[a.domain];
      } else if ip !in base && OwnedElsewhere(base, c, a.domain, ip) {
        var e :| e in c.domains && e != a.domain && ip in c.domains[e];
        assert e in c'.domains && ip in c'.domains[e];
      }
    }
    forall ip
      ensures ip in c.allowed <==> ip in c.domains[a.domain] || OwnedElsewhere(base, c, a.domain, ip)
    {
      if ip in c.domains[a.domain] {
        assert RecordedFor(c.domains, ip);
      }
      if RecordedFor(c.domains, ip) {
        var d :| d in c.domains && ip in c.domains[d];
      }
    }
  }

  /**
    Disjoint address pools, stated by their owner: an address belongs to the pool
    of at most one domain, and base addresses belong to none.
   */
  type Owner = Ip -> Option<string>

  ghost predicate FromPool(owner: Owner, a: Answer) {
    forall ip <- a.ips :: owner(ip) == Some(a.domain)
  }

  ghost predicate PoolsDisjoint(owner: Owner, base: set<Ip>, c: Cache) {
    && (forall ip <- base :: owner(ip) == None)
    && (forall d <- c.domains :: FromPool(owner, Answer(d, c.domains[d])))
  }

  lemma UpdateKeepsExact(owner: Owner, base: set<Ip>, c: Cache, a: Answer)
    requires PoolsDisjoint(owner, base, c) && FromPool(owner, a) && Exact(base, c)
    ensures PoolsDisjoint(owner, base, Update(c, a)) && Exact(base, Update(c, a))
  {
    if a.domain in c.domains {
      assert FromPool(owner, Answer(a.domain, c.domains[a.domain]));
      forall ip | ip in c.domains[a.domain]
        ensures !OwnedElsewhere(base, c, a.domain, ip)
      {
        assert forall e <- c.domains :: FromPool(owner, Answer(e, c.domains[e]));
      }
      UpdateKeepsExactIff(base, c, a);
    }
  }

  /** With disjoint pools the cache equals base plus everything recorded, in every reachable state. */
  lemma {:induction false} CacheStaysExact(owner: Owner, base: set<Ip>, c: Cache, trace: seq<Answer>)
    requires PoolsDisjoint(owner, base, c) && Exact(base, c)
    requires forall a <- trace :: FromPool(owner, a)
    ensures PoolsDisjoint(owner, base, UpdateAll(c, trace)) && Exact(base, UpdateAll(c, trace))
    decreases |trace|
  {
    if |trace| > 0 {
      UpdateKeepsExact(owner, base, c, trace[0]);
      CacheStaysExact(owner, base, Update(c, trace[0]), trace[1..]);
    }
  }

  // ----- the slow-path refresh -----

  /** The outcome of looking a domain up: its addresses, or nothing when the lookup failed. */
  type Outcomes = string -> Option<seq<Ip>>

  ghost predicate Distinct(order: seq<string>) {
    forall i, j :: 0 <= i < j < |order| ==> order[i] != order[j]
  }

  ghost predicate Enumerates(order: seq<string>, keys: set<string>) {
    Elements(order) == keys && Distinct(order)
  }

  lemma EnumerationGrows(order: seq<string>, keys: set<string>, d: string)
    requires Enumerates(order, keys) && d !in keys
    ensures Enumerates(order + [d], keys + {d})
  {
    forall i | 0 <= i < |order|
      ensures order[i] != d
    {
      assert order[i] in Elements(order);
    }
    var longer := order + [d];
    assert forall x :: x in longer <==> x in order || x == d;
  }

  /** One lookup per domain, in the order Go happens to range over the map. */
  function RefreshTrace(order: seq<string>, outcomes: Outcomes): seq<Answer> {
    if |order| == 0 then []
    else
      (match outcomes(order[0])
       case None => []
       case Some(ips) => [Answer(order[0], ips)])
      + RefreshTrace(order[1..], outcomes)
  }

  /** What each domain should record after a refresh; a failed lookup keeps the old answer. */
  function Refreshed(domains: map<string, seq<Ip>>, outcomes: Outcomes): map<string, seq<Ip>> {
    map d | d in domains :: match outcomes(d) case None => domains[d] case Some(ips) => ips
  }

  lemma {:induction false} RefreshRecords(c: Cache, order: seq<string>, outcomes: Outcomes)
    requires forall d <- order :: d in c.domains
    requires Distinct(order)
    ensures
      var c' := UpdateAll(c, RefreshTrace(order, outcomes));
      && c'.domains.Keys == c.domains.Keys
      && forall d <- c.domains ::
           c'.domains[d] == if d in order && outcomes(d).Some? then outcomes(d).value else c.domains[d]
    decreases |order|
  {
    if |order| > 0 {
      var rest := RefreshTrace(order[1..], outcomes);
      assert order == [order[0]] + order[1..];
      match outcomes(order[0])
      case None =>
        assert [] + rest == rest;
        RefreshRecords(c, order[1..], outcomes);
      case Some(ips) =>
        var a := Answer(order[0], ips);
        assert ([a] + rest)[1..] == rest;
        RefreshRecords(Update(c, a), order[1..], outcomes);
    }
  }

  lemma {:induction false} RefreshTraceFromPools(owner: Owner, order: seq<string>, outcomes: Outcomes)
    requires forall d <- order :: outcomes(d).Some? ==> FromPool(owner, Answer(d, outcomes(d).value))
    ensures forall a <- RefreshTrace(order, outcomes) :: FromPool(owner, a)
  {
    if |order| > 0 {
      RefreshTraceFromPools(owner, order[1..], outcomes);
    }
  }

  /**
    With disjoint pools the refresh has one result, whatever order the domains
    come in: every successful lookup is recorded, a failed one keeps the old
    answer, and the cache is exactly base plus the recorded answers.
   */
  lemma {:induction false} RefreshIsOrderIndependent(
      owner: Owner, base: set<Ip>, c: Cache, outcomes: Outcomes, order: seq<string>)
    requires PoolsDisjoint(owner, base, c) && Exact(base, c)
    requires Enumerates(order, c.domains.Keys)
    requires forall d <- c.domains :: outcomes(d).Some? ==> FromPool(owner, Answer(d, outcomes(d).value))
    ensures
      var domains := Refreshed(c.domains, outcomes);
      UpdateAll(c, RefreshTrace(order, outcomes)) == Cache(base + Recorded(domains), domains)
  {
    forall d | d in order
      ensures d in c.domains
    {
      assert d in Elements(order);
    }
    RefreshRecords(c, order, outcomes);
    RefreshTraceFromPools(owner, order, outcomes);
    CacheStaysExact(owner, base, c, RefreshTrace(order, outcomes));
    forall d | d in c.domains
      ensures d in order
    {
      assert d in Elements(order);
    }
    assert UpdateAll(c, RefreshTrace(order, outcomes)).domains == Refreshed(c.domains, outcomes);
  }

  /**
    Without disjoint pools the order matters: two domains share an address, the
    first stops answering with it and the second still does. The address stays
    admitted only when the second is refreshed last.
   */
  lemma SharedAddressOrderMatters(d: string, e: string, ip: Ip)
    requires d != e
    ensures
      var c := Cache({ip}, map[d := [ip], e := [ip]]);
      var outcomes: Outcomes := x => Some(if x == e then [ip] else []);
      && Enumerates([d, e], c.domains.Keys) && Enumerates([e, d], c.domains.Keys)
      && Exact({}, c)
      && UpdateAll(c, RefreshTrace([d, e], outcomes)).allowed == {ip}
      && UpdateAll(c, RefreshTrace([e, d], outcomes)).allowed == {}
  {
    var c := Cache({ip}, map[d := [ip], e := [ip]]);
    var outcomes: Outcomes := x => Some(if x == e then [ip] else []);
    assert d in c.domains && ip in c.domains[d];
    TwoStepRefresh(c, d, e, outcomes);
    TwoStepRefresh(c, e, d, outcomes);
  }

  lemma TwoStepRefresh(c: Cache, d: string, e: string, outcomes: Outcomes)
    requires outcomes(d).Some? && outcomes(e).Some?
    ensures UpdateAll(c, RefreshTrace([d, e], outcomes))
         == Update(Update(c, Answer(d, outcomes(d).value)), Answer(e, outcomes(e).value))
  {
    var a, b := Answer(d, outcomes(d).value), Answer(e, outcomes(e).value);
    assert [d, e][1..] == [e] && [e][1..] == [];
    assert RefreshTrace([e], outcomes) == [b];
    assert RefreshTrace([d, e], outcomes) == [a, b];
    assert [a, b][1..] == [b] && [b][1..] == [];
    assert UpdateAll(Update(c, a), [b]) == Update(Update(c, a), b);
  }
}
