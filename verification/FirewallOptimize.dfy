/** The firewall policy optimiser: what rules match (firewall_config.go) and
    optimizeFirewallRules (firewall_config_optimize.go), which promises the same policy. */
module FirewallOptimize {
  import opened Basics
  import opened FirewallText
  import opened FirewallPorts
  import opened FirewallNetwork
  import opened FirewallHosts

  datatype Rule = Rule(network: string, hosts: seq<string>, localHosts: seq<string>,
                       ports: seq<Port>, ranges: seq<Range>)

  /** One question put to a policy; local is absent when the local end is unknown. */
  datatype Query = Query(traffic: Traffic, peer: Endpoint, local: Option<Endpoint>, port: Port, cache: DnsCache)

  predicate LocalMatches(lib: Lib, hosts: seq<string>, q: Query) {
    AnyHost(hosts) || (q.local.Some? && HostsMatch(lib, hosts, q.local.value, q.cache))
  }

  /** A rule matches traffic; outgoing traffic ignores LocalHosts. */
  predicate RuleMatches(lib: Lib, r: Rule, q: Query, incoming: bool) {
    && TrafficMatches(Lower(TrimSpace(r.network)), q.traffic)
    && PortMatches(r.ports, r.ranges, q.port)
    && HostsMatch(lib, r.hosts, q.peer, q.cache)
    && (incoming ==> LocalMatches(lib, r.localHosts, q))
  }

  /** A policy matches when some rule does. */
  predicate PolicyMatches(lib: Lib, rules: seq<Rule>, q: Query, incoming: bool) {
    exists r | r in rules :: RuleMatches(lib, r, q, incoming)
  }

  /** b matches only what a matches. */
  ghost predicate Implies(lib: Lib, b: Rule, a: Rule, incoming: bool) {
    forall q: Query :: RuleMatches(lib, b, q, incoming) ==> RuleMatches(lib, a, q, incoming)
  }

  ghost predicate SamePolicy(lib: Lib, a: seq<Rule>, b: seq<Rule>, incoming: bool) {
    forall q: Query :: PolicyMatches(lib, a, q, incoming) <==> PolicyMatches(lib, b, q, incoming)
  }

  // ---------------------------------------------------------------- compiled rules

  datatype CompiledRule = CompiledRule(network: string, ip: IpSelector, peer: Selector, local: Selector,
                                       ports: seq<Port>, ranges: seq<Range>)

  predicate CompiledMatches(lib: Lib, c: CompiledRule, q: Query, incoming: bool) {
    && (match q.traffic
        case ByName(n) => NetMatches(c.network, n)
        case ByNumber(v, p) => IpMatches(c.ip, v, p))
    && PortMatches(c.ports, c.ranges, q.port)
    && (incoming ==> c.local.any || (q.local.Some? && SelectorHit(lib, c.local, q.local.value, q.cache)))
    && SelectorHit(lib, c.peer, q.peer, q.cache)
  }

  /** compileFirewallRules: compiled rules match what the rules match. */
  method CompileFirewallRules(lib: Lib, rules: seq<Rule>) returns (out: seq<CompiledRule>)
    ensures |out| == |rules|
    ensures forall i, q: Query, incoming: bool | 0 <= i < |rules| ::
              CompiledMatches(lib, out[i], q, incoming) <==> RuleMatches(lib, rules[i], q, incoming)
  {
    hide NetMatches, IpMatches, CompileIpSelector, HostsMatch, PortMatches, SelectorHit, Lower, TrimSpace;
    out := [];
    for i := 0 to |rules|
      invariant |out| == i
      invariant forall k, q: Query, incoming: bool | 0 <= k < i ::
                  CompiledMatches(lib, out[k], q, incoming) <==> RuleMatches(lib, rules[k], q, incoming)
    {
      var r := rules[i];
      var network := Lower(TrimSpace(r.network));
      var peer := CompileHostSelector(lib, r.hosts);
      var local := CompileHostSelector(lib, r.localHosts);
      var c := CompiledRule(network, CompileIpSelector(network), peer, local, r.ports, r.ranges);
      assert forall q: Query, incoming: bool ::
          CompiledMatches(lib, c, q, incoming) <==> RuleMatches(lib, r, q, incoming);
      out := out + [c];
    }
  }

  /** One rule against one query, in the order of the tests in the source. */
  method MatchRule(lib: Lib, c: CompiledRule, q: Query, incoming: bool) returns (matched: bool)
    ensures matched <==> CompiledMatches(lib, c, q, incoming)
  {
    hide NetMatches, IpMatches, PortMatches, SelectorHit;
    match q.traffic {
      case ByName(n) => if !NetMatches(c.network, n) { return false; }
      case ByNumber(v, p) => if !IpMatches(c.ip, v, p) { return false; }
    }
    var port := MatchPort(c.ports, c.ranges, q.port);
    if !port { return false; }
    if incoming && !c.local.any {
      if q.local.None? { return false; }
      var local := SelectorMatches(lib, c.local, q.local.value, q.cache);
      if !local { return false; }
    }
    matched := SelectorMatches(lib, c.peer, q.peer, q.cache);
  }

  /** The rule scans of matchFirewallRules and its five variants. */
  method MatchFirewallRules(lib: Lib, rules: seq<CompiledRule>, q: Query, incoming: bool) returns (matched: bool)
    ensures matched <==> exists i | 0 <= i < |rules| :: CompiledMatches(lib, rules[i], q, incoming)
  {
    for i := 0 to |rules|
      invariant forall k | 0 <= k < i :: !CompiledMatches(lib, rules[k], q, incoming)
    {
      var one := MatchRule(lib, rules[i], q, incoming);
      if one { return true; }
    }
    return false;
  }

  // ---------------------------------------------------------------- canonical rules

  /** Local hosts matter only where the rule is used for incoming traffic. */
  predicate CleanRule(lib: Lib, r: Rule, matchLocal: bool) {
    CleanHosts(lib, r.hosts) && (matchLocal ==> CleanHosts(lib, r.localHosts))
  }

  ghost predicate CanonicalRule(lib: Lib, r: Rule, matchLocal: bool) {
    && CanonicalNetwork(r.network) == r.network
    && CanonicalList(lib, r.hosts)
    && CanonicalList(lib, r.localHosts)
    && (!matchLocal ==> r.localHosts == [])
    && CanonicalPorts(r.ports, r.ranges)
  }

  lemma NetworkTwice(raw: string)
    ensures CanonicalNetwork(CanonicalNetwork(raw)) == CanonicalNetwork(raw)
    ensures Lower(TrimSpace(CanonicalNetwork(raw))) == CanonicalNetwork(raw)
  {
    var n := TrimSpace(raw);
    TrimLeftDone(raw, IsSpace);
    TrimRightDone(TrimLeft(raw, IsSpace), IsSpace);
    TrimRightFirst(TrimLeft(raw, IsSpace), IsSpace);
    var l := Lower(n);
    assert l != "" ==> IsSpace(l[0]) == IsSpace(n[0]) && IsSpace(l[|l| - 1]) == IsSpace(n[|n| - 1]);
    assert TrimSpace(l) == l;
    LowerTwice(n);
  }

  /** canonicalFirewallRule: the same matches, or dropped because it matches nothing. */
  method CanonicalFirewallRule(lib: Lib, r: Rule, matchLocal: bool) returns (c: Option<Rule>)
    requires LibOk(lib) && CleanRule(lib, r, matchLocal)
    ensures c.Some? ==> CanonicalRule(lib, c.value, matchLocal)
    ensures c.Some? ==> forall q: Query ::
              RuleMatches(lib, c.value, q, matchLocal) <==> RuleMatches(lib, r, q, matchLocal)
    ensures c.None? ==> forall q: Query :: !RuleMatches(lib, r, q, matchLocal)
    ensures CanonicalRule(lib, r, matchLocal) ==> c == Some(r)
  {
    hide LibOk, CanonicalPorts, CanonicalList, HostsMatch, Listed, TrafficMatches, AnyHost, CleanHosts, CanonicalNetwork, Lower, TrimSpace;
    var network := CanonicalNetwork(r.network);
    NetworkTwice(r.network);
    var hosts, anyHost := CanonicalFirewallHosts(lib, r.hosts);
    EmptyListIsCanonical(lib);
    AnyMatches(lib, r.hosts);
    AnyMatches(lib, r.localHosts);
    AnyMatches(lib, []);
    if |r.hosts| != 0 && !anyHost && |hosts| == 0 {
      return None;
    }
    var local: seq<string> := [];
    if matchLocal {
      var localHosts, anyLocal := CanonicalFirewallHosts(lib, r.localHosts);
      if |r.localHosts| != 0 && !anyLocal && |localHosts| == 0 {
        return None;
      }
      local := localHosts;
    }
    CanonicalListClean(lib, local);
    var ports, ranges := CanonicalFirewallPorts(r.ports, r.ranges);
    c := Some(Rule(network, hosts, local, ports, ranges));
    forall q: Query ensures RuleMatches(lib, c.value, q, matchLocal) <==> RuleMatches(lib, r, q, matchLocal) {
      CanonicalNetworkMeaning(r.network, q.traffic);
    }
    if CanonicalRule(lib, r, matchLocal) {
      CanonicalPortsUnique(r.ports, r.ranges, ports, ranges);
    }
  }

  lemma EmptyListIsCanonical(lib: Lib)
    ensures CanonicalList(lib, []) && AnyHost([])
  {
  }

  lemma AnyMatches(lib: Lib, hosts: seq<string>)
    ensures AnyHost(hosts) ==> forall ep: Endpoint, cache: DnsCache :: HostsMatch(lib, hosts, ep, cache)
  {
  }

  // ---------------------------------------------------------------- subsumption

  predicate RuleSubsumes(lib: Lib, a: Rule, b: Rule) {
    && NetSubsumes(a.network, b.network)
    && HostsSubsume(lib, a.hosts, b.hosts)
    && HostsSubsume(lib, a.localHosts, b.localHosts)
    && PortsSubsume(a.ports, a.ranges, b.ports, b.ranges)
  }

  /** firewallRuleSubsumes never drops a rule that matches something more. */
  lemma RuleSubsumesSound(lib: Lib, a: Rule, b: Rule, matchLocal: bool)
    requires LibOk(lib) && CanonicalRule(lib, a, matchLocal) && CanonicalRule(lib, b, matchLocal)
    requires RuleSubsumes(lib, a, b)
    ensures Implies(lib, b, a, matchLocal)
  {
    hide LibOk, CanonicalPorts, CanonicalList, HostsMatch, PortMatches, TrafficMatches, AnyHost, CanonicalNetwork,
         Lower, TrimSpace, NetSubsumes, HostsSubsume, PortsSubsume;
    NetworkTwice(a.network);
    NetworkTwice(b.network);
    forall q: Query | RuleMatches(lib, b, q, matchLocal) ensures RuleMatches(lib, a, q, matchLocal) {
      CanonicalNetworkMeaning(b.network, q.traffic);
      NetSubsumesSound(a.network, b.network, q.traffic);
      PortsSubsumeSound(a.ports, a.ranges, b.ports, b.ranges, q.port);
      HostsSubsumeSound(lib, a.hosts, b.hosts, q.peer, q.cache);
      LocalSubsumeSound(lib, a.localHosts, b.localHosts, q);
    }
  }

  lemma LocalSubsumeSound(lib: Lib, a: seq<string>, b: seq<string>, q: Query)
    requires LibOk(lib) && CanonicalList(lib, a) && CanonicalList(lib, b) && HostsSubsume(lib, a, b)
    ensures LocalMatches(lib, b, q) ==> LocalMatches(lib, a, q)
  {
    hide LibOk, CanonicalList, HostsMatch;
    CanonicalListClean(lib, b);
    if a != [] && q.local.Some? && HostsMatch(lib, b, q.local.value, q.cache) {
      HostsSubsumeSound(lib, a, b, q.local.value, q.cache);
    }
  }

  ghost predicate CanonicalRules(lib: Lib, rules: seq<Rule>, matchLocal: bool) {
    forall r | r in rules :: CanonicalRule(lib, r, matchLocal)
  }

  predicate NoneSubsumed(lib: Lib, rules: seq<Rule>) {
    forall i, j | 0 <= i < |rules| && 0 <= j < |rules| && i != j :: !RuleSubsumes(lib, rules[i], rules[j])
  }

  /** Every struck rule is implied by one that is still kept. */
  ghost predicate Covered(lib: Lib, rules: seq<Rule>, keep: seq<bool>, incoming: bool)
    requires |keep| == |rules|
  {
    forall j | 0 <= j < |rules| && !keep[j] ::
      exists i :: 0 <= i < |rules| && keep[i] && Implies(lib, rules[j], rules[i], incoming)
  }

  /** Striking one more rule, implied by a kept one, keeps every struck rule covered. */
  lemma StrikeOne(lib: Lib, rules: seq<Rule>, keep: seq<bool>, i: nat, j: nat, incoming: bool)
    requires |keep| == |rules| && i < |rules| && j < |rules| && i != j && keep[i]
    requires Covered(lib, rules, keep, incoming) && Implies(lib, rules[j], rules[i], incoming)
    ensures Covered(lib, rules, keep[j := false], incoming)
  {
    hide RuleMatches;
    var struck := keep[j := false];
    forall k | 0 <= k < |rules| && !struck[k]
      ensures exists m :: 0 <= m < |rules| && struck[m] && Implies(lib, rules[k], rules[m], incoming)
    {
      assert struck[i];
      if k != j {
        var m :| 0 <= m < |rules| && keep[m] && Implies(lib, rules[k], rules[m], incoming);
        if m == j {
          assert Implies(lib, rules[k], rules[i], incoming);
        } else {
          assert struck[m];
        }
      }
    }
  }

  /** What the scan over i has settled: a kept rule below i subsumes no other kept rule. */
  predicate Settled(lib: Lib, rules: seq<Rule>, keep: seq<bool>, i: nat, j: nat)
    requires |keep| == |rules|
  {
    forall a, b | 0 <= a < |rules| && 0 <= b < |rules| && a != b && keep[a] && keep[b] && (a < i || (a == i && b < j)) ::
      !RuleSubsumes(lib, rules[a], rules[b])
  }

  function Kept(rules: seq<Rule>, keep: seq<bool>, n: nat): (out: seq<Rule>)
    requires |keep| == |rules| && n <= |rules|
  {
    if n == 0 then []
    else Kept(rules, keep, n - 1) + if keep[n - 1] then [rules[n - 1]] else []
  }

  lemma {:induction false} KeptFacts(lib: Lib, rules: seq<Rule>, keep: seq<bool>, n: nat)
    requires |keep| == |rules| && n <= |rules|
    requires Settled(lib, rules, keep, |rules|, 0)
    ensures |Kept(rules, keep, n)| <= n
    ensures forall r :: r in Kept(rules, keep, n) <==> exists k :: 0 <= k < n && keep[k] && rules[k] == r
    ensures NoneSubsumed(lib, Kept(rules, keep, n))
    ensures (forall k | 0 <= k < n :: keep[k]) ==> Kept(rules, keep, n) == rules[..n]
  {
    hide RuleSubsumes;
    if n > 0 {
      KeptFacts(lib, rules, keep, n - 1);
      var before, out := Kept(rules, keep, n - 1), Kept(rules, keep, n);
      if keep[n - 1] {
        forall i, j | 0 <= i < |out| && 0 <= j < |out| && i != j ensures !RuleSubsumes(lib, out[i], out[j]) {
          assert i < |before| ==> before[i] in before;
          assert j < |before| ==> before[j] in before;
        }
      }
    }
  }

  /** The inner loop of removeSubsumedFirewallRules: strike what the kept rule i subsumes. */
  method StrikeSubsumedBy(lib: Lib, rules: seq<Rule>, before: seq<bool>, i: nat, ghost matchLocal: bool)
    returns (keep: seq<bool>)
    requires LibOk(lib) && CanonicalRules(lib, rules, matchLocal)
    requires |before| == |rules| && i < |rules| && before[i]
    requires Covered(lib, rules, before, matchLocal) && Settled(lib, rules, before, i, 0)
    ensures |keep| == |rules|
    ensures Covered(lib, rules, keep, matchLocal) && Settled(lib, rules, keep, i + 1, 0)
    ensures NoneSubsumed(lib, rules) ==> keep == before
  {
    hide LibOk, CanonicalRule, RuleSubsumes, Implies, Covered;
    keep := before;
    for j := 0 to |rules|
      invariant |keep| == |rules| && keep[i]
      invariant Covered(lib, rules, keep, matchLocal) && Settled(lib, rules, keep, i, j)
      invariant NoneSubsumed(lib, rules) ==> keep == before
    {
      if i != j && keep[j] && RuleSubsumes(lib, rules[i], rules[j]) {
        assert rules[i] in rules && rules[j] in rules;
        RuleSubsumesSound(lib, rules[i], rules[j], matchLocal);
        StrikeOne(lib, rules, keep, i, j, matchLocal);
        keep := keep[j := false];
      }
    }
  }

  /** removeSubsumedFirewallRules. */
  method RemoveSubsumedRules(lib: Lib, rules: seq<Rule>, ghost matchLocal: bool) returns (out: seq<Rule>)
    requires LibOk(lib) && CanonicalRules(lib, rules, matchLocal)
    ensures |out| <= |rules| && CanonicalRules(lib, out, matchLocal)
    ensures NoneSubsumed(lib, out)
    ensures SamePolicy(lib, out, rules, matchLocal)
    ensures NoneSubsumed(lib, rules) ==> out == rules
  {
    hide LibOk, CanonicalRule, RuleSubsumes, Implies, SamePolicy;
    var keep := seq(|rules|, _ => true);
    for i := 0 to |rules|
      invariant |keep| == |rules|
      invariant Covered(lib, rules, keep, matchLocal) && Settled(lib, rules, keep, i, 0)
      invariant NoneSubsumed(lib, rules) ==> forall k | 0 <= k < |rules| :: keep[k]
    {
      if keep[i] {
        keep := StrikeSubsumedBy(lib, rules, keep, i, matchLocal);
      }
    }
    KeptFacts(lib, rules, keep, |rules|);
    out := [];
    for i := 0 to |rules|
      invariant out == Kept(rules, keep, i)
    {
      if keep[i] { out := out + [rules[i]]; }
    }
    KeptPolicy(lib, rules, keep, matchLocal);
  }

  lemma KeptPolicy(lib: Lib, rules: seq<Rule>, keep: seq<bool>, incoming: bool)
    requires |keep| == |rules| && Covered(lib, rules, keep, incoming)
    requires forall r :: r in Kept(rules, keep, |rules|) <==> exists k :: 0 <= k < |rules| && keep[k] && rules[k] == r
    ensures SamePolicy(lib, Kept(rules, keep, |rules|), rules, incoming)
  {
    hide RuleMatches;
    var out := Kept(rules, keep, |rules|);
    forall q: Query | PolicyMatches(lib, rules, q, incoming) ensures PolicyMatches(lib, out, q, incoming) {
      var r :| r in rules && RuleMatches(lib, r, q, incoming);
      var j :| 0 <= j < |rules| && rules[j] == r;
      if keep[j] {
        assert r in out;
      } else {
        var i :| 0 <= i < |rules| && keep[i] && Implies(lib, rules[j], rules[i], incoming);
        assert rules[i] in out && RuleMatches(lib, rules[i], q, incoming);
      }
    }
  }

  // ---------------------------------------------------------------- merging

  /** mergeFirewallRules accepts two rules of one network that differ in one dimension at most. */
  predicate Mergeable(a: Rule, b: Rule) {
    && a.network == b.network
    && (|| (a.hosts == b.hosts && a.localHosts == b.localHosts)
        || (a.localHosts == b.localHosts && a.ports == b.ports && a.ranges == b.ranges)
        || (a.hosts == b.hosts && a.ports == b.ports && a.ranges == b.ranges))
  }

  method MergeHostSelectors(lib: Lib, a: seq<string>, b: seq<string>) returns (list: seq<string>)
    requires LibOk(lib) && CanonicalList(lib, a) && CanonicalList(lib, b)
    ensures CanonicalList(lib, list)
    ensures forall ep: Endpoint, cache: DnsCache ::
              HostsMatch(lib, list, ep, cache) <==> HostsMatch(lib, a, ep, cache) || HostsMatch(lib, b, ep, cache)
    ensures AnyHost(list) <==> AnyHost(a) || AnyHost(b)
  {
    hide LibOk, Canonical, TextHit, Norm, Clean, Keeps, Sorted;
    EmptyListIsCanonical(lib);
    if |a| == 0 || |b| == 0 {
      return [];
    }
    CanonicalListClean(lib, a);
    CanonicalListClean(lib, b);
    var any;
    list, any := CanonicalFirewallHosts(lib, a + b);
    CanonicalListClean(lib, list);
    CanonicalSetOfCanonical(lib, a + b, |a + b|);
    assert (a + b)[..|a + b|] == a + b;
    assert a[0] in Texts(a + b);
    forall ep: Endpoint, cache: DnsCache
      ensures HostsMatch(lib, a + b, ep, cache) <==> HostsMatch(lib, a, ep, cache) || HostsMatch(lib, b, ep, cache)
    {
      UnionMatches(lib, a, b, ep, cache);
    }
  }

  lemma UnionMatches(lib: Lib, a: seq<string>, b: seq<string>, ep: Endpoint, cache: DnsCache)
    requires a != [] && b != []
    ensures HostsMatch(lib, a + b, ep, cache) <==> HostsMatch(lib, a, ep, cache) || HostsMatch(lib, b, ep, cache)
  {
    hide TextHit;
    if HostsMatch(lib, a, ep, cache) {
      var i :| 0 <= i < |a| && TextHit(lib, a[i], ep, cache);
      assert (a + b)[i] == a[i];
    }
    if HostsMatch(lib, b, ep, cache) {
      var i :| 0 <= i < |b| && TextHit(lib, b[i], ep, cache);
      assert (a + b)[|a| + i] == b[i];
    }
  }

  lemma JoinedPorts(p1: seq<Port>, r1: seq<Range>, p2: seq<Port>, r2: seq<Range>, p: int)
    ensures Listed(p1 + p2, r1 + r2, p) <==> Listed(p1, r1, p) || Listed(p2, r2, p)
  {
    forall i | 0 <= i < |r2| ensures (r1 + r2)[|r1| + i] == r2[i] {}
    forall i | 0 <= i < |r1| ensures (r1 + r2)[i] == r1[i] {}
  }

  /** mergeFirewallRules: the merged rule matches what either rule matched. */
  method MergeRules(lib: Lib, a: Rule, b: Rule, ghost matchLocal: bool) returns (m: Option<Rule>)
    requires LibOk(lib) && CanonicalRule(lib, a, matchLocal) && CanonicalRule(lib, b, matchLocal)
    ensures m.Some? <==> Mergeable(a, b)
    ensures m.Some? ==> CanonicalRule(lib, m.value, matchLocal)
    ensures m.Some? ==> forall q: Query ::
              RuleMatches(lib, m.value, q, matchLocal) <==>
              RuleMatches(lib, a, q, matchLocal) || RuleMatches(lib, b, q, matchLocal)
  {
    hide LibOk, CanonicalPorts, CanonicalList, HostsMatch, Listed, TrafficMatches, AnyHost, CanonicalNetwork, Lower, TrimSpace;
    if a.network != b.network {
      return None;
    }
    var samePorts := a.ports == b.ports && a.ranges == b.ranges;
    if a.hosts == b.hosts && a.localHosts == b.localHosts {
      var ports: seq<Port>, ranges: seq<Range> := [], [];
      if !(a.ports == [] && a.ranges == []) && !(b.ports == [] && b.ranges == []) {
        ports, ranges := CanonicalFirewallPorts(a.ports + b.ports, a.ranges + b.ranges);
        forall p: int ensures Listed(ports, ranges, p) <==> Listed(a.ports, a.ranges, p) || Listed(b.ports, b.ranges, p) {
          JoinedPorts(a.ports, a.ranges, b.ports, b.ranges, p);
        }
      } else {
        NoPortsCanonical();
      }
      m := Some(a.(ports := ports, ranges := ranges));
    } else if a.localHosts == b.localHosts && samePorts {
      var hosts := MergeHostSelectors(lib, a.hosts, b.hosts);
      m := Some(a.(hosts := hosts));
    } else if a.hosts == b.hosts && samePorts {
      var hosts := MergeHostSelectors(lib, a.localHosts, b.localHosts);
      m := Some(a.(localHosts := hosts));
    } else {
      m := None;
    }
  }

  lemma NoPortsCanonical()
    ensures CanonicalPorts([], [])
  {
    assert Separated([]) && Singles([]) == [] && Wide([]) == [];
  }

  /** No two rules of the list can be merged. */
  predicate NoneMergeable(rules: seq<Rule>) {
    forall i, j | 0 <= i < j < |rules| :: !Mergeable(rules[i], rules[j])
  }

  /** Where the optimiser stops: canonical rules, none subsuming another, no two mergeable. */
  ghost predicate Stable(lib: Lib, rules: seq<Rule>, matchLocal: bool) {
    CanonicalRules(lib, rules, matchLocal) && NoneSubsumed(lib, rules) && NoneMergeable(rules)
  }

  /** The union of two rules in place of both. */
  lemma MergedPolicy(lib: Lib, rules: seq<Rule>, i: nat, j: nat, m: Rule, incoming: bool)
    requires i < j < |rules|
    requires forall q: Query ::
               RuleMatches(lib, m, q, incoming) <==>
               RuleMatches(lib, rules[i], q, incoming) || RuleMatches(lib, rules[j], q, incoming)
    ensures SamePolicy(lib, rules[..i] + [m] + rules[i + 1..j] + rules[j + 1..], rules, incoming)
    ensures forall r | r in rules[..i] + [m] + rules[i + 1..j] + rules[j + 1..] :: r in rules || r == m
  {
    hide RuleMatches;
    var out := rules[..i] + [m] + rules[i + 1..j] + rules[j + 1..];
    assert out[i] == m;
    assert forall r | r in rules :: r in out || r == rules[i] || r == rules[j] by {
      forall k | 0 <= k < |rules| && k != i && k != j ensures rules[k] in out {
        assert out[if k < j then k else k - 1] == rules[k];
      }
    }
  }

  /** One pass of the merging loop: the first mergeable pair is replaced by its union. */
  method MergeFirstPair(lib: Lib, rules: seq<Rule>, ghost matchLocal: bool) returns (out: seq<Rule>, merged: bool)
    requires LibOk(lib) && CanonicalRules(lib, rules, matchLocal)
    ensures merged <==> !NoneMergeable(rules)
    ensures if merged then |out| < |rules| && NoneSubsumed(lib, out) else out == rules
    ensures CanonicalRules(lib, out, matchLocal) && SamePolicy(lib, out, rules, matchLocal)
  {
    hide LibOk, CanonicalRule, RuleSubsumes, Mergeable, RuleMatches;
    for i := 0 to |rules|
      invariant forall a, b | 0 <= a < b < |rules| && a < i :: !Mergeable(rules[a], rules[b])
    {
      for j := i + 1 to |rules|
        invariant forall b | i < b < j :: !Mergeable(rules[i], rules[b])
      {
        assert rules[i] in rules && rules[j] in rules;
        var m := MergeRules(lib, rules[i], rules[j], matchLocal);
        if m.Some? {
          var combined := rules[..i] + [m.value] + rules[i + 1..j] + rules[j + 1..];
          MergedPolicy(lib, rules, i, j, m.value, matchLocal);
          out := RemoveSubsumedRules(lib, combined, matchLocal);
          return out, true;
        }
      }
    }
    return rules, false;
  }

  // ---------------------------------------------------------------- sorting

  function InsertRule(key: Rule -> string, r: Rule, rules: seq<Rule>): (out: seq<Rule>)
    ensures multiset(out) == multiset(rules) + multiset{r}
  {
    if rules == [] then [r]
    else if Less(key(rules[0]), key(r)) then
      assert rules == [rules[0]] + rules[1..];
      [rules[0]] + InsertRule(key, r, rules[1..])
    else [r] + rules
  }

  predicate SortedBy(key: Rule -> string, rules: seq<Rule>) {
    forall i, j | 0 <= i < j < |rules| :: !Less(key(rules[j]), key(rules[i]))
  }

  lemma NotLessTransitive(a: string, b: string, c: string)
    requires !Less(b, a) && !Less(c, b)
    ensures !Less(c, a)
  {
    LessTotal(a, b);
    if Less(a, b) && Less(c, a) { LessTransitive(c, a, b); }
  }

  lemma LessAsymmetric(a: string, b: string)
    requires Less(a, b)
    ensures !Less(b, a)
  {
    LessIrreflexive(a);
    if Less(b, a) { LessTransitive(a, b, a); }
  }

  lemma {:induction false} InsertKeepsOrder(key: Rule -> string, r: Rule, rules: seq<Rule>)
    requires SortedBy(key, rules)
    ensures SortedBy(key, InsertRule(key, r, rules))
  {
    hide Less;
    if rules != [] && Less(key(rules[0]), key(r)) {
      var tail := InsertRule(key, r, rules[1..]);
      InsertKeepsOrder(key, r, rules[1..]);
      LessAsymmetric(key(rules[0]), key(r));
      forall j | 0 <= j < |tail| ensures !Less(key(tail[j]), key(rules[0])) {
        assert tail[j] in multiset(tail);
        assert tail[j] == r || tail[j] in rules[1..];
      }
    } else if rules != [] {
      forall j | 0 <= j < |rules| ensures !Less(key(rules[j]), key(r)) {
        if j > 0 { NotLessTransitive(key(r), key(rules[0]), key(rules[j])); }
      }
    }
  }

  method SortRules(key: Rule -> string, rules: seq<Rule>) returns (out: seq<Rule>)
    ensures multiset(out) == multiset(rules) && SortedBy(key, out)
  {
    hide Less, SortedBy;
    out := [];
    assert SortedBy(key, out) by { NothingToSort(key); }
    for i := 0 to |rules|
      invariant multiset(out) == multiset(rules[..i]) && SortedBy(key, out)
    {
      InsertKeepsOrder(key, rules[i], out);
      assert rules[..i + 1] == rules[..i] + [rules[i]];
      out := InsertRule(key, rules[i], out);
    }
    assert rules[..|rules|] == rules;
  }

  lemma NothingToSort(key: Rule -> string)
    ensures SortedBy(key, [])
  {
  }

  /** Stability does not depend on the order of the rules. */
  lemma StablePermutes(lib: Lib, a: seq<Rule>, b: seq<Rule>, matchLocal: bool)
    requires Stable(lib, a, matchLocal) && multiset(a) == multiset(b)
    ensures Stable(lib, b, matchLocal)
    ensures SamePolicy(lib, b, a, matchLocal)
  {
    hide CanonicalRule, RuleSubsumes, Mergeable, RuleMatches;
    MembersAgree(a, b);
    forall i, j | 0 <= i < |b| && 0 <= j < |b| && i != j
      ensures !RuleSubsumes(lib, b[i], b[j]) && (i < j ==> !Mergeable(b[i], b[j]))
    {
      assert b[i] in b && b[j] in b;
      var x, y := PairIn(a, b, i, j);
      MergeableBothWays(a[x], a[y]);
    }
  }

  lemma MembersAgree(a: seq<Rule>, b: seq<Rule>)
    requires multiset(a) == multiset(b)
    ensures forall r :: r in a <==> r in b
  {
    assert forall r :: r in a <==> r in multiset(a);
    assert forall r :: r in b <==> r in multiset(b);
  }

  lemma MergeableBothWays(a: Rule, b: Rule)
    ensures Mergeable(a, b) <==> Mergeable(b, a)
  {
  }

  /** Two positions of a permutation come from two positions of the original. */
  lemma PairIn(a: seq<Rule>, b: seq<Rule>, i: nat, j: nat) returns (x: nat, y: nat)
    requires multiset(a) == multiset(b) && i < |b| && j < |b| && i != j
    ensures x < |a| && y < |a| && x != y && a[x] == b[i] && a[y] == b[j]
  {
    MembersAgree(a, b);
    assert b[i] in b && b[j] in b;
    x :| 0 <= x < |a| && a[x] == b[i];
    if b[i] != b[j] {
      y :| 0 <= y < |a| && a[y] == b[j];
    } else {
      TwoInMultiset(b, i, j);
      y := SecondIn(a, x);
    }
  }

  lemma TwoInMultiset(b: seq<Rule>, i: nat, j: nat)
    requires i < |b| && j < |b| && i != j && b[i] == b[j]
    ensures multiset(b)[b[i]] >= 2
  {
    var lo, hi := if i < j then i else j, if i < j then j else i;
    assert b == b[..lo] + [b[lo]] + b[lo + 1..hi] + [b[hi]] + b[hi + 1..];
  }

  lemma SecondIn(a: seq<Rule>, x: nat) returns (y: nat)
    requires x < |a| && multiset(a)[a[x]] >= 2
    ensures y < |a| && y != x && a[y] == a[x]
  {
    assert a == a[..x] + [a[x]] + a[x + 1..];
    if a[x] in a[..x] {
      y :| 0 <= y < x && a[..x][y] == a[x];
    } else {
      assert multiset(a[x + 1..])[a[x]] >= 1;
      assert a[x] in a[x + 1..];
      var k :| 0 <= k < |a[x + 1..]| && a[x + 1..][k] == a[x];
      y := x + 1 + k;
    }
  }

  // ---------------------------------------------------------------- the optimiser

  ghost predicate CleanRules(lib: Lib, rules: seq<Rule>, matchLocal: bool) {
    forall r | r in rules :: CleanRule(lib, r, matchLocal)
  }

  /** optimizeFirewallRules: the same policy for every query, a stable result, and a stable list
      is only reordered. */
  method OptimizeFirewallRules(lib: Lib, key: Rule -> string, rules: seq<Rule>, matchLocal: bool)
    returns (out: seq<Rule>)
    requires LibOk(lib) && CleanRules(lib, rules, matchLocal)
    ensures SamePolicy(lib, out, rules, matchLocal)
    ensures Stable(lib, out, matchLocal) && SortedBy(key, out)
    ensures Stable(lib, rules, matchLocal) ==> multiset(out) == multiset(rules)
  {
    hide LibOk, CleanRule, CanonicalRule, RuleSubsumes, Mergeable, RuleMatches;
    var optimized: seq<Rule> := [];
    for i := 0 to |rules|
      invariant CanonicalRules(lib, optimized, matchLocal)
      invariant SamePolicy(lib, optimized, rules[..i], matchLocal)
      invariant CanonicalRules(lib, rules, matchLocal) ==> optimized == rules[..i]
    {
      assert rules[i] in rules;
      var c := CanonicalFirewallRule(lib, rules[i], matchLocal);
      OneMoreRule(lib, optimized, rules[..i], rules[i], c, matchLocal);
      assert rules[..i + 1] == rules[..i] + [rules[i]];
      if c.Some? { optimized := optimized + [c.value]; }
    }
    assert rules[..|rules|] == rules;
    optimized := RemoveSubsumedRules(lib, optimized, matchLocal);
    var merged := true;
    while merged
      invariant CanonicalRules(lib, optimized, matchLocal) && NoneSubsumed(lib, optimized)
      invariant SamePolicy(lib, optimized, rules, matchLocal)
      invariant !merged ==> NoneMergeable(optimized)
      invariant Stable(lib, rules, matchLocal) ==> optimized == rules
      decreases |optimized|, merged
    {
      optimized, merged := MergeFirstPair(lib, optimized, matchLocal);
    }
    out := SortRules(key, optimized);
    StablePermutes(lib, optimized, out, matchLocal);
  }

  lemma OneMoreRule(lib: Lib, done: seq<Rule>, before: seq<Rule>, r: Rule, c: Option<Rule>, incoming: bool)
    requires SamePolicy(lib, done, before, incoming)
    requires c.Some? ==> forall q: Query :: RuleMatches(lib, c.value, q, incoming) <==> RuleMatches(lib, r, q, incoming)
    requires c.None? ==> forall q: Query :: !RuleMatches(lib, r, q, incoming)
    ensures SamePolicy(lib, done + if c.Some? then [c.value] else [], before + [r], incoming)
  {
    hide RuleMatches;
    forall q: Query
      ensures PolicyMatches(lib, done + if c.Some? then [c.value] else [], q, incoming) <==>
              PolicyMatches(lib, before + [r], q, incoming)
    {
      MatchesConcat(lib, done, if c.Some? then [c.value] else [], q, incoming);
      MatchesConcat(lib, before, [r], q, incoming);
    }
  }

  lemma MatchesConcat(lib: Lib, a: seq<Rule>, b: seq<Rule>, q: Query, incoming: bool)
    ensures PolicyMatches(lib, a + b, q, incoming) <==> PolicyMatches(lib, a, q, incoming) || PolicyMatches(lib, b, q, incoming)
  {
    hide RuleMatches;
  }

  /** What the optimiser returns it accepts again. */
  lemma StableIsClean(lib: Lib, rules: seq<Rule>, matchLocal: bool)
    requires Stable(lib, rules, matchLocal)
    ensures CleanRules(lib, rules, matchLocal)
  {
    hide CanonicalList, CleanHosts;
    forall r | r in rules ensures CleanRule(lib, r, matchLocal) {
      CanonicalListClean(lib, r.hosts);
      CanonicalListClean(lib, r.localHosts);
    }
  }

  /** Idempotence: optimising the result again gives the same rules, for every clean input. */
  method OptimizeTwice(lib: Lib, key: Rule -> string, rules: seq<Rule>, matchLocal: bool) returns (once: seq<Rule>, twice: seq<Rule>)
    requires LibOk(lib) && CleanRules(lib, rules, matchLocal)
    ensures multiset(once) == multiset(twice) && SortedBy(key, once) && SortedBy(key, twice)
    ensures SamePolicy(lib, twice, rules, matchLocal)
  {
    hide LibOk, CleanRules, Stable, SortedBy, PolicyMatches;
    once := OptimizeFirewallRules(lib, key, rules, matchLocal);
    StableIsClean(lib, once, matchLocal);
    twice := OptimizeFirewallRules(lib, key, once, matchLocal);
  }

  /** Optimize followed by the compiled matcher: the decision is the one of the original rules. */
  method DecideOptimized(lib: Lib, key: Rule -> string, rules: seq<Rule>, q: Query, incoming: bool) returns (matched: bool)
    requires LibOk(lib) && CleanRules(lib, rules, incoming)
    ensures matched <==> PolicyMatches(lib, rules, q, incoming)
  {
    hide LibOk, CleanRules, RuleMatches, CompiledMatches, Stable;
    var optimized := OptimizeFirewallRules(lib, key, rules, incoming);
    var compiled := CompileFirewallRules(lib, optimized);
    matched := MatchFirewallRules(lib, compiled, q, incoming);
    assert matched <==> exists i | 0 <= i < |optimized| :: RuleMatches(lib, optimized[i], q, incoming);
    assert PolicyMatches(lib, optimized, q, incoming) <==> PolicyMatches(lib, rules, q, incoming);
  }

  /** The merged rules of one direction: None stands for a nil config. */
  method MergeFirewallConfigs(lib: Lib, key: Rule -> string, configs: seq<Option<seq<Rule>>>, matchLocal: bool)
    returns (out: seq<Rule>)
    requires LibOk(lib) && forall i | 0 <= i < |configs| && configs[i].Some? :: CleanRules(lib, configs[i].value, matchLocal)
    ensures Stable(lib, out, matchLocal)
    ensures forall q: Query :: PolicyMatches(lib, out, q, matchLocal) <==> AnyConfigMatches(lib, configs, q, matchLocal)
  {
    hide LibOk, CleanRule, RuleMatches, Stable, PolicyMatches;
    var merged: seq<Rule> := [];
    NoRules(lib, matchLocal);
    for i := 0 to |configs|
      invariant CleanRules(lib, merged, matchLocal)
      invariant forall q: Query :: PolicyMatches(lib, merged, q, matchLocal) <==> AnyConfigMatches(lib, configs[..i], q, matchLocal)
    {
      OneMoreConfig(lib, merged, configs, i, matchLocal);
      ghost var before := merged;
      if configs[i].Some? {
        merged := merged + configs[i].value;
      }
      assert merged == before + RulesOf(configs[i]);
    }
    assert configs[..|configs|] == configs;
    out := OptimizeFirewallRules(lib, key, merged, matchLocal);
  }

  function RulesOf(config: Option<seq<Rule>>): seq<Rule> {
    if config.Some? then config.value else []
  }

  predicate AnyConfigMatches(lib: Lib, configs: seq<Option<seq<Rule>>>, q: Query, incoming: bool) {
    exists i | 0 <= i < |configs| :: configs[i].Some? && PolicyMatches(lib, configs[i].value, q, incoming)
  }

  lemma NoRules(lib: Lib, incoming: bool)
    ensures forall q: Query :: !PolicyMatches(lib, [], q, incoming)
  {
  }

  lemma OneMoreConfig(lib: Lib, merged: seq<Rule>, configs: seq<Option<seq<Rule>>>, i: nat, incoming: bool)
    requires i < |configs|
    requires forall q: Query :: PolicyMatches(lib, merged, q, incoming) <==> AnyConfigMatches(lib, configs[..i], q, incoming)
    ensures forall q: Query ::
              PolicyMatches(lib, merged + RulesOf(configs[i]), q, incoming) <==> AnyConfigMatches(lib, configs[..i + 1], q, incoming)
  {
    hide RuleMatches, PolicyMatches, AnyConfigMatches, RulesOf;
    forall q: Query
      ensures PolicyMatches(lib, merged + RulesOf(configs[i]), q, incoming) <==> AnyConfigMatches(lib, configs[..i + 1], q, incoming)
    {
      MatchesConcat(lib, merged, RulesOf(configs[i]), q, incoming);
      LastConfig(lib, configs, i, q, incoming);
    }
  }

  lemma LastConfig(lib: Lib, configs: seq<Option<seq<Rule>>>, i: nat, q: Query, incoming: bool)
    requires i < |configs|
    ensures AnyConfigMatches(lib, configs[..i + 1], q, incoming) <==>
            AnyConfigMatches(lib, configs[..i], q, incoming) || PolicyMatches(lib, RulesOf(configs[i]), q, incoming)
  {
    hide RuleMatches, PolicyMatches;
    NoRules(lib, incoming);
    var all, before := configs[..i + 1], configs[..i];
    assert all[i] == configs[i];
    assert forall k | 0 <= k < i :: all[k] == before[k];
  }
}
