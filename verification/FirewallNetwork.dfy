/** Network selectors of firewall rules: firewallNetworkMatches, compileFirewallIPSelector
    (firewall_config.go) and firewallNetworkSubsumes (firewall_config_optimize.go). */
module FirewallNetwork {
  import opened FirewallText

  const ANY_PROTOCOL := 256
  const ICMP_PROTOCOL := 257

  /** firewallIPNetwork. */
  predicate IsIpNetwork(n: string) {
    || n == "ip4" || n == "ip6"
    || HasPrefix(n, "tcp") || HasPrefix(n, "udp") || HasPrefix(n, "icmp")
    || HasPrefix(n, "ip:") || HasPrefix(n, "ip4:") || HasPrefix(n, "ip6:")
  }

  /** firewallNetworkMatches: a rule's network against the network name of a query. */
  predicate NetMatches(rule: string, n: string) {
    if rule == "" || rule == "*" || rule == n then true
    else if rule == "ip" then IsIpNetwork(n)
    else if rule == "ip4" then n == "tcp4" || n == "udp4" || n == "icmp4" || HasPrefix(n, "ip4:")
    else if rule == "ip6" then n == "tcp6" || n == "udp6" || n == "icmp6" || HasPrefix(n, "ip6:")
    else if rule == "tcp" then n == "tcp4" || n == "tcp6"
    else if rule == "udp" then n == "udp4" || n == "udp6"
    else if rule == "icmp" then n == "icmp4" || n == "icmp6"
    else if HasPrefix(rule, "ip:") then n == "ip4:" + rule[3..] || n == "ip6:" + rule[3..]
    else false
  }

  datatype IpSelector = NoIp | IpSelector(version: nat, protocol: nat)

  /** strconv.ParseUint(text, 10, 8); 256 stands for an error. */
  function ParseProtocol(text: string): nat {
    if text == "" then 256 else ParseDigits(text, 0)
  }

  function ParseDigits(text: string, acc: nat): nat {
    if text == "" then acc
    else if !('0' <= text[0] <= '9') then 256
    else
      var next := acc * 10 + (text[0] - '0') as int;
      if next > 255 then 256 else ParseDigits(text[1..], next)
  }

  function NumberedSelector(version: nat, text: string): IpSelector {
    var protocol := ParseProtocol(text);
    if protocol > 255 then NoIp else IpSelector(version, protocol)
  }

  /** compileFirewallIPSelector. */
  function CompileIpSelector(n: string): IpSelector {
    if n == "" || n == "*" || n == "ip" then IpSelector(0, ANY_PROTOCOL)
    else if n == "ip4" then IpSelector(4, ANY_PROTOCOL)
    else if n == "ip6" then IpSelector(6, ANY_PROTOCOL)
    else if n == "tcp" then IpSelector(0, 6)
    else if n == "tcp4" then IpSelector(4, 6)
    else if n == "tcp6" then IpSelector(6, 6)
    else if n == "udp" then IpSelector(0, 17)
    else if n == "udp4" then IpSelector(4, 17)
    else if n == "udp6" then IpSelector(6, 17)
    else if n == "icmp" then IpSelector(0, ICMP_PROTOCOL)
    else if n == "icmp4" then IpSelector(4, 1)
    else if n == "icmp6" then IpSelector(6, 58)
    else if HasPrefix(n, "ip:") then NumberedSelector(0, n[3..])
    else if HasPrefix(n, "ip4:") then NumberedSelector(4, n[4..])
    else if HasPrefix(n, "ip6:") then NumberedSelector(6, n[4..])
    else NoIp
  }

  /** matchesIP, the version test and ipProtocolMatches. */
  predicate IpMatches(s: IpSelector, version: nat, protocol: nat) {
    && s.IpSelector?
    && (s.version == 0 || s.version == version)
    && (if s.protocol == ANY_PROTOCOL then true
        else if s.protocol == ICMP_PROTOCOL then (version == 4 && protocol == 1) || (version == 6 && protocol == 58)
        else s.protocol == protocol)
  }

  /** firewallRuleNetworkIsIP. */
  predicate IsIpRule(n: string) {
    || n in ["ip", "ip4", "ip6", "tcp", "tcp4", "tcp6", "udp", "udp4", "udp6", "icmp", "icmp4", "icmp6"]
    || HasPrefix(n, "ip:") || HasPrefix(n, "ip4:") || HasPrefix(n, "ip6:")
  }

  /** firewallNetworkSubsumes. */
  predicate NetSubsumes(a: string, b: string) {
    if a == b || a == "" then true
    else if b == "" then false
    else if a == "ip" then IsIpRule(b)
    else if a == "ip4" then b == "tcp4" || b == "udp4" || b == "icmp4" || HasPrefix(b, "ip4:")
    else if a == "ip6" then b == "tcp6" || b == "udp6" || b == "icmp6" || HasPrefix(b, "ip6:")
    else if a == "tcp" then b == "tcp4" || b == "tcp6"
    else if a == "udp" then b == "udp4" || b == "udp6"
    else if a == "icmp" then b == "icmp4" || b == "icmp6"
    else if HasPrefix(a, "ip:") then b == "ip4:" + a[3..] || b == "ip6:" + a[3..]
    else false
  }

  /** What a query says about its network: a name, or an IP version and protocol number. */
  datatype Traffic = ByName(network: string) | ByNumber(version: nat, protocol: nat)

  predicate TrafficMatches(rule: string, t: Traffic) {
    match t
    case ByName(n) => NetMatches(rule, n)
    case ByNumber(v, p) => IpMatches(CompileIpSelector(rule), v, p)
  }

  /** Names of one family and protocol match only themselves. */
  predicate IsLeaf(b: string) {
    || b in ["tcp4", "tcp6", "udp4", "udp6", "icmp4", "icmp6"]
    || HasPrefix(b, "ip4:") || HasPrefix(b, "ip6:")
  }

  lemma LeafMatchesItself(b: string, n: string)
    requires IsLeaf(b) && NetMatches(b, n)
    ensures n == b
  {
    if HasPrefix(b, "ip4:") || HasPrefix(b, "ip6:") {
      assert b[..4][2] == b[2] && b[..4][3] == b[3];
      NotPrefix(b, "ip:", 2);
    } else if b[0] == 'i' {
      NotPrefix(b, "ip:", 1);
    } else {
      NotPrefix(b, "ip:", 0);
    }
  }

  lemma NotPrefix(s: string, p: string, i: nat)
    requires i < |p| <= |s| && s[i] != p[i]
    ensures !HasPrefix(s, p)
  {
    assert s[..|p|][i] == s[i];
  }

  lemma IpMatchesLeaf(n: string)
    requires IsLeaf(n)
    ensures IsIpNetwork(n)
  {
    assert "tcp4"[..3] == "tcp" && "tcp6"[..3] == "tcp" && "udp4"[..3] == "udp" && "udp6"[..3] == "udp";
    assert "icmp4"[..4] == "icmp" && "icmp6"[..4] == "icmp";
  }

  /** A subsuming network selector matches whatever the subsumed one matches, by name ... */
  lemma NetSubsumesByName(a: string, b: string, n: string)
    requires NetSubsumes(a, b) && NetMatches(b, n) && b != "*"
    ensures NetMatches(a, n)
  {
    if a != b && a != "" {
      if IsLeaf(b) {
        LeafMatchesItself(b, n);
        IpMatchesLeaf(b);
      } else if a == "ip" {
        IpRuleMatches(b, n);
      } else if HasPrefix(a, "ip:") {
        PrefixedIsLeaf(a[3..]);
      }
    }
  }

  lemma PrefixedIsLeaf(p: string)
    ensures IsLeaf("ip4:" + p) && IsLeaf("ip6:" + p)
  {
    assert ("ip4:" + p)[..4] == "ip4:" && ("ip6:" + p)[..4] == "ip6:";
  }

  lemma IpRuleMatches(b: string, n: string)
    requires IsIpRule(b) && !IsLeaf(b) && NetMatches(b, n) && b != "ip"
    ensures IsIpNetwork(n)
  {
    assert "tcp"[..3] == "tcp" && "udp"[..3] == "udp" && "icmp"[..4] == "icmp";
    if n != b {
      if HasPrefix(b, "ip:") {
        PrefixedIsLeaf(b[3..]);
      }
      assert IsLeaf(n);
      IpMatchesLeaf(n);
    }
  }

  /** ... and by IP version and protocol number. */
  lemma NetSubsumesByNumber(a: string, b: string, version: nat, protocol: nat)
    requires NetSubsumes(a, b) && IpMatches(CompileIpSelector(b), version, protocol) && b != "*"
    ensures IpMatches(CompileIpSelector(a), version, protocol)
  {
    if a != b && a != "" && a != "ip" {
      if HasPrefix(a, "ip:") {
        NumberedSubsumes(a, b);
      } else if a == "ip4" || a == "ip6" {
        FamilySelector(b);
      }
    }
  }

  lemma FamilySelector(b: string)
    ensures b in ["tcp4", "udp4", "icmp4"] || HasPrefix(b, "ip4:") ==>
              CompileIpSelector(b).NoIp? || CompileIpSelector(b).version == 4
    ensures b in ["tcp6", "udp6", "icmp6"] || HasPrefix(b, "ip6:") ==>
              CompileIpSelector(b).NoIp? || CompileIpSelector(b).version == 6
  {
    if HasPrefix(b, "ip4:") || HasPrefix(b, "ip6:") {
      assert b[..4][2] == b[2] && b[..4][3] == b[3];
      NotPrefix(b, "ip:", 2);
      if HasPrefix(b, "ip6:") { NotPrefix(b, "ip4:", 2); }
    }
  }

  lemma NumberedSubsumes(a: string, b: string)
    requires HasPrefix(a, "ip:") && a != b && NetSubsumes(a, b)
    ensures CompileIpSelector(a) == NumberedSelector(0, a[3..])
    ensures CompileIpSelector(b) in [NumberedSelector(4, a[3..]), NumberedSelector(6, a[3..])]
  {
    assert a[..3][0] == a[0] && a[..3][1] == a[1] && a[..3][2] == a[2];
    var p := a[3..];
    var four, six := "ip4:" + p, "ip6:" + p;
    assert four[4..] == p && six[4..] == p && four[..4] == "ip4:" && six[..4] == "ip6:";
    NotPrefix(four, "ip:", 2);
    NotPrefix(six, "ip:", 2);
    NotPrefix(six, "ip4:", 2);
  }

  lemma NetSubsumesSound(a: string, b: string, t: Traffic)
    requires NetSubsumes(a, b) && TrafficMatches(b, t) && b != "*"
    ensures TrafficMatches(a, t)
  {
    match t
    case ByName(n) => NetSubsumesByName(a, b, n);
    case ByNumber(v, p) => NetSubsumesByNumber(a, b, v, p);
  }

  /** canonicalFirewallRule's network: the compiler lower-cases and trims, the optimiser also
      writes "*" as the empty selector. */
  function CanonicalNetwork(raw: string): string {
    var n := Lower(TrimSpace(raw));
    if n == "*" then "" else n
  }

  lemma CanonicalNetworkMeaning(raw: string, t: Traffic)
    ensures TrafficMatches(CanonicalNetwork(raw), t) <==> TrafficMatches(Lower(TrimSpace(raw)), t)
    ensures CanonicalNetwork(raw) != "*"
  {
  }

  // ---------------------------------------------------------------- names and numbers

  /** The networks that have both a name and a number. */
  predicate Named(name: string, version: nat, protocol: nat) {
    || (name == "tcp4" && version == 4 && protocol == 6) || (name == "tcp6" && version == 6 && protocol == 6)
    || (name == "udp4" && version == 4 && protocol == 17) || (name == "udp6" && version == 6 && protocol == 17)
    || (name == "icmp4" && version == 4 && protocol == 1) || (name == "icmp6" && version == 6 && protocol == 58)
  }

  /** Rules that give a protocol by its number. */
  predicate Numbered(rule: string) {
    HasPrefix(rule, "ip:") || HasPrefix(rule, "ip4:") || HasPrefix(rule, "ip6:")
  }

  /** A query by name and the same query by number are decided alike, except that a numbered rule
      matches by number only. */
  lemma NameAndNumberAgree(rule: string, name: string, version: nat, protocol: nat)
    requires Named(name, version, protocol)
    ensures NetMatches(rule, name) <==> !Numbered(rule) && IpMatches(CompileIpSelector(rule), version, protocol)
  {
    hide NetMatches, CompileIpSelector, IpMatches, Numbered;
    if Numbered(rule) {
      NumberedMissesName(rule, name, version, protocol);
    } else {
      UnnumberedAgree(rule, name, version, protocol);
    }
  }

  lemma UnnumberedAgree(rule: string, name: string, version: nat, protocol: nat)
    requires Named(name, version, protocol) && !Numbered(rule)
    ensures NetMatches(rule, name) <==> IpMatches(CompileIpSelector(rule), version, protocol)
  {
    IpMatchesLeaf(name);
    assert !HasPrefix(name, "ip4:") && !HasPrefix(name, "ip6:") by {
      NotPrefix(name, "ip4:", 1);
      NotPrefix(name, "ip6:", 1);
    }
    hide IsIpNetwork, HasPrefix;
  }

  lemma NumberedMissesName(rule: string, name: string, version: nat, protocol: nat)
    requires Named(name, version, protocol) && Numbered(rule)
    ensures !NetMatches(rule, name)
  {
    NumberedIsNoName(rule);
    var text := if HasPrefix(rule, "ip:") then rule[3..] else "";
    assert name[1] != 'p' && ("ip4:" + text)[1] == 'p' && ("ip6:" + text)[1] == 'p';
  }

  lemma NumberedIsNoName(rule: string)
    requires Numbered(rule)
    ensures rule !in ["", "*", "ip", "ip4", "ip6", "tcp", "udp", "icmp", "tcp4", "tcp6", "udp4", "udp6", "icmp4", "icmp6"]
  {
    var k := if HasPrefix(rule, "ip:") then 3 else 4;
    assert rule[..k][k - 1] == rule[k - 1] == ':';
  }

  /** The number that decimal digits stand for. */
  function Value(digits: string): nat
    requires AllDigits(digits)
  {
    if digits == "" then 0 else 10 * Value(digits[..|digits| - 1]) + (digits[|digits| - 1] - '0') as int
  }

  predicate AllDigits(text: string) {
    forall i | 0 <= i < |text| :: '0' <= text[i] <= '9'
  }

  /** strconv.ParseUint(text, 10, 8): one digit or more, leading zeros allowed, at most 255. */
  lemma ProtocolText(text: string)
    ensures ParseProtocol(text) <= 255 <==> text != "" && AllDigits(text) && Value(text) <= 255
    ensures ParseProtocol(text) <= 255 ==> ParseProtocol(text) == Value(text)
  {
    if text != "" {
      assert "" + text == text;
      DigitsSoFar("", text);
    }
  }

  lemma {:induction false} DigitsSoFar(done: string, text: string)
    requires AllDigits(done) && Value(done) <= 255
    ensures ParseDigits(text, Value(done)) <= 255 <==> AllDigits(done + text) && Value(done + text) <= 255
    ensures ParseDigits(text, Value(done)) <= 255 ==> ParseDigits(text, Value(done)) == Value(done + text)
    decreases |text|
  {
    hide Value, AllDigits;
    if text == "" {
      assert done + text == done;
    } else {
      var more := done + [text[0]];
      assert done + text == more + text[1..];
      if !('0' <= text[0] <= '9') {
        NoDigitInside(done, text);
      } else {
        OneDigitMore(done, text[0]);
        if Value(more) <= 255 {
          DigitsSoFar(more, text[1..]);
        } else if AllDigits(done + text) {
          ValueGrows(more, text[1..]);
        }
      }
    }
  }

  lemma NoDigitInside(done: string, text: string)
    requires text != "" && !('0' <= text[0] <= '9')
    ensures !AllDigits(done + text)
  {
    assert (done + text)[|done|] == text[0];
  }

  lemma OneDigitMore(done: string, c: char)
    requires AllDigits(done) && '0' <= c <= '9'
    ensures AllDigits(done + [c]) && Value(done + [c]) == 10 * Value(done) + (c - '0') as int
  {
    var more := done + [c];
    assert more[..|done|] == done && more[|done|] == c;
    assert AllDigits(more);
  }

  lemma {:induction false} ValueGrows(a: string, b: string)
    requires AllDigits(a + b)
    ensures AllDigits(a) && Value(a + b) >= Value(a)
    decreases |b|
  {
    assert forall i | 0 <= i < |a| :: a[i] == (a + b)[i];
    if b == "" {
      assert a + b == a;
    } else {
      var n := |b| - 1;
      assert (a + b)[..|a| + n] == a + b[..n];
      assert forall i | 0 <= i < |a| + n :: (a + b[..n])[i] == (a + b)[i];
      ValueGrows(a, b[..n]);
    }
  }

  /** A numbered rule matches exactly its protocol, in its family or in both. */
  lemma NumberedRule(text: string, version: nat, protocol: nat)
    ensures IpMatches(CompileIpSelector("ip:" + text), version, protocol) <==>
            text != "" && AllDigits(text) && Value(text) == protocol <= 255
    ensures IpMatches(CompileIpSelector("ip4:" + text), version, protocol) <==>
            version == 4 && text != "" && AllDigits(text) && Value(text) == protocol <= 255
    ensures IpMatches(CompileIpSelector("ip6:" + text), version, protocol) <==>
            version == 6 && text != "" && AllDigits(text) && Value(text) == protocol <= 255
  {
    ProtocolText(text);
    hide ParseProtocol, Value, AllDigits;
    var any, four, six := "ip:" + text, "ip4:" + text, "ip6:" + text;
    assert any[..3] == "ip:" && any[3..] == text && four[..4] == "ip4:" && four[4..] == text && six[..4] == "ip6:" && six[4..] == text;
    NotPrefix(four, "ip:", 2);
    NotPrefix(six, "ip:", 2);
    NotPrefix(six, "ip4:", 2);
    NumberedIsNoName(any);
    NumberedIsNoName(four);
    NumberedIsNoName(six);
  }

  // ---------------------------------------------------------------- subsumption is complete

  /** Names that begin like a known network and are none: rules for them match only themselves. */
  predicate Odd(b: string) {
    && (HasPrefix(b, "tcp") || HasPrefix(b, "udp") || HasPrefix(b, "icmp"))
    && b !in ["tcp", "tcp4", "tcp6", "udp", "udp4", "udp6", "icmp", "icmp4", "icmp6"]
  }

  /** One network rule covers another, for all traffic, if and only if the optimiser says so, or an
      "ip" rule is compared with an odd name. */
  lemma NetSubsumesExact(a: string, b: string)
    requires a != "*" && b != "*"
    ensures (forall t: Traffic :: TrafficMatches(b, t) ==> TrafficMatches(a, t)) <==> NetSubsumes(a, b) || (a == "ip" && Odd(b))
  {
    hide NetMatches, CompileIpSelector, IpMatches, NetSubsumes, Odd;
    if NetSubsumes(a, b) {
      forall t: Traffic | TrafficMatches(b, t) ensures TrafficMatches(a, t) { NetSubsumesSound(a, b, t); }
    } else if a == "ip" && Odd(b) {
      forall t: Traffic | TrafficMatches(b, t) ensures TrafficMatches(a, t) { OddIsIp(b, t); }
    } else {
      Uncovered(a, b);
    }
  }

  lemma OddIsIp(b: string, t: Traffic)
    requires Odd(b) && TrafficMatches(b, t)
    ensures TrafficMatches("ip", t)
  {
    assert !Numbered(b) by {
      assert b[..3][1] == b[1] && b[..3][0] == b[0];
      if HasPrefix(b, "icmp") { assert b[..4][1] == b[1]; }
      NotNumbered(b);
    }
    assert b !in ["", "ip", "ip4", "ip6"] by {
      assert b[..3][1] == b[1];
      if HasPrefix(b, "icmp") { assert b[..4][1] == b[1]; }
    }
  }

  lemma NotNumbered(b: string)
    requires |b| >= 3 && b[1] != 'p'
    ensures !Numbered(b)
  {
    NotPrefix(b, "ip:", 1);
    if |b| >= 4 {
      NotPrefix(b, "ip4:", 1);
      NotPrefix(b, "ip6:", 1);
    }
  }

  /** Otherwise a query by the name that is the rule's own text, or by another name, tells. */
  lemma Uncovered(a: string, b: string)
    requires a != "*" && b != "*" && !NetSubsumes(a, b) && !(a == "ip" && Odd(b))
    ensures exists t: Traffic :: TrafficMatches(b, t) && !TrafficMatches(a, t)
  {
    if b == "" {
      var n := if a == "?" then "??" else "?";
      assert n[0] == '?';
      OwnNameOnly(a, n);
      assert TrafficMatches(b, ByName(n)) && !TrafficMatches(a, ByName(n));
    } else {
      assert !NetMatches(a, b);
      assert TrafficMatches(b, ByName(b)) && !TrafficMatches(a, ByName(b));
    }
  }

  lemma OwnNameOnly(a: string, n: string)
    requires a != "" && a != "*" && a != n && 1 <= |n| <= 2 && n[0] == '?'
    ensures !NetMatches(a, n)
  {
    if HasPrefix(a, "ip:") { assert ("ip4:" + a[3..])[0] == 'i' && ("ip6:" + a[3..])[0] == 'i'; }
  }
}
