/** Host selectors: what they match (firewall_config.go) and how the optimiser rewrites
    them (canonicalFirewallHosts and friends, firewall_config_optimize.go). */
module FirewallHosts {
  import opened Basics
  import opened FirewallPatterns
  import opened FirewallText

  /** The library functions that selectors rest on: netip parsing and printing of zone-free
      text, and path.Match. */
  datatype Lib = Lib(
    parseAddr: string -> Option<Addr>,
    parsePrefix: string -> Option<Prefix>,
    addrText: Addr -> string,
    prefixText: Prefix -> string,
    glob: (string, string) -> bool,
    badGlob: string -> bool)

  /** What their documentation promises. */
  ghost predicate LibOk(lib: Lib) {
    && (forall s: string | lib.parseAddr(s).Some? ::
          Plain(s) && '/' !in s && ValidAddr(lib.parseAddr(s).value))
    && (forall s: string | lib.parsePrefix(s).Some? ::
          Plain(s) && '/' in s && ValidPrefix(lib.parsePrefix(s).value))
    && (forall a: Addr | ValidAddr(a) ::
          lib.parseAddr(lib.addrText(a)) == Some(a) && Lower(lib.addrText(a)) == lib.addrText(a))
    && (forall p: Prefix | ValidPrefix(p) ::
          lib.parsePrefix(lib.prefixText(p)) == Some(p) && Lower(lib.prefixText(p)) == lib.prefixText(p))
    && (forall s: string, n: string | lib.badGlob(s) :: !lib.glob(s, n))
    && (forall s: string | '[' !in s ::
          && (lib.badGlob(s) <==> !WellEscaped(s))
          && forall n: string :: lib.glob(s, n) <==> WellEscaped(s) && PathMatches(s, n))
  }

  // ---------------------------------------------------------------- meaning

  /** The peer or local end of a connection, as the matchers see it. */
  datatype Endpoint = Name(name: string) | Ip(addr: Addr)

  /** Reverse names that the DNS cache holds at the moment of the query. */
  type DnsCache = map<Addr, seq<string>>

  /** Both the compiler and the optimiser read a selector's text this way. */
  function Norm(raw: string): string {
    TrimDot(Lower(raw))
  }

  datatype Host = Any | Nothing | Address(addr: Addr) | Net(prefix: Prefix) | Pattern(text: string)

  /** How compileFirewallHostSelector classifies normalised text. */
  function Classify(lib: Lib, t: string): Host {
    if t == "*" then Any
    else
      var a := lib.parseAddr(CutZone(TrimBrackets(t)));
      if a.Some? then Address(Unmap(a.value))
      else
        var p := lib.parsePrefix(t);
        if p.Some? && ValidPrefix(p.value) then Net(CanonicalPrefix(p.value))
        else if t != "" then Pattern(t)
        else Nothing
  }

  /** nameMatches for one pattern. */
  predicate NameHit(lib: Lib, pattern: string, name: string) {
    Norm(name) != "" && lib.glob(pattern, Norm(name))
  }

  function CachedNames(cache: DnsCache, a: Addr): seq<string> {
    if a in cache then cache[a] else []
  }

  predicate PatternHit(lib: Lib, pattern: string, ep: Endpoint, cache: DnsCache) {
    match ep
    case Name(n) => NameHit(lib, pattern, n)
    case Ip(a) => exists i | 0 <= i < |CachedNames(cache, a)| :: NameHit(lib, pattern, CachedNames(cache, a)[i])
  }

  predicate HostHit(lib: Lib, h: Host, ep: Endpoint, cache: DnsCache) {
    match h
    case Any => true
    case Nothing => false
    case Address(a) => ep == Ip(a)
    case Net(p) => ep.Ip? && ValidPrefix(p) && Contains(p, ep.addr)
    case Pattern(t) => PatternHit(lib, t, ep, cache)
  }

  /** One entry of a host list matches an endpoint. */
  predicate TextHit(lib: Lib, raw: string, ep: Endpoint, cache: DnsCache) {
    HostHit(lib, Classify(lib, Norm(raw)), ep, cache)
  }

  /** A host list matches: an empty list matches everything. */
  predicate HostsMatch(lib: Lib, hosts: seq<string>, ep: Endpoint, cache: DnsCache) {
    hosts == [] || exists i | 0 <= i < |hosts| :: TextHit(lib, hosts[i], ep, cache)
  }

  /** The list matches whatever the endpoint is. */
  predicate AnyHost(hosts: seq<string>) {
    hosts == [] || exists i | 0 <= i < |hosts| :: Norm(hosts[i]) == "*"
  }

  /** compiledFirewallHostSelector. */
  datatype Selector = Selector(any: bool, names: seq<string>, addrs: seq<Addr>, prefixes: seq<Prefix>)

  /** any, or matches. */
  predicate SelectorHit(lib: Lib, sel: Selector, ep: Endpoint, cache: DnsCache) {
    || sel.any
    || (ep.Ip? && ep.addr in sel.addrs)
    || (ep.Ip? && exists p | p in sel.prefixes :: ValidPrefix(p) && Contains(p, ep.addr))
    || exists t | t in sel.names :: PatternHit(lib, t, ep, cache)
  }

  /** nameMatches. */
  method NameMatches(lib: Lib, names: seq<string>, name: string) returns (matched: bool)
    ensures matched <==> exists t | t in names :: NameHit(lib, t, name)
  {
    var n := Norm(name);
    if n == "" { return false; }
    for i := 0 to |names|
      invariant forall t | t in names[..i] :: !NameHit(lib, t, name)
    {
      if lib.glob(names[i], n) {
        assert NameHit(lib, names[i], name);
        return true;
      }
    }
    assert names[..|names|] == names;
    return false;
  }

  /** addrMatches. */
  method AddrMatches(sel: Selector, a: Addr) returns (matched: bool)
    ensures matched <==> a in sel.addrs || exists p | p in sel.prefixes :: ValidPrefix(p) && Contains(p, a)
  {
    hide Contains, ValidPrefix;
    for i := 0 to |sel.addrs|
      invariant a !in sel.addrs[..i]
    {
      if sel.addrs[i] == a { return true; }
    }
    assert sel.addrs[..|sel.addrs|] == sel.addrs;
    for i := 0 to |sel.prefixes|
      invariant forall p | p in sel.prefixes[..i] :: !(ValidPrefix(p) && Contains(p, a))
    {
      if ValidPrefix(sel.prefixes[i]) && Contains(sel.prefixes[i], a) { return true; }
    }
    assert sel.prefixes[..|sel.prefixes|] == sel.prefixes;
    return false;
  }

  /** matches, or any: an address by itself or by its cached names, a name by itself. */
  method SelectorMatches(lib: Lib, sel: Selector, ep: Endpoint, cache: DnsCache) returns (matched: bool)
    ensures matched <==> SelectorHit(lib, sel, ep, cache)
  {
    hide NameHit, Contains, ValidPrefix;
    if sel.any { return true; }
    if ep.Name? {
      matched := NameMatches(lib, sel.names, ep.name);
      return;
    }
    matched := AddrMatches(sel, ep.addr);
    if matched { return true; }
    if |sel.names| == 0 { return false; }
    var names := CachedNames(cache, ep.addr);
    for i := 0 to |names|
      invariant forall k, t | 0 <= k < i && t in sel.names :: !NameHit(lib, t, names[k])
    {
      matched := NameMatches(lib, sel.names, names[i]);
      if matched {
        var t :| t in sel.names && NameHit(lib, t, names[i]);
        assert PatternHit(lib, t, ep, cache);
        return true;
      }
    }
    return false;
  }

  function AddHost(sel: Selector, h: Host): Selector {
    match h
    case Any => sel.(any := true)
    case Nothing => sel
    case Address(a) => sel.(addrs := sel.addrs + [a])
    case Net(p) => sel.(prefixes := sel.prefixes + [p])
    case Pattern(x) => sel.(names := sel.names + [x])
  }

  lemma AddHostHit(lib: Lib, sel: Selector, h: Host, ep: Endpoint, cache: DnsCache)
    ensures SelectorHit(lib, AddHost(sel, h), ep, cache) <==> SelectorHit(lib, sel, ep, cache) || HostHit(lib, h, ep, cache)
  {
    hide PatternHit, Contains;
    var s := AddHost(sel, h);
    match h
    case Any =>
    case Nothing =>
    case Address(a) => assert forall x: Addr :: x in s.addrs <==> x in sel.addrs || x == a;
    case Net(p) => assert forall x: Prefix :: x in s.prefixes <==> x in sel.prefixes || x == p;
    case Pattern(t) => assert forall x: string :: x in s.names <==> x in sel.names || x == t;
  }

  /** Some of the first n entries matches. */
  predicate FirstHit(lib: Lib, hosts: seq<string>, n: nat, ep: Endpoint, cache: DnsCache)
    requires n <= |hosts|
  {
    exists i | 0 <= i < n :: TextHit(lib, hosts[i], ep, cache)
  }

  /** compileFirewallHostSelector sorts entries into three lists without changing what they match. */
  method CompileHostSelector(lib: Lib, hosts: seq<string>) returns (sel: Selector)
    ensures sel.any <==> AnyHost(hosts)
    ensures forall ep: Endpoint, cache: DnsCache ::
              SelectorHit(lib, sel, ep, cache) <==> HostsMatch(lib, hosts, ep, cache)
  {
    hide SelectorHit, HostHit, FirstHit, HostsMatch, Classify, Norm;
    NoEntries(lib, hosts);
    sel := Selector(|hosts| == 0, [], [], []);
    for i := 0 to |hosts|
      invariant sel.any <==> hosts == [] || exists j | 0 <= j < i :: Norm(hosts[j]) == "*"
      invariant forall ep: Endpoint, cache: DnsCache ::
                  SelectorHit(lib, sel, ep, cache) <==> hosts == [] || FirstHit(lib, hosts, i, ep, cache)
    {
      var h := Classify(lib, Norm(hosts[i]));
      ClassifyAny(lib, Norm(hosts[i]));
      forall ep: Endpoint, cache: DnsCache
        ensures SelectorHit(lib, AddHost(sel, h), ep, cache) <==> hosts == [] || FirstHit(lib, hosts, i + 1, ep, cache)
      {
        AddHostHit(lib, sel, h, ep, cache);
        OneMoreEntry(lib, hosts, i, ep, cache);
      }
      sel := AddHost(sel, h);
    }
    AllEntries(lib, hosts);
  }

  lemma ClassifyAny(lib: Lib, t: string)
    ensures Classify(lib, t).Any? <==> t == "*"
  {
  }

  lemma NoEntries(lib: Lib, hosts: seq<string>)
    ensures forall ep: Endpoint, cache: DnsCache ::
              SelectorHit(lib, Selector(|hosts| == 0, [], [], []), ep, cache) <==> hosts == [] || FirstHit(lib, hosts, 0, ep, cache)
  {
    var none := Selector(|hosts| == 0, [], [], []);
    forall ep: Endpoint, cache: DnsCache
      ensures SelectorHit(lib, none, ep, cache) <==> hosts == [] || FirstHit(lib, hosts, 0, ep, cache)
    {
      assert !FirstHit(lib, hosts, 0, ep, cache);
      assert SelectorHit(lib, none, ep, cache) <==> none.any;
    }
  }

  lemma OneMoreEntry(lib: Lib, hosts: seq<string>, i: nat, ep: Endpoint, cache: DnsCache)
    requires i < |hosts|
    ensures FirstHit(lib, hosts, i + 1, ep, cache) <==>
            FirstHit(lib, hosts, i, ep, cache) || HostHit(lib, Classify(lib, Norm(hosts[i])), ep, cache)
  {
    hide HostHit, Classify, Norm;
    assert TextHit(lib, hosts[i], ep, cache) <==> HostHit(lib, Classify(lib, Norm(hosts[i])), ep, cache);
  }

  lemma AllEntries(lib: Lib, hosts: seq<string>)
    ensures forall ep: Endpoint, cache: DnsCache ::
              HostsMatch(lib, hosts, ep, cache) <==> hosts == [] || FirstHit(lib, hosts, |hosts|, ep, cache)
  {
  }

  // ---------------------------------------------------------------- canonical texts

  /** What is left of any text when a zone is cut from it as from an address. */
  function WithoutZone(t: string): string {
    if '%' in TrimBrackets(t) then CutZone(TrimBrackets(t)) else t
  }

  /** One step of canonicalFirewallHosts: the zone is cut from any text, addresses and prefixes
      are printed canonically, malformed patterns are dropped. */
  function CanonicalText(lib: Lib, t: string): Option<string> {
    if t == "" then None
    else
      var u := WithoutZone(t);
      var a := lib.parseAddr(TrimBrackets(u));
      if a.Some? then Some(lib.addrText(Unmap(a.value)))
      else
        var p := lib.parsePrefix(u);
        if p.Some? && ValidPrefix(p.value) then Some(lib.prefixText(CanonicalPrefix(p.value)))
        else if lib.badGlob(u) then None
        else Some(u)
  }

  /** Texts that survive canonicalisation unchanged and mean the same when compiled. */
  ghost predicate Canonical(lib: Lib, c: string) {
    && Norm(c) == c && c != "*" && c != "" && SafeEscapes(c) && '%' !in c
    && CanonicalText(lib, c) == Some(c)
  }

  /** The entries the optimiser handles faithfully: addresses, with or without a zone; other texts
      without '%' that a second trimming leaves alone and whose backslashes are safe; and patterns
      without a name that are dropped, or rewritten to another such pattern once and for all. */
  predicate Clean(lib: Lib, raw: string) {
    var t := Norm(raw);
    || lib.parseAddr(CutZone(TrimBrackets(t))).Some?
    || (TrimDot(t) == t && '%' !in t && SafeEscapes(t))
    || ('[' !in t && NoName(t) && Settles(WithoutZone(t)))
  }

  /** Malformed, and so dropped; or unmatched, and left alone by a second pass. */
  predicate Settles(u: string) {
    !WellEscaped(u) || (EscapedSpace(u) && Norm(u) == u)
  }

  predicate CleanHosts(lib: Lib, hosts: seq<string>) {
    forall i | 0 <= i < |hosts| :: Clean(lib, hosts[i])
  }

  lemma NormNorm(raw: string)
    requires TrimDot(Norm(raw)) == Norm(raw)
    ensures Norm(Norm(raw)) == Norm(raw)
  {
    TrimDotLower(Lower(raw));
    LowerTwice(raw);
  }

  lemma AddrTextCanonical(lib: Lib, a: Addr)
    requires LibOk(lib) && ValidAddr(a) && Unmap(a) == a
    ensures Canonical(lib, lib.addrText(a)) && Classify(lib, lib.addrText(a)) == Address(a)
  {
    var c := lib.addrText(a);
    assert lib.parseAddr(c) == Some(a);
    PlainUntouched(c);
  }

  /** An address may stand in brackets, and may have a zone, which is ignored. */
  lemma BracketsAndZones(lib: Lib, a: Addr, before: string, after: string)
    requires LibOk(lib) && ValidAddr(a)
    requires (before == "" || before == "[") && (after == "" || after == "]" || after[0] == '%')
    ensures Classify(lib, before + lib.addrText(a) + after) == Address(Unmap(a))
  {
    var t := lib.addrText(a);
    assert lib.parseAddr(t) == Some(a) && Plain(t);
    CutBracketed(t, before, after);
    assert t[0] in t && (before + t + after)[0] == (if before == "" then t[0] else '[');
    assert "*"[0] == '*';
    hide LibOk, Plain, TrimBrackets, CutZone;
  }

  /** Brackets around plain text, and everything from a '%' on, are cut off. */
  lemma CutBracketed(t: string, before: string, after: string)
    requires Plain(t) && (before == "" || before == "[") && (after == "" || after == "]" || after[0] == '%')
    ensures CutZone(TrimBrackets(before + t + after)) == t
  {
    assert t[0] in t && t[|t| - 1] in t;
    assert before + t + after == before + (t + after);
    LeftBracket(t + after, before);
    hide Plain, TrimLeft, TrimRight;
    var tail := RightBracket(t, after);
    CutAt(t, tail);
  }

  lemma LeftBracket(u: string, before: string)
    requires u != "" && !IsBracket(u[0]) && (before == "" || before == "[")
    ensures TrimLeft(before + u, IsBracket) == u
  {
    if before == "[" { assert (before + u)[1..] == u; } else { assert before + u == u; }
  }

  lemma RightBracket(t: string, after: string) returns (tail: string)
    requires t != "" && !IsBracket(t[|t| - 1]) && (after == "" || after == "]" || after[0] == '%')
    ensures TrimRight(t + after, IsBracket) == t + tail && (tail == "" || tail[0] == '%')
  {
    var s := t + after;
    TrimRightPrefix(s, IsBracket);
    TrimRightDone(s, IsBracket);
    var r := TrimRight(s, IsBracket);
    hide TrimRight;
    assert s[|t| - 1] == t[|t| - 1];
    assert |r| >= |t|;
    tail := r[|t|..];
    assert r == t + tail;
    if after != "" { assert s[|t|] == after[0]; }
  }

  lemma {:induction false} CutAt(t: string, tail: string)
    requires '%' !in t && (tail == "" || tail[0] == '%')
    ensures CutZone(t + tail) == t
    decreases |t|
  {
    if t == "" {
      assert t + tail == tail;
    } else {
      assert t[0] in t;
      assert (t + tail)[1..] == t[1..] + tail;
      CutAt(t[1..], tail);
    }
  }

  lemma PrefixTextCanonical(lib: Lib, p: Prefix)
    requires LibOk(lib) && ValidPrefix(p) && CanonicalPrefix(p) == p
    ensures Canonical(lib, lib.prefixText(p)) && Classify(lib, lib.prefixText(p)) == Net(p)
  {
    var c := lib.prefixText(p);
    assert lib.parsePrefix(c) == Some(p);
    PlainUntouched(c);
    assert lib.parseAddr(c).None?;
  }

  /** Canonicalising a clean text keeps what it matches; a text that is dropped matches nothing. */
  lemma CanonicalTextMeaning(lib: Lib, raw: string)
    requires LibOk(lib) && Clean(lib, raw) && Norm(raw) != "*"
    ensures var c := CanonicalText(lib, Norm(raw));
            && (c.Some? ==> Canonical(lib, c.value))
            && (c.Some? ==> Classify(lib, c.value) == Classify(lib, Norm(raw)) || NoName(c.value))
            && (c.Some? ==> forall ep: Endpoint, cache: DnsCache :: TextHit(lib, c.value, ep, cache) <==> TextHit(lib, raw, ep, cache))
            && (c.None? ==> forall ep: Endpoint, cache: DnsCache :: !TextHit(lib, raw, ep, cache))
  {
    var t := Norm(raw);
    if lib.parseAddr(CutZone(TrimBrackets(t))).Some? {
      AddressMeaning(lib, raw);
    } else if TrimDot(t) == t && '%' !in t && SafeEscapes(t) {
      StableMeaning(lib, raw);
    } else {
      UnnamedMeaning(lib, raw);
    }
  }

  lemma SameClass(lib: Lib, h: string, c: string)
    requires Norm(c) == c && Classify(lib, c) == Classify(lib, Norm(h))
    ensures forall ep: Endpoint, cache: DnsCache :: TextHit(lib, c, ep, cache) <==> TextHit(lib, h, ep, cache)
  {
  }

  lemma AddressMeaning(lib: Lib, raw: string)
    requires LibOk(lib) && lib.parseAddr(CutZone(TrimBrackets(Norm(raw)))).Some?
    ensures var c := CanonicalText(lib, Norm(raw));
            && c.Some? && Canonical(lib, c.value) && Classify(lib, c.value) == Classify(lib, Norm(raw))
            && forall ep: Endpoint, cache: DnsCache :: TextHit(lib, c.value, ep, cache) <==> TextHit(lib, raw, ep, cache)
  {
    var t := Norm(raw);
    var inner := CutZone(TrimBrackets(t));
    var a := lib.parseAddr(inner).value;
    PlainUntouched(inner);
    if '%' !in TrimBrackets(t) { CutZoneNone(TrimBrackets(t)); }
    assert t != "" && t != "*" by {
      assert TrimBrackets("") == "" && CutZone("") == "";
      assert CutZone(TrimBrackets("*")) == "*" && '*' in "*";
    }
    UnmapTwice(a);
    AddrTextCanonical(lib, Unmap(a));
    SameClass(lib, raw, lib.addrText(Unmap(a)));
  }

  /** A stable text without '%' keeps its class. */
  lemma StableMeaning(lib: Lib, raw: string)
    requires LibOk(lib) && Norm(raw) != "*" && TrimDot(Norm(raw)) == Norm(raw) && '%' !in Norm(raw)
    ensures var c := CanonicalText(lib, Norm(raw));
            && (c.Some? ==> Norm(c.value) == c.value && Classify(lib, c.value) == Classify(lib, Norm(raw)))
            && (c.Some? && SafeEscapes(Norm(raw)) ==> Canonical(lib, c.value))
            && (c.Some? ==> forall ep: Endpoint, cache: DnsCache :: TextHit(lib, c.value, ep, cache) <==> TextHit(lib, raw, ep, cache))
            && (c.None? ==> forall ep: Endpoint, cache: DnsCache :: !TextHit(lib, raw, ep, cache))
  {
    var t := Norm(raw);
    TrimKeeps(t, IsBracket, '%');
    CutZoneNone(TrimBrackets(t));
    NormNorm(raw);
    if t == "" {
      assert TrimBrackets(t) == "";
    } else if lib.parseAddr(TrimBrackets(t)).Some? {
      AddressMeaning(lib, raw);
    } else {
      if lib.parsePrefix(t).Some? {
        CanonicalPrefixTwice(lib.parsePrefix(t).value);
        PrefixTextCanonical(lib, CanonicalPrefix(lib.parsePrefix(t).value));
      }
      if CanonicalText(lib, t).Some? { SameClass(lib, raw, CanonicalText(lib, t).value); }
    }
  }

  /** A pattern that matches no name selects nothing. */
  lemma NoNameHitsNothing(lib: Lib, p: string)
    requires LibOk(lib) && '[' !in p && NoName(p) && lib.parseAddr(CutZone(TrimBrackets(p))).None?
    ensures Classify(lib, p) == if p == "" then Nothing else Pattern(p)
    ensures forall ep: Endpoint, cache: DnsCache :: !HostHit(lib, Classify(lib, p), ep, cache)
  {
    if '\\' !in p { WellEscapedNone(p); }
    assert !Plain(p);
    assert p != "*" by { assert '*' in "*"; assert "*"[0] != '\\'; }
    forall n: string ensures !NameHit(lib, p, n) {
      NormFirst(n);
    }
  }

  /** A text with a backslash is neither an address nor a prefix. */
  lemma BackslashNotNumeric(lib: Lib, u: string)
    requires LibOk(lib) && '\\' in u
    ensures lib.parseAddr(u).None? && lib.parsePrefix(u).None? && lib.parseAddr(TrimBrackets(u)).None?
  {
    TrimKeeps(u, IsBracket, '\\');
    assert !Plain(u) && !Plain(TrimBrackets(u));
  }

  lemma UnnamedMeaning(lib: Lib, raw: string)
    requires LibOk(lib) && '[' !in Norm(raw) && NoName(Norm(raw)) && Settles(WithoutZone(Norm(raw)))
    requires lib.parseAddr(CutZone(TrimBrackets(Norm(raw)))).None?
    ensures var c := CanonicalText(lib, Norm(raw));
            && (c.Some? ==> Canonical(lib, c.value) && NoName(c.value))
            && (c.Some? ==> forall ep: Endpoint, cache: DnsCache :: TextHit(lib, c.value, ep, cache) <==> TextHit(lib, raw, ep, cache))
            && (c.None? ==> forall ep: Endpoint, cache: DnsCache :: !TextHit(lib, raw, ep, cache))
  {
    var t := Norm(raw);
    NoNameHitsNothing(lib, t);
    var u := WithoutZone(t);
    if t != "" {
      if '\\' !in u { WellEscapedNone(u); }
      WithoutZoneChars(t);
      BackslashNotNumeric(lib, u);
      assert '[' !in u && '%' !in u;
      assert CanonicalText(lib, t) == if lib.badGlob(u) then None else Some(u);
      if WellEscaped(u) {
        TrimKeeps(u, IsBracket, '%');
        CutZoneNone(TrimBrackets(u));
        NoNameHitsNothing(lib, u);
        assert u != "*" by { assert "*"[0] != '\\'; }
        assert Canonical(lib, u);
      }
    }
  }

  lemma WithoutZoneChars(t: string)
    ensures '%' !in WithoutZone(t)
    ensures forall c | c in WithoutZone(t) :: c in t
  {
    TrimKeeps(t, IsBracket, '%');
    TrimKeepsSubset(t, IsBracket);
    CutZoneClean(TrimBrackets(t));
  }

  lemma UnmapTwice(a: Addr)
    ensures Unmap(Unmap(a)) == Unmap(a)
  {
  }

  // ---------------------------------------------------------------- subsumption

  /** firewallHostSubsumes, on texts. */
  predicate HostSubsumes(lib: Lib, a: string, b: string) {
    if a == b then true
    else
      var ap, bp := lib.parsePrefix(a), lib.parsePrefix(b);
      var aa, ba := lib.parseAddr(a), lib.parseAddr(b);
      if ap.Some? then
        if !ValidPrefix(ap.value) then false
        else if ba.Some? then Contains(ap.value, ba.value)
        else bp.Some? && ap.value.len <= bp.value.len && Contains(ap.value, bp.value.addr)
      else if aa.Some? then ba.Some? && aa.value == ba.value
      else if ba.Some? || bp.Some? then false
      else !HasMeta(b) && lib.glob(a, b)
  }

  /** What a canonical text is. */
  lemma CanonicalShape(lib: Lib, c: string)
    requires LibOk(lib) && Canonical(lib, c)
    ensures match Classify(lib, c)
            case Address(a) => ValidAddr(a) && lib.parseAddr(c) == Some(a) && c == lib.addrText(a)
            case Net(p) =>
              && ValidPrefix(p) && lib.parseAddr(c).None? && lib.parsePrefix(c) == Some(p)
              && c == lib.prefixText(p) && CanonicalPrefix(p) == p
            case Pattern(t) => t == c && lib.parseAddr(c).None? && lib.parsePrefix(c).None? && !lib.badGlob(c)
            case Any => false
            case Nothing => false
  {
    TrimKeeps(c, IsBracket, '%');
    CutZoneNone(TrimBrackets(c));
    var a := lib.parseAddr(TrimBrackets(c));
    if a.Some? {
      UnmapTwice(a.value);
      AddrTextCanonical(lib, Unmap(a.value));
      PlainUntouched(c);
    } else {
      if lib.parseAddr(c).Some? { PlainUntouched(c); }
      if lib.parsePrefix(c).Some? {
        CanonicalPrefixTwice(lib.parsePrefix(c).value);
        PrefixTextCanonical(lib, CanonicalPrefix(lib.parsePrefix(c).value));
      }
    }
  }

  lemma CanonicalHit(lib: Lib, c: string, ep: Endpoint, cache: DnsCache)
    requires Canonical(lib, c)
    ensures TextHit(lib, c, ep, cache) <==> HostHit(lib, Classify(lib, c), ep, cache)
  {
  }

  /** Whatever the subsumed text matches, the subsuming one matches. */
  lemma HostSubsumesSound(lib: Lib, a: string, b: string, ep: Endpoint, cache: DnsCache)
    requires LibOk(lib) && Canonical(lib, a) && Canonical(lib, b)
    requires HostSubsumes(lib, a, b) && TextHit(lib, b, ep, cache)
    ensures TextHit(lib, a, ep, cache)
  {
    CanonicalHit(lib, a, ep, cache);
    CanonicalHit(lib, b, ep, cache);
    if a != b {
      CanonicalShape(lib, a);
      CanonicalShape(lib, b);
      hide Canonical, Classify, LibOk, TextHit;
      match Classify(lib, a)
      case Address(_) =>
      case Net(p) =>
        if Classify(lib, b).Net? {
          PrefixInPrefix(p, Classify(lib, b).prefix, ep.addr);
        }
      case Pattern(_) => LiteralPattern(lib, a, b, ep, cache);
    }
  }

  /** A literal matched by a pattern matches only what the pattern matches. */
  lemma LiteralPattern(lib: Lib, a: string, b: string, ep: Endpoint, cache: DnsCache)
    requires LibOk(lib) && !HasMeta(b) && SafeEscapes(b) && lib.glob(a, b)
    requires PatternHit(lib, b, ep, cache)
    ensures PatternHit(lib, a, ep, cache)
  {
    match ep
    case Name(n) => LiteralName(lib, a, b, n);
    case Ip(x) =>
      var i :| 0 <= i < |CachedNames(cache, x)| && NameHit(lib, b, CachedNames(cache, x)[i]);
      LiteralName(lib, a, b, CachedNames(cache, x)[i]);
  }

  lemma LiteralName(lib: Lib, a: string, b: string, n: string)
    requires LibOk(lib) && !HasMeta(b) && SafeEscapes(b) && lib.glob(a, b) && NameHit(lib, b, n)
    ensures NameHit(lib, a, n)
  {
    if '\\' in b {
      NormFirst(n);
      assert false;
    }
    LiteralOnly(b, Norm(n));
  }

  lemma NormFirst(raw: string)
    ensures Norm(raw) != "" ==> !IsSpace(Norm(raw)[0])
  {
    var s := Lower(raw);
    TrimLeftDone(s, IsSpace);
    TrimRightFirst(TrimLeft(s, IsSpace), IsSpace);
    TrimRightFirst(TrimSpace(s), c => c == '.');
  }

  /** How general a canonical text is; smaller is more general. */
  function Rank(lib: Lib, c: string): nat {
    if lib.parseAddr(c).Some? then 129
    else if lib.parsePrefix(c).Some? then lib.parsePrefix(c).value.len
    else if HasMeta(c) then 0
    else 1
  }

  /** Two different canonical texts never subsume each other. */
  lemma SubsumptionIsStrict(lib: Lib, a: string, b: string)
    requires LibOk(lib) && Canonical(lib, a) && Canonical(lib, b) && a != b && HostSubsumes(lib, a, b)
    ensures Rank(lib, a) < Rank(lib, b)
  {
    CanonicalShape(lib, a);
    CanonicalShape(lib, b);
    match Classify(lib, a)
    case Address(_) =>
    case Net(p) =>
      if Classify(lib, b).Net? && Classify(lib, b).prefix.len == p.len {
        var q := Classify(lib, b).prefix;
        CanonicalIsMasked(p);
        CanonicalIsMasked(q);
        MaskedEqual(p, q);
        assert false;
      }
    case Pattern(_) => LiteralsDiffer(lib, a, b);
  }

  /** One literal never covers another. */
  lemma LiteralsDiffer(lib: Lib, a: string, b: string)
    requires LibOk(lib) && SafeEscapes(a) && Norm(b) == b && a != b && lib.glob(a, b)
    ensures HasMeta(a)
  {
    if !HasMeta(a) {
      if '\\' in a { NormFirst(b); } else { LiteralOnly(a, b); }
      assert false;
    }
  }

  lemma CanonicalIsMasked(p: Prefix)
    requires ValidPrefix(p) && CanonicalPrefix(p) == p
    ensures Masked(p) == p
  {
    MaskedTwice(p);
  }

  // ---------------------------------------------------------------- canonical lists

  /** No other text of the collection covers h. */
  predicate Keeps(lib: Lib, hosts: set<string>, h: string) {
    forall g | g in hosts && g != h :: !HostSubsumes(lib, g, h)
  }

  /** The result form of canonicalFirewallHosts. */
  ghost predicate CanonicalList(lib: Lib, hosts: seq<string>) {
    && Sorted(hosts)
    && (forall h | h in hosts :: Canonical(lib, h))
    && (forall h | h in hosts :: Keeps(lib, Texts(hosts), h))
  }

  /** Every text is covered by one that is kept. */
  lemma KeptCovers(lib: Lib, hosts: set<string>, h: string) returns (g: string)
    requires LibOk(lib) && (forall x | x in hosts :: Canonical(lib, x)) && h in hosts
    ensures g in hosts && Keeps(lib, hosts, g)
    ensures forall ep: Endpoint, cache: DnsCache :: TextHit(lib, h, ep, cache) ==> TextHit(lib, g, ep, cache)
    decreases Rank(lib, h)
  {
    hide Canonical, TextHit, HostSubsumes, LibOk;
    if Keeps(lib, hosts, h) {
      g := h;
    } else {
      var k :| k in hosts && k != h && HostSubsumes(lib, k, h);
      SubsumptionIsStrict(lib, k, h);
      g := KeptCovers(lib, hosts, k);
      forall ep: Endpoint, cache: DnsCache | TextHit(lib, h, ep, cache) ensures TextHit(lib, g, ep, cache) {
        HostSubsumesSound(lib, k, h, ep, cache);
      }
    }
  }

  /** removeSubsumedFirewallHosts on a sorted list. */
  method RemoveSubsumedHosts(lib: Lib, hosts: seq<string>) returns (out: seq<string>)
    requires Sorted(hosts)
    ensures Sorted(out)
    ensures forall h: string :: h in out <==> h in hosts && Keeps(lib, Texts(hosts), h)
  {
    hide HostSubsumes, Less;
    out := [];
    ghost var taken: seq<nat> := [];
    for i := 0 to |hosts|
      invariant |taken| == |out|
      invariant forall k | 0 <= k < |taken| :: taken[k] < i && out[k] == hosts[taken[k]]
      invariant forall k, m | 0 <= k < m < |taken| :: taken[k] < taken[m]
      invariant forall h: string :: h in out <==> exists j | 0 <= j < i :: hosts[j] == h && Keeps(lib, Texts(hosts), h)
    {
      var subsumed := false;
      for j := 0 to |hosts|
        invariant subsumed <==> exists k | 0 <= k < j :: k != i && HostSubsumes(lib, hosts[k], hosts[i])
      {
        if i != j && HostSubsumes(lib, hosts[j], hosts[i]) {
          subsumed := true;
        }
      }
      DistinctEntries(hosts, i);
      assert subsumed <==> !Keeps(lib, Texts(hosts), hosts[i]) by {
        KeepsByIndex(lib, hosts, i);
      }
      if !subsumed {
        out := out + [hosts[i]];
        taken := taken + [i];
      }
    }
  }

  lemma DistinctEntries(hosts: seq<string>, i: nat)
    requires Sorted(hosts) && i < |hosts|
    ensures forall j | 0 <= j < |hosts| && j != i :: hosts[j] != hosts[i]
  {
    LessIrreflexive(hosts[i]);
  }

  lemma KeepsByIndex(lib: Lib, hosts: seq<string>, i: nat)
    requires i < |hosts| && forall j | 0 <= j < |hosts| && j != i :: hosts[j] != hosts[i]
    ensures Keeps(lib, Texts(hosts), hosts[i]) <==>
            !exists k | 0 <= k < |hosts| :: k != i && HostSubsumes(lib, hosts[k], hosts[i])
  {
    hide HostSubsumes;
    if Keeps(lib, Texts(hosts), hosts[i]) {
      forall k | 0 <= k < |hosts| && k != i ensures !HostSubsumes(lib, hosts[k], hosts[i]) {
        assert hosts[k] in Texts(hosts);
      }
    }
    if !exists k | 0 <= k < |hosts| :: k != i && HostSubsumes(lib, hosts[k], hosts[i]) {
      forall g | g in Texts(hosts) && g != hosts[i] ensures !HostSubsumes(lib, g, hosts[i]) {
        var k :| 0 <= k < |hosts| && hosts[k] == g;
      }
    }
  }

  /** The canonical texts of the first n entries. */
  function CanonicalSet(lib: Lib, hosts: seq<string>, n: nat): set<string>
    requires n <= |hosts|
  {
    if n == 0 then {}
    else
      var c := CanonicalText(lib, Norm(hosts[n - 1]));
      CanonicalSet(lib, hosts, n - 1) + (if c.Some? then {c.value} else {})
  }

  /** slices.Sort on the keys of the set. */
  method SortTexts(texts: set<string>) returns (sorted: seq<string>)
    ensures Sorted(sorted) && Texts(sorted) == texts
  {
    sorted := [];
    var rest := texts;
    while rest != {}
      invariant Sorted(sorted) && rest <= texts && Texts(sorted) == texts - rest
      decreases rest
    {
      var x :| x in rest;
      InsertSorted(x, sorted);
      InsertTexts(x, sorted);
      sorted := Insert(x, sorted);
      rest := rest - {x};
    }
  }

  /** canonicalFirewallHosts. On clean lists the result selects the same endpoints, is canonical,
      and is the list itself when that was canonical already. */
  method CanonicalFirewallHosts(lib: Lib, hosts: seq<string>) returns (list: seq<string>, any: bool)
    requires LibOk(lib) && CleanHosts(lib, hosts)
    ensures any <==> AnyHost(hosts)
    ensures any ==> list == []
    ensures !any ==> CanonicalList(lib, list)
    ensures !any ==> forall ep: Endpoint, cache: DnsCache ::
              (list != [] && HostsMatch(lib, list, ep, cache)) <==> HostsMatch(lib, hosts, ep, cache)
    ensures !any ==> (list == [] <==> CanonicalSet(lib, hosts, |hosts|) == {})
    ensures hosts != [] && CanonicalList(lib, hosts) ==> !any && list == hosts
  {
    hide LibOk, HostsMatch, CanonicalText, Norm, Clean, HostSubsumes;
    if |hosts| == 0 {
      return [], true;
    }
    var unique: set<string> := {};
    for i := 0 to |hosts|
      invariant forall j | 0 <= j < i :: Norm(hosts[j]) != "*"
      invariant unique == CanonicalSet(lib, hosts, i)
    {
      var t := Norm(hosts[i]);
      if t == "*" {
        StarNotCanonical(lib, hosts, i);
        return [], true;
      }
      var c := CanonicalText(lib, t);
      if c.Some? {
        unique := unique + {c.value};
      }
    }
    var sorted := SortTexts(unique);
    list := RemoveSubsumedHosts(lib, sorted);
    any := false;
    CanonicalSetMeaning(lib, hosts, |hosts|);
    KeptList(lib, sorted, list);
    SelectsTheSame(lib, hosts, unique, list);
    assert list != [] ==> list[0] in unique;
    if unique != {} {
      var c :| c in unique;
      var g := KeptCovers(lib, unique, c);
      assert g in list;
    }
    if CanonicalList(lib, hosts) {
      AlreadyCanonical(lib, hosts, sorted, list);
    }
  }

  lemma StarNotCanonical(lib: Lib, hosts: seq<string>, i: nat)
    requires i < |hosts| && Norm(hosts[i]) == "*"
    ensures !CanonicalList(lib, hosts)
  {
    assert !Canonical(lib, hosts[i]);
    assert hosts[i] in hosts;
  }

  /** The set holds canonical texts only, and hits exactly what the entries hit. */
  lemma {:induction false} CanonicalSetMeaning(lib: Lib, hosts: seq<string>, n: nat)
    requires LibOk(lib) && CleanHosts(lib, hosts) && n <= |hosts|
    requires forall j | 0 <= j < n :: Norm(hosts[j]) != "*"
    ensures forall c | c in CanonicalSet(lib, hosts, n) :: Canonical(lib, c)
    ensures forall ep: Endpoint, cache: DnsCache ::
              FirstHit(lib, hosts, n, ep, cache) <==> exists c | c in CanonicalSet(lib, hosts, n) :: TextHit(lib, c, ep, cache)
  {
    hide LibOk, CanonicalText, Clean, TextHit, Canonical;
    if n > 0 {
      CanonicalSetMeaning(lib, hosts, n - 1);
      var h := hosts[n - 1];
      assert Clean(lib, h);
      CanonicalTextMeaning(lib, h);
      var c := CanonicalText(lib, Norm(h));
      var before, after := CanonicalSet(lib, hosts, n - 1), CanonicalSet(lib, hosts, n);
      forall ep: Endpoint, cache: DnsCache
        ensures FirstHit(lib, hosts, n, ep, cache) <==> exists x | x in after :: TextHit(lib, x, ep, cache)
      {
        assert FirstHit(lib, hosts, n, ep, cache) <==> FirstHit(lib, hosts, n - 1, ep, cache) || TextHit(lib, h, ep, cache);
        if c.Some? {
          assert forall x: string :: x in after <==> x in before || x == c.value;
        } else {
          assert after == before;
        }
      }
    }
  }

  lemma KeptList(lib: Lib, sorted: seq<string>, list: seq<string>)
    requires Sorted(list) && forall c | c in sorted :: Canonical(lib, c)
    requires forall h: string :: h in list <==> h in sorted && Keeps(lib, Texts(sorted), h)
    ensures CanonicalList(lib, list)
  {
    hide Canonical, HostSubsumes;
    forall h | h in list ensures Keeps(lib, Texts(list), h) {
      assert Texts(list) <= Texts(sorted);
    }
  }

  lemma SelectsTheSame(lib: Lib, hosts: seq<string>, unique: set<string>, list: seq<string>)
    requires LibOk(lib) && hosts != [] && forall c | c in unique :: Canonical(lib, c)
    requires forall h: string :: h in list <==> h in unique && Keeps(lib, unique, h)
    requires forall ep: Endpoint, cache: DnsCache ::
               FirstHit(lib, hosts, |hosts|, ep, cache) <==> exists c | c in unique :: TextHit(lib, c, ep, cache)
    ensures forall ep: Endpoint, cache: DnsCache ::
              (list != [] && HostsMatch(lib, list, ep, cache)) <==> HostsMatch(lib, hosts, ep, cache)
  {
    hide LibOk, Canonical, TextHit, Keeps;
    forall ep: Endpoint, cache: DnsCache
      ensures (list != [] && HostsMatch(lib, list, ep, cache)) <==> HostsMatch(lib, hosts, ep, cache)
    {
      assert HostsMatch(lib, hosts, ep, cache) <==> FirstHit(lib, hosts, |hosts|, ep, cache);
      if HostsMatch(lib, hosts, ep, cache) {
        var c :| c in unique && TextHit(lib, c, ep, cache);
        var g := KeptCovers(lib, unique, c);
        assert g in list;
        var i :| 0 <= i < |list| && list[i] == g;
        assert TextHit(lib, list[i], ep, cache);
      }
      if list != [] && HostsMatch(lib, list, ep, cache) {
        var i :| 0 <= i < |list| && TextHit(lib, list[i], ep, cache);
        assert list[i] in unique;
      }
    }
  }

  lemma AlreadyCanonical(lib: Lib, hosts: seq<string>, sorted: seq<string>, list: seq<string>)
    requires CanonicalList(lib, hosts) && Sorted(sorted) && Sorted(list)
    requires Texts(sorted) == CanonicalSet(lib, hosts, |hosts|)
    requires forall h: string :: h in list <==> h in sorted && Keeps(lib, Texts(sorted), h)
    ensures list == hosts
  {
    CanonicalSetOfCanonical(lib, hosts, |hosts|);
    hide Canonical, HostSubsumes, Less;
    assert hosts[..|hosts|] == hosts;
    assert Texts(list) == Texts(hosts);
    SortedUnique(list, hosts);
  }

  lemma {:induction false} CanonicalSetOfCanonical(lib: Lib, hosts: seq<string>, n: nat)
    requires n <= |hosts| && forall h | h in hosts :: Canonical(lib, h)
    ensures CanonicalSet(lib, hosts, n) == Texts(hosts[..n])
  {
    if n > 0 {
      CanonicalSetOfCanonical(lib, hosts, n - 1);
      CanonicalFixed(lib, hosts[n - 1]);
      hide Canonical, CanonicalText, Norm, Texts;
      TextsOfMore(hosts, n);
    } else {
      assert hosts[..0] == [];
    }
  }

  lemma CanonicalFixed(lib: Lib, h: string)
    requires Canonical(lib, h)
    ensures CanonicalText(lib, Norm(h)) == Some(h)
  {
  }

  // ---------------------------------------------------------------- rule-level tests

  /** firewallHostsSubsumes. */
  predicate HostsSubsume(lib: Lib, a: seq<string>, b: seq<string>) {
    || a == []
    || (b != [] && forall h | h in b :: exists g | g in a :: HostSubsumes(lib, g, h))
  }

  lemma HostsSubsumeSound(lib: Lib, a: seq<string>, b: seq<string>, ep: Endpoint, cache: DnsCache)
    requires LibOk(lib) && CanonicalList(lib, a) && CanonicalList(lib, b)
    requires HostsSubsume(lib, a, b) && HostsMatch(lib, b, ep, cache)
    ensures HostsMatch(lib, a, ep, cache)
  {
    hide LibOk, Canonical, TextHit, HostSubsumes;
    if a != [] {
      var i :| 0 <= i < |b| && TextHit(lib, b[i], ep, cache);
      assert b[i] in b;
      var g :| g in a && HostSubsumes(lib, g, b[i]);
      HostSubsumesSound(lib, g, b[i], ep, cache);
      var j :| 0 <= j < |a| && a[j] == g;
    }
  }

  lemma CanonicalListClean(lib: Lib, hosts: seq<string>)
    requires CanonicalList(lib, hosts)
    ensures CleanHosts(lib, hosts)
    ensures hosts != [] ==> !AnyHost(hosts)
  {
    forall i | 0 <= i < |hosts| ensures Clean(lib, hosts[i]) && Norm(hosts[i]) != "*" {
      assert hosts[i] in hosts;
      NormTwiceTrim(hosts[i]);
    }
  }

  lemma NormTwiceTrim(c: string)
    requires Norm(c) == c
    ensures TrimDot(c) == c
  {
    TrimDotLower(Lower(c)) by { LowerTwice(c); }
  }
}
