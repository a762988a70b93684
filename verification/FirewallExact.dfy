/** Exactly when the firewall optimiser treats one host entry as promised: rewriting it
    (canonicalFirewallHosts), dropping it as covered (firewallHostSubsumes), and both, so that a
    second pass finds nothing to do (firewall_config_optimize.go). */
module FirewallExact {
  import opened Basics
  import opened FirewallPatterns
  import opened FirewallText
  import opened FirewallHosts

  // ---------------------------------------------------------------- rewriting

  /** Rewriting the one-entry list [raw] keeps what it selects, for every query. */
  ghost predicate Faithful(lib: Lib, raw: string) {
    Norm(raw) == "*" ||
    match CanonicalText(lib, Norm(raw))
    case None => forall ep: Endpoint, cache: DnsCache :: !TextHit(lib, raw, ep, cache)
    case Some(c) => forall ep: Endpoint, cache: DnsCache :: TextHit(lib, c, ep, cache) <==> TextHit(lib, raw, ep, cache)
  }

  /** Addresses, with or without a zone; texts without '%' that trimming again leaves alone; and
      patterns that match no name, neither before nor after rewriting. */
  predicate KeepsMeaning(lib: Lib, t: string) {
    || lib.parseAddr(CutZone(TrimBrackets(t))).Some?
    || (TrimDot(t) == t && '%' !in t)
    || (NoName(t) && NoName(Norm(WithoutZone(t))))
  }

  /** For every entry without a character class, the rewriting is faithful if and only if the
      entry's text keeps its meaning in this sense. */
  lemma FaithfulIff(lib: Lib, raw: string)
    requires LibOk(lib) && '[' !in Norm(raw)
    ensures Faithful(lib, raw) <==> KeepsMeaning(lib, Norm(raw))
  {
    hide LibOk, CanonicalText, Classify, Faithful, TrimDot, NoName, PathMatches;
    var t := Norm(raw);
    if KeepsMeaning(lib, t) {
      if lib.parseAddr(CutZone(TrimBrackets(t))).Some? || (TrimDot(t) == t && '%' !in t) {
        StableFaithful(lib, raw);
      } else {
        UnnamedFaithful(lib, raw);
      }
    } else {
      UnstableUnfaithful(lib, raw);
    }
  }

  lemma StableFaithful(lib: Lib, raw: string)
    requires LibOk(lib)
    requires lib.parseAddr(CutZone(TrimBrackets(Norm(raw)))).Some? || (TrimDot(Norm(raw)) == Norm(raw) && '%' !in Norm(raw))
    ensures Faithful(lib, raw)
  {
    hide LibOk, CanonicalText, TextHit, Norm, CutZone, Trim;
    if lib.parseAddr(CutZone(TrimBrackets(Norm(raw)))).Some? {
      AddressMeaning(lib, raw);
    } else if Norm(raw) != "*" {
      StableMeaning(lib, raw);
    }
  }

  /** Neither the text nor its rewriting matches anything. */
  lemma UnnamedFaithful(lib: Lib, raw: string)
    requires LibOk(lib) && '[' !in Norm(raw) && NoName(Norm(raw)) && NoName(Norm(WithoutZone(Norm(raw))))
    requires lib.parseAddr(CutZone(TrimBrackets(Norm(raw)))).None?
    ensures Faithful(lib, raw)
  {
    NoNameHitsNothing(lib, Norm(raw));
    RewrittenUnnamed(lib, raw);
  }

  /** Characters of a text and of what it is rewritten to. */
  lemma RewrittenChars(raw: string)
    ensures var t := Norm(raw); var u := WithoutZone(t);
            && Lower(t) == t && Lower(u) == u && '%' !in u
            && (forall c | c in u :: c in t) && (forall c | c in Norm(u) :: c in u)
  {
    var t := Norm(raw);
    NormIsLower(raw);
    WithoutZoneChars(t);
    hide Norm, WithoutZone;
    LowerByChars(t);
    LowerByChars(WithoutZone(t));
    NormSubset(WithoutZone(t));
  }

  /** What is rewritten to a text without a name selects nothing afterwards. */
  lemma RewrittenUnnamed(lib: Lib, raw: string)
    requires LibOk(lib) && '[' !in Norm(raw) && NoName(Norm(WithoutZone(Norm(raw))))
    ensures var t := Norm(raw); var u := WithoutZone(t);
            && CanonicalText(lib, t) == (if t == "" || lib.badGlob(u) then None else Some(u))
            && forall ep: Endpoint, cache: DnsCache :: !TextHit(lib, u, ep, cache)
  {
    RewrittenChars(raw);
    var t := Norm(raw);
    var u := WithoutZone(t);
    UnnamedNotNumeric(lib, u);
    NoNameHitsNothing(lib, Norm(u));
    hide LibOk, Norm, WithoutZone, Classify, NoName;
  }

  /** Numbers are names of a kind: trimming cannot turn them into text that matches no name. */
  lemma UnnamedNotNumeric(lib: Lib, u: string)
    requires LibOk(lib) && Lower(u) == u && '%' !in u && NoName(Norm(u))
    ensures lib.parseAddr(TrimBrackets(u)).None? && lib.parsePrefix(u).None?
    ensures lib.parseAddr(CutZone(TrimBrackets(Norm(u)))).None?
  {
    var v := Norm(u);
    NormSubset(u);
    if v == "" {
      assert TrimBrackets(v) == "" && CutZone("") == "";
      PlainSurvives(u, TrimBrackets(u)) by { TrimKeepsSubset(u, IsBracket); }
      PlainSurvives(u, u);
    } else {
      if '\\' !in v { WellEscapedNone(v); }
      BackslashNotNumeric(lib, u);
      BackslashNotNumeric(lib, v);
      TrimKeeps(v, IsBracket, '%');
      CutZoneNone(TrimBrackets(v));
    }
  }

  lemma PlainSurvives(u: string, s: string)
    requires Lower(u) == u && Norm(u) == "" && forall c | c in s :: c in u
    ensures !Plain(s)
  {
    if Plain(s) {
      var c := s[|s| - 1];
      assert c in s;
      TrimKeeps(u, IsSpace, c);
      TrimRightKeeps(TrimSpace(u), d => d == '.', c);
      assert false;
    }
  }

  lemma NormIsLower(raw: string)
    ensures Lower(Norm(raw)) == Norm(raw)
  {
    LowerTwice(raw);
    TrimDotLower(Lower(raw));
  }

  lemma NormSubset(s: string)
    requires Lower(s) == s
    ensures forall c: char :: c in Norm(s) ==> c in s
  {
    TrimKeepsSubset(s, IsSpace);
    TrimRightSubset(TrimSpace(s), c => c == '.');
  }

  lemma NormEnds(raw: string)
    ensures Norm(raw) != "" ==> !IsSpace(Norm(raw)[0]) && Norm(raw)[|Norm(raw)| - 1] != '.'
  {
    NormFirst(raw);
    TrimRightDone(TrimSpace(Lower(raw)), c => c == '.');
  }

  // ---------------------------------------------------------------- queries that tell texts apart

  /** An address whose reverse name in the DNS cache is n. Names of connections are cut at '%' and
      lose brackets; names in the cache do not. */
  function Somewhere(): Addr {
    Addr(true, seq(32, _ => false))
  }

  function Knowing(n: string): DnsCache {
    map[Somewhere() := [n]]
  }

  lemma CachedHit(lib: Lib, raw: string, n: string)
    requires Norm(n) != ""
    ensures var h := Classify(lib, Norm(raw));
            && (h.Pattern? ==> (TextHit(lib, raw, Ip(Somewhere()), Knowing(n)) <==> lib.glob(h.text, Norm(n))))
            && (h.Nothing? ==> !TextHit(lib, raw, Ip(Somewhere()), Knowing(n)))
  {
    hide Norm, Classify;
    assert CachedNames(Knowing(n), Somewhere()) == [n];
    assert [n][0] == n;
  }

  /** With nothing in the cache a pattern matches no address. */
  lemma UncachedMiss(lib: Lib, raw: string, x: Addr)
    requires Classify(lib, Norm(raw)).Pattern?
    ensures !TextHit(lib, raw, Ip(x), map[])
  {
    hide Norm, Classify;
  }

  /** A name that a pattern matches. */
  lemma SampleName(lib: Lib, p: string)
    requires LibOk(lib) && '[' !in p && !NoName(p) && Lower(p) == p && !IsSpace(p[0]) && p[|p| - 1] != '.'
    ensures Sample(p) != "" && Norm(Sample(p) + ".") == Sample(p) && lib.glob(p, Sample(p))
  {
    hide Sample, Norm, PathMatches, WellEscaped, Lower, HasMeta;
    SampleEnds(p);
    SampleLower(p);
    SampleMatches(p);
    DottedNorm(Sample(p));
  }

  lemma DottedNorm(u: string)
    requires u != "" && Lower(u) == u && !IsSpace(u[0]) && u[|u| - 1] != '.'
    ensures Norm(u + ".") == u
  {
    var n := u + ".";
    LowerByChars(u);
    LowerByChars(n);
    hide Lower;
    assert TrimLeft(n, IsSpace) == n;
    assert TrimRight(n, IsSpace) == n;
    assert n[..|n| - 1] == u;
    assert TrimRight(n, c => c == '.') == TrimRight(u, c => c == '.') == u;
  }

  /** A pattern misses the sample of another that demands less. */
  lemma SampleMissed(lib: Lib, t: string, v: string, k: char)
    requires LibOk(lib) && '[' !in t && WellEscaped(v) && k != 'x' && Demands(t, k) > Demands(v, k)
    ensures !lib.glob(t, Sample(v))
  {
    SampleMeetsExactly(v, k);
    if PathMatches(t, Sample(v)) {
      DemandsAreMet(t, Sample(v), k);
      assert false;
    }
  }

  // ---------------------------------------------------------------- unfaithful rewriting

  /** Rewriting takes a demand away: the '%', or the space at the end. */
  lemma LessDemanded(t: string) returns (k: char)
    requires Lower(t) == t && t != "" && !IsSpace(t[0]) && t[|t| - 1] != '.'
    requires '%' in t || TrimDot(t) != t
    requires WellEscaped(t) && WellEscaped(Norm(WithoutZone(t)))
    ensures k != 'x' && Demands(t, k) > Demands(Norm(WithoutZone(t)), k)
  {
    var u := WithoutZone(t);
    var v := Norm(u);
    WithoutZoneChars(t);
    TrimKeeps(t, IsBracket, '%');
    if '%' in t {
      k := '%';
      LowerByChars(t);
      LowerByChars(u);
      NormSubset(u);
      SomeDemanded(t, k);
      NothingDemanded(v, k);
    } else {
      k := t[|t| - 1];
      SpaceAtEnd(t);
      NormPrefix(t);
      TrimmedDemand(t, v, k);
    }
  }

  lemma TrimmedDemand(t: string, v: string, k: char)
    requires t != "" && v < t && k == t[|t| - 1] && IsSpace(k) && WellEscaped(v)
    requires forall i | |v| <= i < |t| :: IsSpace(t[i]) || t[i] == '.'
    ensures Demands(t, k) > Demands(v, k)
  {
    hide WellEscaped, Demands;
    var q := t[|v|..];
    assert t == v + q;
    assert q[|q| - 1] == k;
    OrdinaryDemand(q, k);
    DemandsAdd(v, q, k);
  }

  lemma OrdinaryDemand(q: string, k: char)
    requires k in q && IsSpace(k) && forall i | 0 <= i < |q| :: IsSpace(q[i]) || q[i] == '.'
    ensures Demands(q, k) >= 1
  {
    assert '\\' !in q;
    WellEscapedNone(q);
    SomeDemanded(q, k);
  }

  lemma SpaceAtEnd(t: string)
    requires t != "" && !IsSpace(t[0]) && t[|t| - 1] != '.' && TrimDot(t) != t
    ensures IsSpace(t[|t| - 1])
  {
    if !IsSpace(t[|t| - 1]) {
      Untrimmed(t);
      assert false;
    }
  }

  /** Normalising lower-case text without leading space cuts it at the end only. */
  lemma NormPrefix(u: string)
    requires Lower(u) == u && u != "" && !IsSpace(u[0])
    ensures Norm(u) <= u && (TrimDot(u) != u ==> Norm(u) < u)
    ensures forall i | |Norm(u)| <= i < |u| :: IsSpace(u[i]) || u[i] == '.'
  {
    TrimRightPrefix(u, IsSpace);
    TrimRightPrefix(TrimSpace(u), c => c == '.');
  }

  /** Text with '%' that is no address, or with a space at the end, is compiled to a pattern. */
  lemma UnstableIsPattern(lib: Lib, t: string)
    requires LibOk(lib) && t != "" && lib.parseAddr(CutZone(TrimBrackets(t))).None?
    requires '%' in t || IsSpace(t[|t| - 1])
    ensures Classify(lib, t) == Pattern(t)
  {
    assert t[|t| - 1] in t;
    assert !Plain(t);
    assert |"*"| == 1 && "*"[0] == '*';
  }

  /** What the rewritten text is compiled to. */
  lemma RewrittenClass(lib: Lib, raw: string)
    requires LibOk(lib) && Norm(raw) != ""
    ensures var u := WithoutZone(Norm(raw)); var c := CanonicalText(lib, Norm(raw));
            && (c.None? ==> lib.badGlob(u))
            && (c.Some? ==>
                  var h := Classify(lib, Norm(c.value));
                  || (h.Address? && ValidAddr(h.addr))
                  || (h.Net? && ValidPrefix(h.prefix))
                  || (c == Some(u) && h == Classify(lib, Norm(u))))
  {
    var u := WithoutZone(Norm(raw));
    var a, p := lib.parseAddr(TrimBrackets(u)), lib.parsePrefix(u);
    if a.Some? {
      UnmapTwice(a.value);
      AddrTextCanonical(lib, Unmap(a.value));
    } else if p.Some? {
      CanonicalPrefixTwice(p.value);
      PrefixTextCanonical(lib, CanonicalPrefix(p.value));
    }
  }

  /** A malformed text stays malformed, or becomes empty. */
  lemma MalformedStays(u: string)
    requires Lower(u) == u && !WellEscaped(u)
    ensures NoName(Norm(u))
  {
    var l := TrimLeft(u, IsSpace);
    SpaceLeft(u);
    LastBackslash(l);
    assert Norm(u) == l;
  }

  lemma {:induction false} SpaceLeft(u: string)
    ensures WellEscaped(TrimLeft(u, IsSpace)) <==> WellEscaped(u)
    decreases |u|
  {
    if u != "" && IsSpace(u[0]) { SpaceLeft(u[1..]); }
  }

  /** A query that one of two texts matches. */
  lemma ToldApart(lib: Lib, raw: string, ep: Endpoint, cache: DnsCache)
    requires Norm(raw) != "*"
    requires match CanonicalText(lib, Norm(raw))
             case None => TextHit(lib, raw, ep, cache)
             case Some(c) => TextHit(lib, c, ep, cache) != TextHit(lib, raw, ep, cache)
    ensures !Faithful(lib, raw)
  {
    hide Norm, CanonicalText, TextHit;
  }

  /** Texts whose rewriting changes them. */
  ghost predicate Unstable(lib: Lib, raw: string) {
    var t := Norm(raw);
    && LibOk(lib) && '[' !in t && t != "" && t != "*" && Classify(lib, t) == Pattern(t)
    && Lower(t) == t && !IsSpace(t[0]) && t[|t| - 1] != '.'
    && lib.parseAddr(CutZone(TrimBrackets(t))).None?
    && ('%' in t || TrimDot(t) != t)
  }

  /** The rewritten text matches no name: a sample of the original tells. */
  lemma LostNames(lib: Lib, raw: string)
    requires Unstable(lib, raw) && !NoName(Norm(raw)) && NoName(Norm(WithoutZone(Norm(raw))))
    ensures !Faithful(lib, raw)
  {
    var t := Norm(raw);
    SampleName(lib, t);
    RewrittenUnnamed(lib, raw);
    hide LibOk, Norm, WithoutZone, Classify, CanonicalText, NoName, TextHit, Sample;
    var n := Sample(t) + ".";
    CachedHit(lib, raw, n);
    ToldApart(lib, raw, Ip(Somewhere()), Knowing(n));
  }

  /** The rewritten text selects addresses or everything: an address without a name tells. */
  lemma GainedAddresses(lib: Lib, raw: string)
    requires Unstable(lib, raw) && CanonicalText(lib, Norm(raw)).Some?
    requires var h := Classify(lib, Norm(CanonicalText(lib, Norm(raw)).value));
             h.Any? || h.Address? || (h.Net? && ValidPrefix(h.prefix))
    ensures !Faithful(lib, raw)
  {
    hide LibOk, Norm, Classify, CanonicalText;
    var c := CanonicalText(lib, Norm(raw)).value;
    var h := Classify(lib, Norm(c));
    var x := match h case Address(a) => a case Net(p) => p.addr case _ => Somewhere();
    UncachedMiss(lib, raw, x);
    ToldApart(lib, raw, Ip(x), map[]);
  }

  /** The rewritten text is a pattern: a sample of it tells, as the original demands more. */
  lemma GainedNames(lib: Lib, raw: string)
    requires Unstable(lib, raw)
    requires var u := WithoutZone(Norm(raw));
             CanonicalText(lib, Norm(raw)) == Some(u) && Classify(lib, Norm(u)) == Pattern(Norm(u)) && !NoName(Norm(u))
    ensures !Faithful(lib, raw)
  {
    var t := Norm(raw);
    var u := WithoutZone(t);
    var v := Norm(u);
    RewrittenChars(raw);
    NormEnds(u);
    NormIsLower(u);
    SampleName(lib, v);
    if NoName(t) {
      NoNameHitsNothing(lib, t);
    } else {
      var k := LessDemanded(t);
      SampleMissed(lib, t, v, k);
    }
    hide LibOk, Norm, WithoutZone, Classify, CanonicalText, Sample, TrimDot;
    var n := Sample(v) + ".";
    CachedHit(lib, raw, n);
    CachedHit(lib, u, n);
    ToldApart(lib, raw, Ip(Somewhere()), Knowing(n));
  }

  lemma UnstableShape(lib: Lib, raw: string)
    requires LibOk(lib) && '[' !in Norm(raw) && !KeepsMeaning(lib, Norm(raw))
    ensures Unstable(lib, raw)
  {
    var t := Norm(raw);
    RewrittenChars(raw);
    NormEnds(raw);
    UnstableText(t);
    hide Norm, WithoutZone, TrimDot, Classify, LibOk, NoName;
    if '%' !in t { SpaceAtEnd(t); }
    UnstableIsPattern(lib, t);
  }

  lemma UnstableText(t: string)
    requires '%' in t || TrimDot(t) != t
    ensures t != "" && t != "*"
  {
    assert TrimDot("") == "";
    assert TrimDot("*") == "*";
    assert "*"[0] != '%';
  }

  lemma UnnamedKeeps(lib: Lib, raw: string)
    requires !KeepsMeaning(lib, Norm(raw)) && NoName(Norm(WithoutZone(Norm(raw))))
    ensures !NoName(Norm(raw))
  {
  }

  /** Every other text without a class is rewritten to one that a query can tell from it. */
  lemma UnstableUnfaithful(lib: Lib, raw: string)
    requires LibOk(lib) && '[' !in Norm(raw) && !KeepsMeaning(lib, Norm(raw))
    ensures !Faithful(lib, raw)
  {
    var u := WithoutZone(Norm(raw));
    UnstableShape(lib, raw);
    RewrittenChars(raw);
    RewrittenClass(lib, raw);
    if !WellEscaped(u) { MalformedStays(u); }
    assert lib.badGlob(u) ==> NoName(Norm(u));
    hide LibOk, Unstable, Norm, WithoutZone, CanonicalText, NoName, WellEscaped, KeepsMeaning;
    if NoName(Norm(u)) {
      UnnamedKeeps(lib, raw);
      LostNames(lib, raw);
    } else {
      assert CanonicalText(lib, Norm(raw)).Some?;
      var h := Classify(lib, Norm(CanonicalText(lib, Norm(raw)).value));
      if h.Pattern? { GainedNames(lib, raw); } else { GainedAddresses(lib, raw); }
    }
  }

  /** A host entry "* ." is a name pattern; the optimised entry matches every endpoint. */
  lemma StarSpaceDotWidens(lib: Lib, ep: Endpoint, x: Addr)
    requires LibOk(lib)
    ensures CanonicalText(lib, Norm("* .")) == Some("* ")
    ensures TextHit(lib, "* ", ep, map[])
    ensures !TextHit(lib, "* .", Ip(x), map[])
  {
    hide Trim, TrimDot, CutZone, Norm, Lower, Unmap, CanonicalPrefix;
    NormStar();
    var t := "* ";
    assert t[0] == '*' && t[1] == ' ' && ' ' in t;
    assert '\\' !in t && '[' !in t && '%' !in t;
    WellEscapedNone(t);
    TrimKeeps(t, IsBracket, ' ');
    TrimKeeps(t, IsBracket, '%');
    CutZoneNone(TrimBrackets(t));
    assert !Plain(TrimBrackets(t)) && !Plain(t);
    assert |t| != |"*"|;
  }

  lemma NormStar()
    ensures Norm("* .") == "* " && Norm("* ") == "*"
  {
    assert Lower("* .") == "* ." && Lower("* ") == "* ";
    assert "* ."[..2] == "* " && "* "[..1] == "*";
    assert TrimRight("* .", IsSpace) == "* .";
    assert TrimRight("* ", c => c == '.') == "* ";
    assert TrimRight("* .", c => c == '.') == "* ";
    assert TrimRight("*", IsSpace) == "*" && TrimRight("* ", IsSpace) == "*";
  }

  // ---------------------------------------------------------------- dropping

  /** Dropping b because some canonical text covers it never loses a query. */
  ghost predicate DroppingIsSound(lib: Lib, b: string) {
    forall a: string, ep: Endpoint, cache: DnsCache ::
      Canonical(lib, a) && HostSubsumes(lib, a, b) && TextHit(lib, b, ep, cache) ==> TextHit(lib, a, ep, cache)
  }

  /** A second pass leaves the text alone. */
  predicate Settled(lib: Lib, c: string) {
    Norm(c) == c && c != "*" && CanonicalText(lib, c) == Some(c)
  }

  /** b with a '?' for each backslash. */
  function Masking(b: string): (a: string)
    ensures |a| == |b| && forall i | 0 <= i < |b| :: a[i] == if b[i] == '\\' then '?' else b[i]
  {
    seq(|b|, i requires 0 <= i < |b| => if b[i] == '\\' then '?' else b[i])
  }

  /** "Covered by" is decided on the text of an entry and not on the names it matches. Of the texts
      that a second pass leaves alone, exactly those can be dropped soundly whose backslashes are
      safe: there is none, or the text is a pattern and so never covered by another, or it starts
      with an escaped space and so matches no name. */
  lemma DroppingIsSoundIff(lib: Lib, b: string)
    requires LibOk(lib) && Settled(lib, b) && '%' !in b
    ensures DroppingIsSound(lib, b) <==> SafeEscapes(b)
  {
    hide LibOk, Settled, DroppingIsSound, SafeEscapes;
    if SafeEscapes(b) { SafeToDrop(lib, b); } else { UnsafeToDrop(lib, b); }
  }

  lemma SafeToDrop(lib: Lib, b: string)
    requires LibOk(lib) && Settled(lib, b) && '%' !in b && SafeEscapes(b)
    ensures Canonical(lib, b) && DroppingIsSound(lib, b)
  {
    assert Canonical(lib, b);
    hide LibOk, Canonical, Settled, HostSubsumes, TextHit, SafeEscapes;
    forall a: string, ep: Endpoint, cache: DnsCache | Canonical(lib, a) && HostSubsumes(lib, a, b) && TextHit(lib, b, ep, cache)
      ensures TextHit(lib, a, ep, cache)
    {
      HostSubsumesSound(lib, a, b, ep, cache);
    }
  }

  /** The masked text covers the literal but not the name that the literal stands for. */
  lemma UnsafeToDrop(lib: Lib, b: string)
    requires LibOk(lib) && Settled(lib, b) && '%' !in b && !SafeEscapes(b)
    ensures !DroppingIsSound(lib, b)
  {
    MaskingIsCanonical(lib, b);
    MaskingCovers(lib, b);
    MaskingMisses(lib, b);
    hide LibOk, Canonical, Settled, HostSubsumes, TextHit, SafeEscapes, Masking;
    assert Canonical(lib, Masking(b));
  }

  /** A settled text with a backslash is a well-formed name pattern. */
  lemma BackslashPattern(lib: Lib, b: string)
    requires LibOk(lib) && Settled(lib, b) && '%' !in b && '\\' in b
    ensures Classify(lib, b) == Pattern(b) && !lib.badGlob(b) && b != ""
    ensures lib.parseAddr(b).None? && lib.parsePrefix(b).None?
  {
    BackslashNotNumeric(lib, b);
    TrimKeeps(b, IsBracket, '%');
    CutZoneNone(TrimBrackets(b));
  }

  lemma MaskingShape(b: string)
    requires Norm(b) == b && b != "" && '\\' in b && !HasMeta(b) && '%' !in b
    ensures var a := Masking(b);
            Norm(a) == a && '?' in a && '*' !in a && '[' !in a && '\\' !in a && '%' !in a && a != "*" && a != b
  {
    var a := Masking(b);
    var k :| 0 <= k < |b| && b[k] == '\\';
    assert a[k] == '?';
    forall c: char | c in a ensures c == '?' || c in b {
      var i :| 0 <= i < |a| && a[i] == c;
    }
    assert "*"[0] == '*' && '*' in "*";
    NormIsLower(b);
    LowerByChars(b);
    LowerByChars(a);
    NormFirst(b);
    NormLast(b);
    Untrimmed(a);
  }

  lemma NormLast(b: string)
    requires Norm(b) == b && b != ""
    ensures !IsSpace(b[|b| - 1]) && b[|b| - 1] != '.'
  {
    NormTwiceTrim(b);
    var l := TrimLeft(b, IsSpace);
    TrimRightDone(l, IsSpace);
    TrimRightDone(TrimSpace(b), c => c == '.');
    assert TrimDot(b) == b;
    TrimLeftShort(b, IsSpace);
    TrimRightShort(l, IsSpace);
    TrimRightShort(TrimSpace(b), c => c == '.');
  }

  lemma MaskingIsCanonical(lib: Lib, b: string)
    requires LibOk(lib) && Settled(lib, b) && '%' !in b && !SafeEscapes(b)
    ensures Canonical(lib, Masking(b)) && Classify(lib, Masking(b)) == Pattern(Masking(b))
    ensures lib.parseAddr(Masking(b)).None? && lib.parsePrefix(Masking(b)).None?
  {
    var a := Masking(b);
    MaskingShape(b);
    hide Norm, Masking;
    WellEscapedNone(a);
    TrimKeeps(a, IsBracket, '?');
    TrimKeeps(a, IsBracket, '%');
    CutZoneNone(TrimBrackets(a));
    assert !Plain(a) && !Plain(TrimBrackets(a));
  }

  lemma MaskingCovers(lib: Lib, b: string)
    requires LibOk(lib) && Settled(lib, b) && '%' !in b && !SafeEscapes(b)
    ensures HostSubsumes(lib, Masking(b), b)
  {
    var a := Masking(b);
    MaskingShape(b);
    BackslashPattern(lib, b);
    MaskingIsCanonical(lib, b);
    QueriesMatch(a, b);
    hide Norm, Masking, PathMatches;
    WellEscapedNone(a);
  }

  /** The literal matches its unescaped text, which is too short for the masking pattern. */
  lemma MaskingMisses(lib: Lib, b: string)
    requires LibOk(lib) && Settled(lib, b) && '%' !in b && !SafeEscapes(b)
    ensures var n := Sample(b) + ".";
            TextHit(lib, b, Ip(Somewhere()), Knowing(n)) && !TextHit(lib, Masking(b), Ip(Somewhere()), Knowing(n))
  {
    MaskingIsCanonical(lib, b);
    LiteralSampled(lib, b);
    TooShort(lib, b);
    hide LibOk, Norm, Masking, Sample, Classify, CanonicalText, TextHit, SafeEscapes, WellEscaped;
    CachedHit(lib, b, Sample(b) + ".");
    CachedHit(lib, Masking(b), Sample(b) + ".");
  }

  lemma LiteralSampled(lib: Lib, b: string)
    requires LibOk(lib) && Settled(lib, b) && '%' !in b && !SafeEscapes(b)
    ensures WellEscaped(b) && Classify(lib, b) == Pattern(b)
    ensures Sample(b) != "" && Norm(Sample(b) + ".") == Sample(b) && lib.glob(b, Sample(b))
  {
    BackslashPattern(lib, b);
    NormIsLower(b);
    NormEnds(b);
    hide Norm, Sample, Classify, CanonicalText, PathMatches;
    SampleName(lib, b);
  }

  lemma TooShort(lib: Lib, b: string)
    requires LibOk(lib) && Norm(b) == b && b != "" && '\\' in b && !HasMeta(b) && '%' !in b && WellEscaped(b)
    ensures !lib.glob(Masking(b), Sample(b))
  {
    MaskingShape(b);
    SampleShorter(b);
    hide Norm, Masking, Sample;
    if PathMatches(Masking(b), Sample(b)) {
      SameLength(Masking(b), Sample(b));
      assert false;
    }
  }

  /** The smallest instance: "a?b" is taken to cover "a\\b", which matches the name ab. */
  lemma BackslashSubsumptionUnsound(lib: Lib)
    requires LibOk(lib)
    ensures Settled(lib, "a\\b") && !DroppingIsSound(lib, "a\\b")
  {
    var b := "a\\b";
    assert b[1] == '\\' && '\\' in b;
    assert !HasMeta(b) && '%' !in b;
    assert Norm(b) == b by {
      assert Lower(b) == b;
      Untrimmed(b);
    }
    BackslashNotNumeric(lib, b);
    assert TrimBrackets(b) == b;
    assert WellEscaped(b) by { assert b[1..] == "\\b" && b[1..][2..] == ""; }
    assert |b| != |"*"|;
    DroppingIsSoundIff(lib, b);
  }

  // ---------------------------------------------------------------- coverage is complete

  /** Whatever b matches, a matches. */
  ghost predicate Covers(lib: Lib, a: string, b: string) {
    forall ep: Endpoint, cache: DnsCache :: TextHit(lib, b, ep, cache) ==> TextHit(lib, a, ep, cache)
  }

  /** An address, and the prefix of full length that holds just this address. */
  predicate WholeAddress(lib: Lib, a: string, b: string) {
    var h, g := Classify(lib, a), Classify(lib, b);
    h.Address? && g.Net? && g.prefix.addr == h.addr && g.prefix.len == Width(h.addr.v4)
  }

  /** Of canonical texts without pattern characters and escapes, exactly the covered ones are found to be
      covered, except that an address is not seen to cover its own prefix of full length. */
  lemma HostSubsumesIff(lib: Lib, a: string, b: string)
    requires LibOk(lib) && Canonical(lib, a) && Canonical(lib, b) && !HasMeta(b) && '\\' !in b
    ensures Covers(lib, a, b) <==> HostSubsumes(lib, a, b) || WholeAddress(lib, a, b)
  {
    hide LibOk, Canonical, HostSubsumes, WholeAddress, Covers;
    if HostSubsumes(lib, a, b) {
      SubsumedIsCovered(lib, a, b);
    } else if WholeAddress(lib, a, b) {
      WholeIsCovered(lib, a, b);
    } else if Covers(lib, a, b) {
      CoveredIsSubsumed(lib, a, b);
    }
  }

  lemma SubsumedIsCovered(lib: Lib, a: string, b: string)
    requires LibOk(lib) && Canonical(lib, a) && Canonical(lib, b) && HostSubsumes(lib, a, b)
    ensures Covers(lib, a, b)
  {
    hide LibOk, Canonical, HostSubsumes, TextHit;
    forall ep: Endpoint, cache: DnsCache | TextHit(lib, b, ep, cache) ensures TextHit(lib, a, ep, cache) {
      HostSubsumesSound(lib, a, b, ep, cache);
    }
  }

  lemma WholeIsCovered(lib: Lib, a: string, b: string)
    requires LibOk(lib) && Canonical(lib, a) && Canonical(lib, b) && WholeAddress(lib, a, b)
    ensures Covers(lib, a, b)
  {
    CanonicalShape(lib, a);
    CanonicalShape(lib, b);
    hide LibOk, Canonical, TextHit, Classify;
    forall ep: Endpoint, cache: DnsCache | TextHit(lib, b, ep, cache) ensures TextHit(lib, a, ep, cache) {
      WholeIsHit(lib, a, b, ep, cache);
    }
  }

  lemma WholeIsHit(lib: Lib, a: string, b: string, ep: Endpoint, cache: DnsCache)
    requires LibOk(lib) && Canonical(lib, a) && Canonical(lib, b) && WholeAddress(lib, a, b)
    requires ValidAddr(Classify(lib, a).addr) && TextHit(lib, b, ep, cache)
    ensures TextHit(lib, a, ep, cache)
  {
    hide LibOk, Canonical, TextHit, Classify;
    var x := Classify(lib, a).addr;
    CanonicalHit(lib, a, ep, cache);
    CanonicalHit(lib, b, ep, cache);
    assert ep.addr.bits == ep.addr.bits[..Width(x.v4)] && x.bits == x.bits[..Width(x.v4)];
  }

  lemma CoveredIsSubsumed(lib: Lib, a: string, b: string)
    requires LibOk(lib) && Canonical(lib, a) && Canonical(lib, b) && !HasMeta(b) && '\\' !in b && Covers(lib, a, b)
    ensures HostSubsumes(lib, a, b) || WholeAddress(lib, a, b)
  {
    CanonicalShape(lib, a);
    CanonicalShape(lib, b);
    hide LibOk, Canonical, HostSubsumes, WholeAddress, Covers, TextHit;
    match Classify(lib, b)
    case Address(x) => CoveredAddress(lib, a, b, x);
    case Net(q) => CoveredNet(lib, a, b, q);
    case Pattern(_) => CoveredLiteral(lib, a, b);
  }

  lemma CoveredAt(lib: Lib, a: string, b: string, ep: Endpoint, cache: DnsCache)
    requires Canonical(lib, a) && Canonical(lib, b) && Covers(lib, a, b)
    ensures HostHit(lib, Classify(lib, b), ep, cache) ==> HostHit(lib, Classify(lib, a), ep, cache)
  {
    CanonicalHit(lib, a, ep, cache);
    CanonicalHit(lib, b, ep, cache);
    hide Canonical, TextHit, Classify, HostHit;
  }

  lemma CoveredAddress(lib: Lib, a: string, b: string, x: Addr)
    requires LibOk(lib) && Canonical(lib, a) && Canonical(lib, b) && Covers(lib, a, b)
    requires Classify(lib, b) == Address(x)
    ensures HostSubsumes(lib, a, b)
  {
    CoveredAt(lib, a, b, Ip(x), map[]);
    CanonicalShape(lib, a);
    CanonicalShape(lib, b);
    hide LibOk, Canonical, Classify, Covers;
    assert Classify(lib, a).Pattern? ==> !HostHit(lib, Classify(lib, a), Ip(x), map[]);
  }

  /** The address of a prefix, with the first bit behind the prefix flipped. */
  function Neighbour(q: Prefix): Addr
    requires ValidPrefix(q) && q.len < Width(q.addr.v4)
  {
    Addr(q.addr.v4, q.addr.bits[q.len := !q.addr.bits[q.len]])
  }

  lemma NeighbourIn(q: Prefix, p: Prefix)
    requires ValidPrefix(q) && ValidPrefix(p) && q.len < Width(q.addr.v4)
    ensures Contains(q, Neighbour(q)) && Contains(q, q.addr) && Neighbour(q) != q.addr
    ensures Contains(p, Neighbour(q)) && Contains(p, q.addr) ==> p.len <= q.len
  {
    var n := Neighbour(q);
    assert n.bits[q.len] != q.addr.bits[q.len];
    assert n.bits[..q.len] == q.addr.bits[..q.len];
    if p.len > q.len && Contains(p, q.addr) {
      assert n.bits[..p.len][q.len] == n.bits[q.len] && q.addr.bits[..p.len][q.len] == q.addr.bits[q.len];
    }
  }

  lemma CoveredNet(lib: Lib, a: string, b: string, q: Prefix)
    requires LibOk(lib) && Canonical(lib, a) && Canonical(lib, b) && Covers(lib, a, b)
    requires Classify(lib, b) == Net(q)
    ensures HostSubsumes(lib, a, b) || WholeAddress(lib, a, b)
  {
    CanonicalShape(lib, a);
    CanonicalShape(lib, b);
    CoveredAt(lib, a, b, Ip(q.addr), map[]);
    var h := Classify(lib, a);
    if q.len < Width(q.addr.v4) {
      CoveredAt(lib, a, b, Ip(Neighbour(q)), map[]);
      NeighbourIn(q, if h.Net? then h.prefix else q);
    }
    hide LibOk, Canonical, Classify, Covers, Neighbour;
    assert h.Pattern? ==> !HostHit(lib, h, Ip(q.addr), map[]);
  }

  /** Addresses of both families under one name. */
  function Elsewhere(): Addr {
    Addr(false, seq(128, _ => false))
  }

  lemma CoveredLiteral(lib: Lib, a: string, b: string)
    requires LibOk(lib) && Canonical(lib, a) && Canonical(lib, b) && Covers(lib, a, b) && !HasMeta(b) && '\\' !in b
    requires Classify(lib, b) == Pattern(b)
    ensures HostSubsumes(lib, a, b)
  {
    var n := b + ".";
    var cache := map[Somewhere() := [n], Elsewhere() := [n]];
    NormIsLower(b);
    NormEnds(b);
    DottedNorm(b);
    WellEscapedNone(b);
    LiteralOnly(b, b);
    assert CachedNames(cache, Somewhere()) == [n] && CachedNames(cache, Elsewhere()) == [n];
    NamedBoth(lib, b, n, cache);
    NamedBoth(lib, a, n, cache);
    CoveredAt(lib, a, b, Ip(Somewhere()), cache);
    CoveredAt(lib, a, b, Ip(Elsewhere()), cache);
    CanonicalShape(lib, a);
    CanonicalShape(lib, b);
    assert Somewhere().v4 != Elsewhere().v4;
    hide LibOk, Canonical, Classify, Covers, Norm, CanonicalText, Somewhere, Elsewhere, PathMatches;
  }

  lemma NamedBoth(lib: Lib, p: string, n: string, cache: DnsCache)
    requires CachedNames(cache, Somewhere()) == [n] && CachedNames(cache, Elsewhere()) == [n] && Norm(n) != ""
    ensures PatternHit(lib, p, Ip(Somewhere()), cache) <==> lib.glob(p, Norm(n))
    ensures PatternHit(lib, p, Ip(Elsewhere()), cache) <==> lib.glob(p, Norm(n))
  {
    hide Norm, Somewhere, Elsewhere;
    assert [n][0] == n;
  }

  // ---------------------------------------------------------------- clean entries

  /** Clean entries are exactly those that are rewritten faithfully, once and for all, to a text that
      can be dropped soundly. */
  lemma CleanIff(lib: Lib, raw: string)
    requires LibOk(lib) && '[' !in Norm(raw) && Norm(raw) != "*"
    ensures Clean(lib, raw) <==>
            && Faithful(lib, raw)
            && match CanonicalText(lib, Norm(raw))
               case None => true
               case Some(c) => Settled(lib, c) && DroppingIsSound(lib, c)
  {
    hide LibOk, Clean, Faithful, CanonicalText, Settled, DroppingIsSound;
    var c := CanonicalText(lib, Norm(raw));
    if Clean(lib, raw) {
      CleanIsHandled(lib, raw);
    } else if Faithful(lib, raw) && (c.Some? ==> Settled(lib, c.value) && DroppingIsSound(lib, c.value)) {
      HandledIsClean(lib, raw);
    }
  }

  lemma CleanIsHandled(lib: Lib, raw: string)
    requires LibOk(lib) && Clean(lib, raw) && Norm(raw) != "*"
    ensures Faithful(lib, raw)
    ensures var c := CanonicalText(lib, Norm(raw)); c.Some? ==> Settled(lib, c.value) && DroppingIsSound(lib, c.value)
  {
    CanonicalTextMeaning(lib, raw);
    hide LibOk, Clean, CanonicalText, TextHit, Norm, SafeEscapes, DroppingIsSound;
    var c := CanonicalText(lib, Norm(raw));
    if c.Some? { SafeToDrop(lib, c.value); }
  }

  lemma HandledIsClean(lib: Lib, raw: string)
    requires LibOk(lib) && '[' !in Norm(raw) && Norm(raw) != "*" && Faithful(lib, raw)
    requires var c := CanonicalText(lib, Norm(raw)); c.Some? ==> Settled(lib, c.value) && DroppingIsSound(lib, c.value)
    ensures Clean(lib, raw)
  {
    var t := Norm(raw);
    FaithfulIff(lib, raw);
    if lib.parseAddr(CutZone(TrimBrackets(t))).Some? {
    } else if TrimDot(t) == t && '%' !in t {
      StableHandled(lib, raw);
    } else {
      UnnamedHandled(lib, raw);
    }
  }

  lemma StableHandled(lib: Lib, raw: string)
    requires LibOk(lib) && '[' !in Norm(raw) && Norm(raw) != "*" && TrimDot(Norm(raw)) == Norm(raw) && '%' !in Norm(raw)
    requires lib.parseAddr(CutZone(TrimBrackets(Norm(raw)))).None?
    requires var c := CanonicalText(lib, Norm(raw)); c.Some? ==> Settled(lib, c.value) && DroppingIsSound(lib, c.value)
    ensures Clean(lib, raw)
  {
    var t := Norm(raw);
    if '\\' in t && !SafeEscapes(t) {
      BackslashNotNumeric(lib, t);
      TrimKeeps(t, IsBracket, '%');
      CutZoneNone(TrimBrackets(t));
      assert CanonicalText(lib, t) == if lib.badGlob(t) then None else Some(t);
      if !lib.badGlob(t) { DroppingIsSoundIff(lib, t); }
    }
  }

  lemma UnnamedHandled(lib: Lib, raw: string)
    requires LibOk(lib) && '[' !in Norm(raw) && NoName(Norm(raw)) && NoName(Norm(WithoutZone(Norm(raw))))
    requires Norm(raw) != ""
    requires var c := CanonicalText(lib, Norm(raw)); c.Some? ==> Settled(lib, c.value)
    ensures Clean(lib, raw)
  {
    RewrittenChars(raw);
    RewrittenUnnamed(lib, raw);
  }

  /** With a space this matches no name, and without it, as a second trimming leaves it, it is
      malformed. */
  predicate Fleeting(w: string) {
    && Lower(w) == w && '[' !in w && '%' !in w && !WellEscaped(w)
    && WellEscaped(w + " ") && EscapedSpace(w + " ")
  }

  /** An entry that the first pass keeps and a second pass drops. */
  lemma KeptThenDropped(lib: Lib, w: string)
    requires LibOk(lib) && Fleeting(w)
    ensures Faithful(lib, w + " .") && CanonicalText(lib, Norm(w + " .")) == Some(w + " ")
    ensures CanonicalText(lib, Norm(w + " ")).None?
    ensures forall ep: Endpoint, cache: DnsCache :: !TextHit(lib, w + " ", ep, cache)
  {
    var t := w + " ";
    LastBackslash(w);
    SpacedNorm(w);
    assert Norm(w + " .") == t by {
      assert w + " ." == t + ".";
      DottedNorm(t);
    }
    assert '[' !in t && '%' !in t && '\\' in t && '\\' in w;
    WithoutZoneNone(t);
    WithoutZoneNone(w);
    BackslashNotNumeric(lib, t);
    BackslashNotNumeric(lib, w);
    FaithfulIff(lib, w + " .");
    NoNameHitsNothing(lib, w);
  }

  lemma WithoutZoneNone(t: string)
    requires '%' !in t
    ensures WithoutZone(t) == t && CutZone(TrimBrackets(t)) == TrimBrackets(t)
  {
    TrimKeeps(t, IsBracket, '%');
    CutZoneNone(TrimBrackets(t));
  }

  lemma SpacedNorm(w: string)
    requires w != "" && Lower(w) == w && w[0] == w[|w| - 1] == '\\'
    ensures Lower(w + " ") == w + " " && Norm(w + " ") == w
  {
    var t := w + " ";
    LowerByChars(w);
    LowerByChars(t);
    hide Lower;
    assert TrimLeft(t, IsSpace) == t;
    assert t[..|t| - 1] == w;
    assert TrimRight(t, IsSpace) == TrimRight(w, IsSpace) == w;
  }

  /** Why a second pass must find nothing to do. Two entries that match no name, and are rewritten
      faithfully, stand in the lists of two rules. Merging the rules rewrites both entries a second
      time, drops both, and leaves the empty list, which selects every host. */
  lemma MergedListWidens(lib: Lib, v: string, w: string, ep: Endpoint, cache: DnsCache)
    requires LibOk(lib) && Fleeting(v) && Fleeting(w)
    ensures Faithful(lib, v + " .") && CanonicalSet(lib, [v + " ."], 1) == {v + " "}
    ensures Faithful(lib, w + " .") && CanonicalSet(lib, [w + " ."], 1) == {w + " "}
    ensures MergedToNothing(lib, v + " ", w + " ")
    ensures !HostsMatch(lib, [v + " "], ep, cache) && !HostsMatch(lib, [w + " "], ep, cache) && HostsMatch(lib, [], ep, cache)
  {
    hide LibOk, Faithful, CanonicalText, CanonicalSet, Norm, TextHit, Fleeting, MergedToNothing;
    KeptThenDropped(lib, v);
    KeptThenDropped(lib, w);
    OneEntry(lib, v + " .");
    OneEntry(lib, w + " .");
    BothDropped(lib, v + " ", w + " ");
  }

  /** Nothing is left of the list [g, h]. */
  predicate MergedToNothing(lib: Lib, g: string, h: string) {
    CanonicalSet(lib, [g, h], 2) == {}
  }

  lemma OneEntry(lib: Lib, h: string)
    ensures var c := CanonicalText(lib, Norm(h)); CanonicalSet(lib, [h], 1) == if c.Some? then {c.value} else {}
  {
    hide CanonicalText, Norm;
    assert CanonicalSet(lib, [h], 0) == {};
  }

  lemma BothDropped(lib: Lib, g: string, h: string)
    requires CanonicalText(lib, Norm(g)).None? && CanonicalText(lib, Norm(h)).None?
    ensures MergedToNothing(lib, g, h)
  {
    hide CanonicalText, Norm;
    assert CanonicalSet(lib, [g, h], 1) == CanonicalSet(lib, [g, h], 0) == {};
  }

  /** The two shortest such entries: a backslash, and a backslash, a space and a backslash. */
  lemma FleetingEntries()
    ensures Fleeting("\\") && Fleeting("\\ \\")
  {
    var v, w := "\\", "\\ \\";
    assert !WellEscaped(v) && WellEscaped(v + " ");
    assert w[2..] == v && (w + " ")[2..] == v + " ";
    assert Lower(v) == v && Lower(w) == w;
  }
}
