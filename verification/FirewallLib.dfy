/** The assumptions about the library are consistent: functions that meet all of them. */
module FirewallLib {
  import opened Basics
  import opened FirewallPatterns
  import opened FirewallText
  import opened FirewallHosts

  predicate Digits(s: string) {
    forall i | 0 <= i < |s| :: s[i] == '0' || s[i] == '1'
  }

  function Bits(s: string): (bits: seq<bool>)
    ensures |bits| == |s| && forall i | 0 <= i < |s| :: bits[i] == (s[i] == '1')
  {
    seq(|s|, i requires 0 <= i < |s| => s[i] == '1')
  }

  function Text(bits: seq<bool>): (s: string)
    ensures |s| == |bits| && Digits(s) && Bits(s) == bits
  {
    seq(|bits|, i requires 0 <= i < |bits| => if bits[i] then '1' else '0')
  }

  /** Addresses are written in binary, after a 4 or a 6. */
  function AddrText(a: Addr): string {
    [if a.v4 then '4' else '6'] + Text(a.bits)
  }

  function ParseAddr(s: string): Option<Addr> {
    if s != "" && (s[0] == '4' || s[0] == '6') && |s| == 1 + Width(s[0] == '4') && Digits(s[1..])
    then Some(Addr(s[0] == '4', Bits(s[1..]))) else None
  }

  /** Prefix lengths are written in unary, after a slash. */
  function PrefixText(p: Prefix): string {
    AddrText(p.addr) + "/" + seq(p.len, _ => '1')
  }

  function ParsePrefix(s: string): Option<Prefix> {
    if s == "" then None
    else
      var n := 1 + Width(s[0] == '4');
      if |s| > n && s[n] == '/' && ParseAddr(s[..n]).Some? && Digits(s[n + 1..]) && '0' !in s[n + 1..] && |s| - n - 1 < n
      then Some(Prefix(ParseAddr(s[..n]).value, |s| - n - 1)) else None
  }

  /** Patterns with a class are refused altogether. */
  const LIBRARY := Lib(ParseAddr, ParsePrefix, AddrText, PrefixText,
                       (p: string, n: string) => '[' !in p && WellEscaped(p) && PathMatches(p, n),
                       (p: string) => '[' in p || !WellEscaped(p))

  lemma AddrBack(a: Addr)
    requires ValidAddr(a)
    ensures ParseAddr(AddrText(a)) == Some(a) && Lower(AddrText(a)) == AddrText(a)
  {
    var s := AddrText(a);
    assert s[1..] == Text(a.bits);
    forall i | 0 <= i < |s| ensures LowerChar(s[i]) == s[i] {
      assert i > 0 ==> s[i] == s[1..][i - 1];
    }
  }

  lemma PrefixBack(p: Prefix)
    requires ValidPrefix(p)
    ensures ParsePrefix(PrefixText(p)) == Some(p) && Lower(PrefixText(p)) == PrefixText(p)
  {
    AddrBack(p.addr);
    var a, ones, s := AddrText(p.addr), seq(p.len, _ => '1'), PrefixText(p);
    assert s[..|a|] == a && s[|a| + 1..] == ones;
    forall i | 0 <= i < |s| ensures LowerChar(s[i]) == s[i] {
      assert i < |a| ==> s[i] == a[i] && LowerChar(a[i]) == Lower(a)[i];
      assert i > |a| ==> s[i] == ones[i - |a| - 1];
    }
  }

  lemma AddrPlain(s: string)
    requires ParseAddr(s).Some?
    ensures Plain(s) && '/' !in s && ValidAddr(ParseAddr(s).value)
  {
    forall c | c in s ensures c == '0' || c == '1' || c == '4' || c == '6' {
      var i :| 0 <= i < |s| && s[i] == c;
      assert i > 0 ==> s[i] == s[1..][i - 1];
    }
    assert s[|s| - 1] in s;
  }

  lemma PrefixPlain(s: string)
    requires ParsePrefix(s).Some?
    ensures Plain(s) && '/' in s && ValidPrefix(ParsePrefix(s).value)
  {
    var n := 1 + Width(s[0] == '4');
    AddrPlain(s[..n]);
    assert s[n] == '/';
    forall c | c in s ensures c == '/' || c in s[..n] || c == '1' {
      var i :| 0 <= i < |s| && s[i] == c;
      assert i < n ==> s[i] == s[..n][i];
      assert i > n ==> s[i] == s[n + 1..][i - n - 1];
    }
    assert s[|s| - 1] in s;
  }

  /** Some library meets every assumption made about it. */
  lemma SomeLibraryIsOk()
    ensures LibOk(LIBRARY)
  {
    var lib := LIBRARY;
    forall s: string | lib.parseAddr(s).Some? ensures Plain(s) && '/' !in s && ValidAddr(lib.parseAddr(s).value) { AddrPlain(s); }
    forall s: string | lib.parsePrefix(s).Some? ensures Plain(s) && '/' in s && ValidPrefix(lib.parsePrefix(s).value) {
      PrefixPlain(s);
    }
    forall a: Addr | ValidAddr(a) ensures lib.parseAddr(lib.addrText(a)) == Some(a) && Lower(lib.addrText(a)) == lib.addrText(a) {
      AddrBack(a);
    }
    forall p: Prefix | ValidPrefix(p)
      ensures lib.parsePrefix(lib.prefixText(p)) == Some(p) && Lower(lib.prefixText(p)) == lib.prefixText(p)
    {
      PrefixBack(p);
    }
  }
}
