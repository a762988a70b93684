/** Text and address arithmetic used by firewall host selectors: strings.ToLower (ASCII),
    TrimSpace, trimDot (filter.go), netip addresses and prefixes as numbers. */
module FirewallText {

  // ---------------------------------------------------------------- text

  predicate IsSpace(c: char) {
    c == ' ' || c == '\t' || c == '\n' || c == '\r' || c == 11 as char || c == 12 as char
  }

  function LowerChar(c: char): char {
    if 'A' <= c <= 'Z' then c + 32 as char else c
  }

  /** ASCII: the six space characters by number, and the letters in order. */
  lemma AsciiTables(c: char, i: nat)
    ensures IsSpace(c) <==> 9 <= c as int <= 13 || c as int == 32
    ensures i < 26 ==> LowerChar("ABCDEFGHIJKLMNOPQRSTUVWXYZ"[i]) == "abcdefghijklmnopqrstuvwxyz"[i]
    ensures c as int < 65 || c as int > 90 ==> LowerChar(c) == c
  {
  }

  function Lower(s: string): (r: string)
    ensures |r| == |s| && forall i | 0 <= i < |s| :: r[i] == LowerChar(s[i])
  {
    seq(|s|, i requires 0 <= i < |s| => LowerChar(s[i]))
  }

  lemma LowerTwice(s: string)
    ensures Lower(Lower(s)) == Lower(s)
  {
  }

  lemma LowerByChars(s: string)
    ensures Lower(s) == s <==> forall c | c in s :: LowerChar(c) == c
  {
    if forall c | c in s :: LowerChar(c) == c {
      assert forall i | 0 <= i < |s| :: s[i] in s && Lower(s)[i] == s[i];
    } else {
      var c :| c in s && LowerChar(c) != c;
      var i :| 0 <= i < |s| && s[i] == c;
      assert Lower(s)[i] != s[i];
    }
  }

  function TrimLeft(s: string, cut: char -> bool): string {
    if s != "" && cut(s[0]) then TrimLeft(s[1..], cut) else s
  }

  function TrimRight(s: string, cut: char -> bool): string {
    if s != "" && cut(s[|s| - 1]) then TrimRight(s[..|s| - 1], cut) else s
  }

  function Trim(s: string, cut: char -> bool): string {
    TrimRight(TrimLeft(s, cut), cut)
  }

  function TrimSpace(s: string): string {
    Trim(s, IsSpace)
  }

  /** trimDot: surrounding space goes first, then every trailing dot. */
  function TrimDot(s: string): string {
    TrimRight(TrimSpace(s), c => c == '.')
  }

  predicate IsBracket(c: char) {
    c == '[' || c == ']'
  }

  function TrimBrackets(s: string): string {
    Trim(s, IsBracket)
  }

  /** The part before the first '%'. */
  function CutZone(s: string): string {
    if s == "" || s[0] == '%' then "" else [s[0]] + CutZone(s[1..])
  }

  predicate HasPrefix(s: string, p: string) {
    |p| <= |s| && s[..|p|] == p
  }

  lemma CutZoneNone(s: string)
    requires '%' !in s
    ensures CutZone(s) == s
  {
    if s != "" {
      CutZoneNone(s[1..]);
      assert s == [s[0]] + s[1..];
    }
  }

  lemma CutZoneClean(s: string)
    ensures '%' !in CutZone(s)
    ensures forall c: char :: c in CutZone(s) ==> c in s
  {
  }

  lemma TrimKeeps(s: string, cut: char -> bool, c: char)
    requires !cut(c)
    ensures c in Trim(s, cut) <==> c in s
  {
    TrimLeftKeeps(s, cut, c);
    TrimRightKeeps(TrimLeft(s, cut), cut, c);
  }

  lemma TrimLeftKeeps(s: string, cut: char -> bool, c: char)
    requires !cut(c)
    ensures c in TrimLeft(s, cut) <==> c in s
  {
    if s != "" && cut(s[0]) {
      TrimLeftKeeps(s[1..], cut, c);
      assert s == [s[0]] + s[1..];
    }
  }

  lemma TrimRightKeeps(s: string, cut: char -> bool, c: char)
    requires !cut(c)
    ensures c in TrimRight(s, cut) <==> c in s
  {
    if s != "" && cut(s[|s| - 1]) {
      TrimRightKeeps(s[..|s| - 1], cut, c);
      assert s == s[..|s| - 1] + [s[|s| - 1]];
    }
  }

  /** Text with none of the characters that host selectors treat specially. */
  predicate Plain(s: string) {
    && s != "" && s[|s| - 1] != '.'
    && forall c | c in s :: !IsSpace(c) && !IsBracket(c) && c != '%' && c != '*' && c != '?' && c != '\\'
  }

  lemma PlainUntouched(s: string)
    requires Plain(s)
    ensures TrimDot(s) == s && TrimBrackets(s) == s && CutZone(s) == s
    ensures s != "*"
  {
    assert s[0] in s && s[|s| - 1] in s;
    CutZoneNone(s);
    assert s[0] != "*"[0];
  }

  /** Trimming lower-case text leaves lower-case text. */
  lemma TrimDotLower(s: string)
    requires Lower(s) == s
    ensures Lower(TrimDot(s)) == TrimDot(s)
  {
    var a := TrimLeft(s, IsSpace);
    TrimLeftLower(s, IsSpace);
    TrimRightLower(a, IsSpace);
    TrimRightLower(TrimRight(a, IsSpace), c => c == '.');
  }

  lemma TrimLeftLower(s: string, cut: char -> bool)
    requires Lower(s) == s
    ensures Lower(TrimLeft(s, cut)) == TrimLeft(s, cut)
  {
    if s != "" && cut(s[0]) {
      assert Lower(s[1..]) == s[1..] by {
        assert forall i | 0 <= i < |s[1..]| :: LowerChar(s[1..][i]) == Lower(s)[i + 1];
      }
      TrimLeftLower(s[1..], cut);
    }
  }

  lemma TrimRightLower(s: string, cut: char -> bool)
    requires Lower(s) == s
    ensures Lower(TrimRight(s, cut)) == TrimRight(s, cut)
  {
    if s != "" && cut(s[|s| - 1]) {
      var u := s[..|s| - 1];
      assert Lower(u) == u by {
        assert forall i | 0 <= i < |u| :: LowerChar(u[i]) == Lower(s)[i];
      }
      TrimRightLower(u, cut);
    }
  }

  lemma TrimKeepsSubset(s: string, cut: char -> bool)
    ensures forall c: char :: c in Trim(s, cut) ==> c in s
  {
    TrimLeftSubset(s, cut);
    TrimRightSubset(TrimLeft(s, cut), cut);
  }

  lemma TrimLeftSubset(s: string, cut: char -> bool)
    ensures forall c: char :: c in TrimLeft(s, cut) ==> c in s
  {
  }

  lemma TrimRightSubset(s: string, cut: char -> bool)
    ensures forall c: char :: c in TrimRight(s, cut) ==> c in s
  {
  }

  lemma TrimLeftDone(s: string, cut: char -> bool)
    ensures var r := TrimLeft(s, cut); r != "" ==> !cut(r[0])
  {
  }

  lemma TrimRightDone(s: string, cut: char -> bool)
    ensures var r := TrimRight(s, cut); r != "" ==> !cut(r[|r| - 1])
  {
  }

  lemma TrimRightFirst(s: string, cut: char -> bool)
    ensures var r := TrimRight(s, cut); r != "" ==> s != "" && r[0] == s[0]
  {
  }

  lemma TrimLeftShort(s: string, cut: char -> bool)
    ensures |TrimLeft(s, cut)| <= |s| && (|TrimLeft(s, cut)| == |s| ==> TrimLeft(s, cut) == s)
  {
  }

  lemma TrimRightShort(s: string, cut: char -> bool)
    ensures |TrimRight(s, cut)| <= |s| && (|TrimRight(s, cut)| == |s| ==> TrimRight(s, cut) == s)
  {
  }

  /** Text without space at either end and without a final dot is left alone. */
  lemma Untrimmed(a: string)
    requires a != "" && !IsSpace(a[0]) && !IsSpace(a[|a| - 1]) && a[|a| - 1] != '.'
    ensures TrimDot(a) == a
  {
  }

  lemma CutZoneLower(s: string)
    requires Lower(s) == s
    ensures Lower(CutZone(s)) == CutZone(s)
  {
    if s != "" && s[0] != '%' {
      assert Lower(s[1..]) == s[1..] by {
        assert forall i | 0 <= i < |s[1..]| :: LowerChar(s[1..][i]) == Lower(s)[i + 1];
      }
      CutZoneLower(s[1..]);
      assert LowerChar(s[0]) == Lower(s)[0];
    }
  }

  lemma {:induction false} TrimRightPrefix(s: string, cut: char -> bool)
    ensures TrimRight(s, cut) <= s && forall i | |TrimRight(s, cut)| <= i < |s| :: cut(s[i])
    decreases |s|
  {
    if s != "" && cut(s[|s| - 1]) {
      TrimRightPrefix(s[..|s| - 1], cut);
    }
  }

  lemma {:induction false} CutZonePrefix(s: string)
    ensures CutZone(s) <= s
    decreases |s|
  {
    if s != "" && s[0] != '%' {
      CutZonePrefix(s[1..]);
      assert s == [s[0]] + s[1..];
    }
  }

  // ---------------------------------------------------------------- order

  /** Byte-wise text order. */
  predicate Less(a: string, b: string) {
    if a == "" then b != ""
    else b != "" && (a[0] < b[0] || (a[0] == b[0] && Less(a[1..], b[1..])))
  }

  lemma LessIrreflexive(a: string)
    ensures !Less(a, a)
  {
  }

  lemma LessTransitive(a: string, b: string, c: string)
    requires Less(a, b) && Less(b, c)
    ensures Less(a, c)
  {
    if a != "" && a[0] == b[0] && b[0] == c[0] {
      LessTransitive(a[1..], b[1..], c[1..]);
    }
  }

  lemma LessTotal(a: string, b: string)
    ensures a == b || Less(a, b) || Less(b, a)
  {
    if a != "" && b != "" && a[0] == b[0] {
      LessTotal(a[1..], b[1..]);
      assert a == [a[0]] + a[1..] && b == [b[0]] + b[1..];
    }
  }

  predicate Sorted(s: seq<string>) {
    forall i, j | 0 <= i < j < |s| :: Less(s[i], s[j])
  }

  function Texts(s: seq<string>): set<string> {
    set x | x in s
  }

  lemma TextsOfMore(s: seq<string>, n: nat)
    requires 1 <= n <= |s|
    ensures Texts(s[..n]) == Texts(s[..n - 1]) + {s[n - 1]}
  {
    assert s[..n] == s[..n - 1] + [s[n - 1]];
    forall x: string ensures x in Texts(s[..n]) <==> x in Texts(s[..n - 1]) + {s[n - 1]} {
      assert x in s[..n] <==> x in s[..n - 1] || x == s[n - 1];
    }
  }

  function Insert(x: string, s: seq<string>): seq<string> {
    if s == [] || Less(x, s[0]) then [x] + s
    else if x == s[0] then s
    else [s[0]] + Insert(x, s[1..])
  }

  lemma {:induction false} InsertTexts(x: string, s: seq<string>)
    ensures Texts(Insert(x, s)) == Texts(s) + {x}
  {
    if s != [] && !Less(x, s[0]) && x != s[0] {
      InsertTexts(x, s[1..]);
      assert s == [s[0]] + s[1..];
      assert Texts(s) == {s[0]} + Texts(s[1..]);
      assert Texts([s[0]] + Insert(x, s[1..])) == {s[0]} + Texts(Insert(x, s[1..]));
    }
  }

  lemma {:induction false} InsertSorted(x: string, s: seq<string>)
    requires Sorted(s)
    ensures Sorted(Insert(x, s))
  {
    if s != [] {
      if Less(x, s[0]) {
        forall j | 0 <= j < |s| ensures Less(x, s[j]) {
          if j > 0 { LessTransitive(x, s[0], s[j]); }
        }
      } else if x != s[0] {
        LessTotal(x, s[0]);
        InsertSorted(x, s[1..]);
        InsertTexts(x, s[1..]);
        hide Less;
        var t := Insert(x, s[1..]);
        forall j | 0 <= j < |t| ensures Less(s[0], t[j]) {
          assert t[j] in Texts(t);
          if t[j] != x {
            assert t[j] in s[1..];
            var k :| 0 <= k < |s[1..]| && s[1..][k] == t[j];
            assert s[k + 1] == t[j];
          }
        }
      }
    }
  }

  /** A sorted list is determined by its texts. */
  lemma {:induction false} SortedUnique(a: seq<string>, b: seq<string>)
    requires Sorted(a) && Sorted(b) && Texts(a) == Texts(b)
    ensures a == b
  {
    hide Less;
    FirstText(a);
    FirstText(b);
    if a != [] && b != [] {
      var i :| 0 <= i < |b| && b[i] == a[0];
      var j :| 0 <= j < |a| && a[j] == b[0];
      HeadsEqual(a, b, i, j);
      TailTexts(a);
      TailTexts(b);
      SortedUnique(a[1..], b[1..]);
      assert a == [a[0]] + a[1..] && b == [b[0]] + b[1..];
    }
  }

  lemma FirstText(s: seq<string>)
    ensures s != [] <==> Texts(s) != {}
    ensures s != [] ==> s[0] in Texts(s)
  {
    assert s != [] ==> s[0] in Texts(s);
  }

  lemma HeadsEqual(a: seq<string>, b: seq<string>, i: nat, j: nat)
    requires Sorted(a) && Sorted(b) && i < |b| && j < |a| && b[i] == a[0] && a[j] == b[0]
    ensures a[0] == b[0]
  {
    LessIrreflexive(a[0]);
    if i > 0 && j > 0 { LessTransitive(a[0], b[0], a[0]); }
  }

  lemma TailTexts(s: seq<string>)
    requires Sorted(s) && s != []
    ensures Texts(s[1..]) == Texts(s) - {s[0]} && Sorted(s[1..])
  {
    LessIrreflexive(s[0]);
    forall x ensures x in Texts(s[1..]) <==> x in Texts(s) - {s[0]} {
      if x in Texts(s) - {s[0]} {
        var k :| 0 <= k < |s| && s[k] == x;
        assert s[1..][k - 1] == x;
      }
    }
  }

  // ---------------------------------------------------------------- addresses

  /** netip.Addr without a zone: its bits, most significant first. */
  datatype Addr = Addr(v4: bool, bits: seq<bool>)
  /** netip.Prefix: an address and the number of leading bits that count. */
  datatype Prefix = Prefix(addr: Addr, len: nat)

  function Width(v4: bool): nat {
    if v4 then 32 else 128
  }

  predicate ValidAddr(a: Addr) {
    |a.bits| == Width(a.v4)
  }

  predicate ValidPrefix(p: Prefix) {
    ValidAddr(p.addr) && p.len <= Width(p.addr.v4)
  }

  /** An IPv4 address written as ::ffff:a.b.c.d. */
  predicate Is4In6(a: Addr) {
    && ValidAddr(a) && !a.v4
    && (forall i | 0 <= i < 80 :: !a.bits[i])
    && (forall i | 80 <= i < 96 :: a.bits[i])
  }

  /** Unmap; normalizeFirewallAddr once the zone is gone. */
  function Unmap(a: Addr): (r: Addr)
    ensures ValidAddr(a) ==> ValidAddr(r)
  {
    if Is4In6(a) then Addr(true, a.bits[96..]) else a
  }

  /** The IPv6 form of an IPv4 address: 80 zero bits, 16 one bits, then its own. */
  function Mapped(x: Addr): Addr {
    Addr(false, seq(80, _ => false) + seq(16, _ => true) + x.bits)
  }

  /** Unmapping undoes mapping, and leaves every other address alone. */
  lemma UnmapIff(a: Addr, x: Addr)
    requires ValidAddr(a)
    ensures ValidAddr(x) && x.v4 ==> Unmap(Mapped(x)) == x
    ensures Unmap(a) == a <==> !exists y: Addr :: ValidAddr(y) && y.v4 && a == Mapped(y)
  {
    if ValidAddr(x) && x.v4 {
      assert Mapped(x).bits[96..] == x.bits;
      assert Is4In6(Mapped(x));
    }
    if Is4In6(a) {
      var y := Addr(true, a.bits[96..]);
      assert a.bits == Mapped(y).bits;
      assert ValidAddr(y) && y.v4 && a == Mapped(y);
    } else {
      forall y: Addr | ValidAddr(y) && y.v4 ensures a != Mapped(y) { assert Is4In6(Mapped(y)); }
    }
  }

  /** Prefix.Contains: never across families. */
  predicate Contains(p: Prefix, a: Addr)
    requires ValidPrefix(p)
  {
    ValidAddr(a) && p.addr.v4 == a.v4 && a.bits[..p.len] == p.addr.bits[..p.len]
  }

  function Masked(p: Prefix): (r: Prefix)
    requires ValidPrefix(p)
    ensures ValidPrefix(r)
  {
    var zeros := seq(Width(p.addr.v4) - p.len, i => false);
    Prefix(Addr(p.addr.v4, p.addr.bits[..p.len] + zeros), p.len)
  }

  /** canonicalFirewallPrefix. */
  function CanonicalPrefix(p: Prefix): (r: Prefix)
    requires ValidPrefix(p)
    ensures ValidPrefix(r)
  {
    if Is4In6(p.addr) && p.len >= 96 then Masked(Prefix(Addr(true, p.addr.bits[96..]), p.len - 96))
    else Masked(p)
  }

  /** Masking changes no answer; and a prefix of mapped addresses becomes the IPv4 prefix of the addresses
      that they stand for. */
  lemma CanonicalPrefixMeaning(p: Prefix, x: Addr, len: nat)
    requires ValidAddr(x)
    ensures ValidPrefix(p) && !(Is4In6(p.addr) && p.len >= 96) ==> (Contains(CanonicalPrefix(p), x) <==> Contains(p, x))
    ensures x.v4 && p.addr.v4 && ValidAddr(p.addr) && len <= 32 ==>
              && ValidPrefix(Prefix(Mapped(p.addr), 96 + len))
              && CanonicalPrefix(Prefix(Mapped(p.addr), 96 + len)) == Masked(Prefix(p.addr, len))
              && (Contains(Prefix(Mapped(p.addr), 96 + len), Mapped(x)) <==> Contains(Prefix(p.addr, len), x))
  {
    if ValidPrefix(p) { assert Masked(p).addr.bits[..p.len] == p.addr.bits[..p.len]; }
    if x.v4 && p.addr.v4 && ValidAddr(p.addr) && len <= 32 {
      UnmapIff(Mapped(p.addr), p.addr);
      assert Mapped(p.addr).bits[96..] == p.addr.bits && Is4In6(Mapped(p.addr));
      MappedPrefixes(p.addr, x, len);
    }
  }

  lemma MappedPrefixes(a: Addr, x: Addr, len: nat)
    requires ValidAddr(a) && ValidAddr(x) && a.v4 && x.v4 && len <= 32
    ensures Mapped(x).bits[..96 + len] == Mapped(a).bits[..96 + len] <==> x.bits[..len] == a.bits[..len]
  {
    var head := seq(80, _ => false) + seq(16, _ => true);
    assert Mapped(x).bits == head + x.bits && Mapped(a).bits == head + a.bits;
    assert Mapped(x).bits[..96 + len] == head + x.bits[..len];
    assert Mapped(a).bits[..96 + len] == head + a.bits[..len];
    assert (head + x.bits[..len])[96..] == x.bits[..len] && (head + a.bits[..len])[96..] == a.bits[..len];
  }

  lemma MaskedTwice(p: Prefix)
    requires ValidPrefix(p)
    ensures Masked(Masked(p)) == Masked(p)
  {
    assert Masked(p).addr.bits[..p.len] == p.addr.bits[..p.len];
  }

  lemma CanonicalPrefixTwice(p: Prefix)
    requires ValidPrefix(p)
    ensures CanonicalPrefix(CanonicalPrefix(p)) == CanonicalPrefix(p)
  {
    var c := CanonicalPrefix(p);
    if Is4In6(p.addr) && p.len >= 96 {
      MaskedTwice(Prefix(Addr(true, p.addr.bits[96..]), p.len - 96));
    } else {
      MaskedTwice(p);
      assert p.len >= 96 && !p.addr.v4 ==> forall i | 0 <= i < 96 :: c.addr.bits[i] == p.addr.bits[i];
    }
  }

  /** A shorter prefix that contains a longer one's address contains all of it. */
  lemma PrefixInPrefix(a: Prefix, b: Prefix, x: Addr)
    requires ValidPrefix(a) && ValidPrefix(b)
    requires a.len <= b.len && Contains(a, b.addr) && Contains(b, x)
    ensures Contains(a, x)
  {
    assert x.bits[..a.len] == x.bits[..b.len][..a.len];
    assert b.addr.bits[..a.len] == b.addr.bits[..b.len][..a.len];
  }

  /** Two masked prefixes of equal length, one containing the other's address, are equal. */
  lemma MaskedEqual(a: Prefix, b: Prefix)
    requires ValidPrefix(a) && ValidPrefix(b) && Masked(a) == a && Masked(b) == b
    requires a.len == b.len && Contains(a, b.addr)
    ensures a == b
  {
  }
}
