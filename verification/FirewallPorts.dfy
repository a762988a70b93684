/** Port selectors of firewall rules: canonicalFirewallPorts, firewallPortsSubsume
    (firewall_config_optimize.go) and portMatches (firewall_config.go). */
module FirewallPorts {

  const MAX_PORT := 65535
  type Port = p: int | 0 <= p <= MAX_PORT

  datatype Range = Range(first: Port, last: Port)

  predicate Within(r: Range, p: int) {
    r.first <= p <= r.last
  }

  /** portMatches reads a range in either direction. */
  function Normal(r: Range): Range {
    if r.last < r.first then Range(r.last, r.first) else r
  }

  /** The ports that the two lists name. */
  predicate Listed(ports: seq<Port>, ranges: seq<Range>, p: int) {
    p in ports || exists i | 0 <= i < |ranges| :: Within(Normal(ranges[i]), p)
  }

  /** portMatches: empty lists select every port. */
  predicate PortMatches(ports: seq<Port>, ranges: seq<Range>, p: int) {
    (ports == [] && ranges == []) || Listed(ports, ranges, p)
  }

  /** The loops of portMatches. */
  method MatchPort(ports: seq<Port>, ranges: seq<Range>, port: Port) returns (matched: bool)
    ensures matched <==> PortMatches(ports, ranges, port)
  {
    if |ports| == 0 && |ranges| == 0 { return true; }
    for i := 0 to |ports|
      invariant port !in ports[..i]
    {
      if ports[i] == port { return true; }
    }
    assert ports[..|ports|] == ports;
    for i := 0 to |ranges|
      invariant forall k | 0 <= k < i :: !Within(Normal(ranges[k]), port)
    {
      var first, last := ranges[i].first, ranges[i].last;
      if last < first { first, last := last, first; }
      if port >= first && port <= last {
        assert Within(Normal(ranges[i]), port);
        return true;
      }
    }
    return false;
  }

  predicate Covers(s: seq<Range>, p: int) {
    exists i | 0 <= i < |s| :: Within(s[i], p)
  }

  // ---------------------------------------------------------------- interval lists

  predicate Before(a: Range, b: Range) {
    a.first < b.first || (a.first == b.first && a.last <= b.last)
  }

  predicate SortedRanges(s: seq<Range>) {
    forall i, j | 0 <= i < j < |s| :: Before(s[i], s[j])
  }

  predicate Proper(s: seq<Range>) {
    forall i | 0 <= i < |s| :: s[i].first <= s[i].last
  }

  /** Increasing, and with a gap between neighbours. */
  predicate Separated(s: seq<Range>) {
    Proper(s) && forall i, j | 0 <= i < j < |s| :: s[i].last + 1 < s[j].first
  }

  lemma StartCovered(s: seq<Range>)
    requires Proper(s)
    ensures s != [] ==> Covers(s, s[0].first)
  {
    assert s != [] ==> Within(s[0], s[0].first);
  }

  /** The port after an interval of a separated list is not covered. */
  lemma GapAfter(s: seq<Range>, i: nat)
    requires Separated(s) && i < |s|
    ensures !Covers(s, s[i].last + 1)
  {
    forall k | 0 <= k < |s| ensures !Within(s[k], s[i].last + 1) {
      assert k < i ==> s[k].last + 1 < s[i].first;
      assert k > i ==> s[i].last + 1 < s[k].first;
    }
  }

  /** A separated list is determined by the ports it covers. */
  lemma {:induction false} SeparatedUnique(a: seq<Range>, b: seq<Range>)
    requires Separated(a) && Separated(b)
    requires forall p: int :: Covers(a, p) <==> Covers(b, p)
    ensures a == b
  {
    StartCovered(a);
    StartCovered(b);
    if a != [] && b != [] {
      FirstSame(a, b);
      forall p: int ensures Covers(a[1..], p) <==> Covers(b[1..], p) {
        TailCovers(a, p);
        TailCovers(b, p);
      }
      SeparatedUnique(a[1..], b[1..]);
      assert a == [a[0]] + a[1..] && b == [b[0]] + b[1..];
    }
  }

  lemma FirstSame(a: seq<Range>, b: seq<Range>)
    requires Separated(a) && Separated(b) && a != [] && b != []
    requires forall p: int :: Covers(a, p) <==> Covers(b, p)
    ensures a[0] == b[0]
  {
    FirstCovered(a, b);
    FirstCovered(b, a);
    GapAfter(a, 0);
    GapAfter(b, 0);
    assert !Within(b[0], a[0].last + 1) && !Within(a[0], b[0].last + 1);
  }

  lemma FirstCovered(a: seq<Range>, b: seq<Range>)
    requires Separated(a) && Separated(b) && a != [] && b != []
    requires forall p: int :: Covers(a, p) <==> Covers(b, p)
    ensures b[0].first <= a[0].first
  {
    StartCovered(a);
    var i :| 0 <= i < |b| && Within(b[i], a[0].first);
  }

  lemma TailCovers(s: seq<Range>, p: int)
    requires Separated(s) && s != []
    ensures Covers(s[1..], p) <==> Covers(s, p) && !Within(s[0], p)
  {
    if Covers(s[1..], p) {
      var i :| 0 <= i < |s[1..]| && Within(s[1..][i], p);
      assert s[1..][i] == s[i + 1];
    }
    if Covers(s, p) && !Within(s[0], p) {
      var i :| 0 <= i < |s| && Within(s[i], p);
      assert s[1..][i - 1] == s[i];
    }
  }

  // ---------------------------------------------------------------- sorting

  function InsertRange(r: Range, s: seq<Range>): seq<Range> {
    if s == [] || Before(r, s[0]) then [r] + s else [s[0]] + InsertRange(r, s[1..])
  }

  lemma {:induction false} InsertSorts(r: Range, s: seq<Range>)
    requires SortedRanges(s)
    ensures SortedRanges(InsertRange(r, s)) && multiset(InsertRange(r, s)) == multiset(s) + multiset{r}
  {
    hide Before, SortedRanges;
    if s == [] || Before(r, s[0]) {
      FirstSorts(r, s);
    } else {
      TailSorts(s);
      InsertSorts(r, s[1..]);
      assert s == [s[0]] + s[1..];
      FirstBeforeRest(r, s, InsertRange(r, s[1..]));
      FirstSorts(s[0], InsertRange(r, s[1..]));
    }
  }

  lemma FirstSorts(r: Range, s: seq<Range>)
    requires SortedRanges(s) && (s != [] ==> Before(r, s[0]))
    ensures SortedRanges([r] + s)
  {
  }

  lemma TailSorts(s: seq<Range>)
    requires SortedRanges(s) && s != []
    ensures SortedRanges(s[1..])
  {
  }

  lemma FirstBeforeRest(r: Range, s: seq<Range>, t: seq<Range>)
    requires s != [] && SortedRanges(s) && !Before(r, s[0]) && multiset(t) == multiset(s[1..]) + multiset{r}
    ensures forall i | 0 <= i < |t| :: Before(s[0], t[i])
  {
    forall i | 0 <= i < |t| ensures Before(s[0], t[i]) {
      assert t[i] in multiset(t);
      if t[i] != r { assert t[i] in s[1..]; }
    }
  }

  /** sort.Slice on intervals: insertion sort stands for the library's sort. */
  method SortIntervals(s: seq<Range>) returns (r: seq<Range>)
    ensures SortedRanges(r) && multiset(r) == multiset(s)
  {
    r := [];
    for i := 0 to |s|
      invariant SortedRanges(r) && multiset(r) == multiset(s[..i])
    {
      InsertSorts(s[i], r);
      assert s[..i + 1] == s[..i] + [s[i]];
      r := InsertRange(s[i], r);
    }
    assert s[..|s|] == s;
  }

  lemma SameRangesCover(a: seq<Range>, b: seq<Range>)
    requires multiset(a) == multiset(b)
    ensures forall p: int :: Covers(a, p) <==> Covers(b, p)
    ensures Proper(a) ==> Proper(b)
  {
    forall x: Range ensures x in a <==> x in b {
      assert x in a <==> x in multiset(a);
      assert x in b <==> x in multiset(b);
    }
    forall p: int ensures Covers(a, p) <==> Covers(b, p) {
      if Covers(a, p) {
        var i :| 0 <= i < |a| && Within(a[i], p);
        assert a[i] in b;
      }
      if Covers(b, p) {
        var i :| 0 <= i < |b| && Within(b[i], p);
        assert b[i] in a;
      }
    }
    if Proper(a) {
      forall i | 0 <= i < |b| ensures b[i].first <= b[i].last { assert b[i] in a; }
    }
  }

  // ---------------------------------------------------------------- coalescing

  /** The merge loop of canonicalFirewallPorts, which widens the last interval in place. */
  method Coalesce(s: seq<Range>) returns (merged: seq<Range>)
    requires SortedRanges(s) && Proper(s)
    ensures Separated(merged)
    ensures forall p: int :: Covers(merged, p) <==> Covers(s, p)
  {
    merged := [];
    for i := 0 to |s|
      invariant Separated(merged)
      invariant i == 0 <==> merged == []
      invariant merged != [] ==> merged[|merged| - 1].first <= s[i - 1].first
      invariant forall p: int :: Covers(merged, p) <==> Covers(s[..i], p)
    {
      var interval := s[i];
      ghost var before := merged;
      assert i > 0 ==> Before(s[i - 1], s[i]);
      if |merged| == 0 {
        merged := [interval];
        GrowCovers(before, interval, s, i, merged);
        continue;
      }
      var last := merged[|merged| - 1];
      var adjacent := last.last != MAX_PORT && interval.first == last.last + 1;
      if interval.first <= last.last || adjacent {
        if interval.last > last.last {
          merged := merged[|merged| - 1 := Range(last.first, interval.last)];
        }
        WidenCovers(before, interval, s, i, merged);
        continue;
      }
      merged := merged + [interval];
      GrowCovers(before, interval, s, i, merged);
    }
    assert s[..|s|] == s;
  }

  lemma PrefixCovers(s: seq<Range>, i: nat, p: int)
    requires i < |s|
    ensures Covers(s[..i + 1], p) <==> Covers(s[..i], p) || Within(s[i], p)
  {
    if Covers(s[..i], p) {
      var k :| 0 <= k < i && Within(s[..i][k], p);
      assert Within(s[..i + 1][k], p);
    }
    if Within(s[i], p) { assert Within(s[..i + 1][i], p); }
    if Covers(s[..i + 1], p) {
      var k :| 0 <= k < i + 1 && Within(s[..i + 1][k], p);
      if k < i { assert Within(s[..i][k], p); }
    }
  }

  lemma GrowCovers(before: seq<Range>, x: Range, s: seq<Range>, i: nat, after: seq<Range>)
    requires i < |s| && s[i] == x && after == before + [x]
    requires forall p: int :: Covers(before, p) <==> Covers(s[..i], p)
    ensures forall p: int :: Covers(after, p) <==> Covers(s[..i + 1], p)
  {
    var n := |before|;
    assert after[..n] == before && after[..n + 1] == after && after[n] == x;
    forall p: int ensures Covers(after, p) <==> Covers(s[..i + 1], p) {
      PrefixCovers(s, i, p);
      PrefixCovers(after, n, p);
      assert Covers(before, p) <==> Covers(s[..i], p);
    }
  }

  lemma WidenCovers(before: seq<Range>, x: Range, s: seq<Range>, i: nat, after: seq<Range>)
    requires i < |s| && s[i] == x && before != []
    requires Separated(before) && x.first <= x.last
    requires var last := before[|before| - 1];
             && last.first <= x.first <= last.last + 1
             && after == before[|before| - 1 := Range(last.first, if x.last > last.last then x.last else last.last)]
    requires forall p: int :: Covers(before, p) <==> Covers(s[..i], p)
    ensures forall p: int :: Covers(after, p) <==> Covers(s[..i + 1], p)
  {
    var n := |before| - 1;
    assert before[..n + 1] == before && after[..n + 1] == after && after[..n] == before[..n];
    forall p: int ensures Covers(after, p) <==> Covers(s[..i + 1], p) {
      PrefixCovers(s, i, p);
      PrefixCovers(before, n, p);
      PrefixCovers(after, n, p);
      assert Covers(before, p) <==> Covers(s[..i], p);
      assert Within(after[n], p) <==> Within(before[n], p) || Within(x, p);
    }
  }

  // ---------------------------------------------------------------- canonical lists

  function Single(p: Port): Range {
    Range(p, p)
  }

  /** The intervals of a selector: firewallRulePortIntervals, with ranges in order. */
  function Intervals(ports: seq<Port>, ranges: seq<Range>): (s: seq<Range>)
    ensures |s| == |ports| + |ranges|
    ensures forall i | 0 <= i < |ports| :: s[i] == Single(ports[i])
    ensures forall i | 0 <= i < |ranges| :: s[|ports| + i] == Normal(ranges[i])
  {
    seq(|ports|, i requires 0 <= i < |ports| => Single(ports[i]))
    + seq(|ranges|, i requires 0 <= i < |ranges| => Normal(ranges[i]))
  }

  lemma IntervalsCover(ports: seq<Port>, ranges: seq<Range>, p: int)
    ensures Covers(Intervals(ports, ranges), p) <==> Listed(ports, ranges, p)
  {
    var s := Intervals(ports, ranges);
    if Covers(s, p) {
      var i :| 0 <= i < |s| && Within(s[i], p);
      if i >= |ports| { assert s[i] == Normal(ranges[i - |ports|]); }
    }
    if Listed(ports, ranges, p) {
      if p in ports {
        var i :| 0 <= i < |ports| && ports[i] == p;
        assert Within(s[i], p);
      } else {
        var i :| 0 <= i < |ranges| && Within(Normal(ranges[i]), p);
        assert Within(s[|ports| + i], p);
      }
    }
  }

  function Singles(s: seq<Range>): seq<Port> {
    if s == [] then [] else (if s[0].first == s[0].last then [s[0].first] else []) + Singles(s[1..])
  }

  function Wide(s: seq<Range>): seq<Range> {
    if s == [] then [] else (if s[0].first == s[0].last then [] else [s[0]]) + Wide(s[1..])
  }

  /** Canonical lists are the one-port and the wider intervals of one separated list. */
  ghost predicate CanonicalPorts(ports: seq<Port>, ranges: seq<Range>) {
    exists s: seq<Range> :: Separated(s) && ports == Singles(s) && ranges == Wide(s)
  }

  lemma {:induction false} SplitCovers(s: seq<Range>, p: int)
    requires Proper(s)
    ensures Listed(Singles(s), Wide(s), p) <==> Covers(s, p)
    ensures Proper(Wide(s)) && (s != [] ==> Singles(s) != [] || Wide(s) != [])
  {
    if s != [] {
      var t := s[1..];
      SplitCovers(t, p);
      assert s == [s[0]] + t;
      ConsCovers(s[0], t, p);
      if s[0].first == s[0].last {
        assert Singles(s) == [s[0].first] + Singles(t) && Wide(s) == [] + Wide(t);
        assert Wide(s) == Wide(t);
      } else {
        assert Singles(s) == Singles(t);
        ConsListed(s[0], Singles(t), Wide(t), p);
      }
    }
  }

  lemma ConsCovers(r: Range, t: seq<Range>, p: int)
    ensures Covers([r] + t, p) <==> Within(r, p) || Covers(t, p)
  {
    var s := [r] + t;
    if Covers(s, p) {
      var i :| 0 <= i < |s| && Within(s[i], p);
      if i > 0 { assert s[i] == t[i - 1]; }
    }
    if Within(r, p) { assert Within(s[0], p); }
    if Covers(t, p) {
      var i :| 0 <= i < |t| && Within(t[i], p);
      assert s[i + 1] == t[i];
    }
  }

  lemma ConsListed(r: Range, ports: seq<Port>, ranges: seq<Range>, p: int)
    requires r.first <= r.last
    ensures Listed(ports, [r] + ranges, p) <==> Within(r, p) || Listed(ports, ranges, p)
  {
    var s := [r] + ranges;
    if Listed(ports, s, p) && p !in ports {
      var i :| 0 <= i < |s| && Within(Normal(s[i]), p);
      if i > 0 { assert s[i] == ranges[i - 1]; }
    }
    if Within(r, p) { assert Within(Normal(s[0]), p); }
    if Listed(ports, ranges, p) && p !in ports {
      var i :| 0 <= i < |ranges| && Within(Normal(ranges[i]), p);
      assert s[i + 1] == ranges[i];
    }
  }

  /** canonicalFirewallPorts: the same ports, in canonical lists. */
  method CanonicalFirewallPorts(ports: seq<Port>, ranges: seq<Range>)
    returns (cports: seq<Port>, cranges: seq<Range>)
    ensures CanonicalPorts(cports, cranges)
    ensures forall p: int :: Listed(cports, cranges, p) <==> Listed(ports, ranges, p)
    ensures cports == [] && cranges == [] <==> ports == [] && ranges == []
  {
    if |ports| == 0 && |ranges| == 0 {
      assert Separated([]) && Singles([]) == [] && Wide([]) == [];
      return [], [];
    }
    var intervals := Intervals(ports, ranges);
    var sorted := SortIntervals(intervals);
    SameRangesCover(intervals, sorted);
    var merged := Coalesce(sorted);
    cports, cranges := [], [];
    for i := 0 to |merged|
      invariant Singles(merged) == cports + Singles(merged[i..])
      invariant Wide(merged) == cranges + Wide(merged[i..])
    {
      assert merged[i..][0] == merged[i] && merged[i..][1..] == merged[i + 1..];
      if merged[i].first == merged[i].last {
        cports := cports + [merged[i].first];
      } else {
        cranges := cranges + [merged[i]];
      }
    }
    assert cports == Singles(merged) && cranges == Wide(merged);
    SplitSelects(ports, ranges, merged);
  }

  lemma SplitSelects(ports: seq<Port>, ranges: seq<Range>, merged: seq<Range>)
    requires Separated(merged) && (ports != [] || ranges != [])
    requires forall p: int :: Covers(merged, p) <==> Covers(Intervals(ports, ranges), p)
    ensures forall p: int :: Listed(Singles(merged), Wide(merged), p) <==> Listed(ports, ranges, p)
    ensures Singles(merged) != [] || Wide(merged) != []
  {
    forall p: int ensures Listed(Singles(merged), Wide(merged), p) <==> Listed(ports, ranges, p) {
      SplitCovers(merged, p);
      IntervalsCover(ports, ranges, p);
    }
    var s := Intervals(ports, ranges);
    StartCovered(s);
    assert Covers(merged, s[0].first);
    SplitCovers(merged, 0);
  }

  /** Canonical lists are determined by the ports they select. */
  lemma CanonicalPortsUnique(p1: seq<Port>, r1: seq<Range>, p2: seq<Port>, r2: seq<Range>)
    requires CanonicalPorts(p1, r1) && CanonicalPorts(p2, r2)
    requires forall p: int :: Listed(p1, r1, p) <==> Listed(p2, r2, p)
    ensures p1 == p2 && r1 == r2
  {
    var a: seq<Range> :| Separated(a) && p1 == Singles(a) && r1 == Wide(a);
    var b: seq<Range> :| Separated(b) && p2 == Singles(b) && r2 == Wide(b);
    forall p: int ensures Covers(a, p) <==> Covers(b, p) {
      SplitCovers(a, p);
      SplitCovers(b, p);
    }
    SeparatedUnique(a, b);
  }

  // ---------------------------------------------------------------- subsumption

  /** firewallPortsSubsume: interval by interval. */
  predicate PortsSubsume(aPorts: seq<Port>, aRanges: seq<Range>, bPorts: seq<Port>, bRanges: seq<Range>) {
    var own, others := RawIntervals(aPorts, aRanges), RawIntervals(bPorts, bRanges);
    own == [] || (others != [] && forall r | r in others :: CoveredByOne(own, r))
  }

  function RawIntervals(ports: seq<Port>, ranges: seq<Range>): (s: seq<Range>)
    ensures |s| == |ports| + |ranges|
    ensures forall i | 0 <= i < |ports| :: s[i] == Single(ports[i])
    ensures forall i | 0 <= i < |ranges| :: s[|ports| + i] == ranges[i]
  {
    seq(|ports|, i requires 0 <= i < |ports| => Single(ports[i])) + ranges
  }

  predicate CoveredByOne(s: seq<Range>, r: Range) {
    exists x | x in s :: x.first <= r.first && r.last <= x.last
  }

  lemma {:induction false} CanonicalRawIntervals(s: seq<Range>)
    requires Separated(s)
    ensures forall x: Range :: x in RawIntervals(Singles(s), Wide(s)) <==> x in s
  {
    if s != [] {
      CanonicalRawIntervals(s[1..]);
      assert s == [s[0]] + s[1..];
      forall x: Range ensures x in RawIntervals(Singles(s), Wide(s)) <==> x in s {
        RawMember(Singles(s), Wide(s), x);
        RawMember(Singles(s[1..]), Wide(s[1..]), x);
      }
    }
  }

  lemma RawMember(ports: seq<Port>, ranges: seq<Range>, x: Range)
    ensures x in RawIntervals(ports, ranges) <==> (x.first == x.last && x.first in ports) || x in ranges
  {
    var s := RawIntervals(ports, ranges);
    if x in s {
      var i :| 0 <= i < |s| && s[i] == x;
      if i >= |ports| { assert s[i] == ranges[i - |ports|]; }
    }
    if x.first == x.last && x.first in ports {
      var i :| 0 <= i < |ports| && ports[i] == x.first;
      assert s[i] == x;
    }
    if x in ranges {
      var i :| 0 <= i < |ranges| && ranges[i] == x;
      assert s[|ports| + i] == x;
    }
  }

  /** For two canonical rules that both list ports, the interval test decides inclusion. */
  lemma PortsSubsumeExact(aPorts: seq<Port>, aRanges: seq<Range>, bPorts: seq<Port>, bRanges: seq<Range>)
    requires CanonicalPorts(aPorts, aRanges) && CanonicalPorts(bPorts, bRanges)
    requires (aPorts != [] || aRanges != []) && (bPorts != [] || bRanges != [])
    ensures PortsSubsume(aPorts, aRanges, bPorts, bRanges) <==>
            forall p: int :: Listed(bPorts, bRanges, p) ==> Listed(aPorts, aRanges, p)
  {
    var a: seq<Range> :| Separated(a) && aPorts == Singles(a) && aRanges == Wide(a);
    var b: seq<Range> :| Separated(b) && bPorts == Singles(b) && bRanges == Wide(b);
    if PortsSubsume(aPorts, aRanges, bPorts, bRanges) {
      forall p: int | Listed(bPorts, bRanges, p) ensures Listed(aPorts, aRanges, p) {
        TestImpliesListed(a, b, p);
      }
    }
    if forall p: int :: Listed(bPorts, bRanges, p) ==> Listed(aPorts, aRanges, p) {
      ListedImpliesTest(a, b);
    }
  }

  lemma TestImpliesListed(a: seq<Range>, b: seq<Range>, p: int)
    requires Separated(a) && Separated(b)
    requires PortsSubsume(Singles(a), Wide(a), Singles(b), Wide(b)) && RawIntervals(Singles(a), Wide(a)) != []
    requires Listed(Singles(b), Wide(b), p)
    ensures Listed(Singles(a), Wide(a), p)
  {
    SplitCovers(b, p);
    SplitCovers(a, p);
    CanonicalRawIntervals(a);
    CanonicalRawIntervals(b);
    hide *;
    TestCovers(RawIntervals(Singles(a), Wide(a)), RawIntervals(Singles(b), Wide(b)), a, b, p);
  }

  lemma TestCovers(ra: seq<Range>, rb: seq<Range>, a: seq<Range>, b: seq<Range>, p: int)
    requires forall x: Range :: x in ra <==> x in a
    requires forall x: Range :: x in rb <==> x in b
    requires forall r | r in rb :: CoveredByOne(ra, r)
    requires Covers(b, p)
    ensures Covers(a, p)
  {
    var j :| 0 <= j < |b| && Within(b[j], p);
    assert b[j] in rb && CoveredByOne(ra, b[j]);
    var x :| x in ra && x.first <= b[j].first && b[j].last <= x.last;
    var i :| 0 <= i < |a| && a[i] == x;
  }

  lemma ListedImpliesTest(a: seq<Range>, b: seq<Range>)
    requires Separated(a) && Separated(b) && b != []
    requires forall p: int :: Listed(Singles(b), Wide(b), p) ==> Listed(Singles(a), Wide(a), p)
    ensures PortsSubsume(Singles(a), Wide(a), Singles(b), Wide(b))
  {
    hide Singles, Wide, Listed;
    var ra, rb := RawIntervals(Singles(a), Wide(a)), RawIntervals(Singles(b), Wide(b));
    forall p: int | Covers(b, p) ensures Covers(a, p) {
      SplitCovers(b, p);
      SplitCovers(a, p);
    }
    CanonicalRawIntervals(a);
    CanonicalRawIntervals(b);
    assert b[0] in rb;
    forall r | r in rb ensures CoveredByOne(ra, r) {
      var i := IntervalInOne(a, b, r);
      assert a[i] in ra;
    }
  }

  /** An interval whose ports are all covered by a separated list lies in one of its intervals. */
  lemma IntervalInOne(a: seq<Range>, b: seq<Range>, r: Range) returns (i: nat)
    requires Separated(a) && Separated(b) && r in b
    requires forall p: int :: Covers(b, p) ==> Covers(a, p)
    ensures i < |a| && a[i].first <= r.first && r.last <= a[i].last
  {
    var j :| 0 <= j < |b| && b[j] == r;
    assert Within(b[j], r.first);
    assert Covers(b, r.first);
    i :| 0 <= i < |a| && Within(a[i], r.first);
    GapAfter(a, i);
    assert !Within(b[j], a[i].last + 1);
  }

  /** The interval test is sound for every pair of canonical rules. */
  lemma PortsSubsumeSound(aPorts: seq<Port>, aRanges: seq<Range>, bPorts: seq<Port>, bRanges: seq<Range>, p: int)
    requires CanonicalPorts(aPorts, aRanges) && CanonicalPorts(bPorts, bRanges)
    requires PortsSubsume(aPorts, aRanges, bPorts, bRanges) && PortMatches(bPorts, bRanges, p)
    ensures PortMatches(aPorts, aRanges, p)
  {
    if (aPorts != [] || aRanges != []) && (bPorts != [] || bRanges != []) {
      PortsSubsumeExact(aPorts, aRanges, bPorts, bRanges);
    }
  }
}
