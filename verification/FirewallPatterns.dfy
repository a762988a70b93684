/** Name patterns of the firewall: path.Match for patterns without character classes. */
module FirewallPatterns {
  import opened FirewallText

  predicate HasMeta(s: string) {
    '*' in s || '?' in s || '[' in s
  }

  /** No backslash stands at the end with nothing to escape. */
  predicate WellEscaped(p: string) {
    p == "" || (if p[0] == '\\' then |p| >= 2 && WellEscaped(p[2..]) else WellEscaped(p[1..]))
  }

  /** '*' stands for any text without a slash, '?' for any character but a slash, a backslash makes
      the next character stand for itself. */
  predicate PathMatches(p: string, n: string)
    decreases |p| + |n|
  {
    if p == "" then n == ""
    else if p[0] == '*' then PathMatches(p[1..], n) || (n != "" && n[0] != '/' && PathMatches(p, n[1..]))
    else if p[0] == '\\' then |p| >= 2 && n != "" && n[0] == p[1] && PathMatches(p[2..], n[1..])
    else n != "" && (n[0] == p[0] || (p[0] == '?' && n[0] != '/')) && PathMatches(p[1..], n[1..])
  }

  /** A pattern that only texts with leading space could match; no normalised name is one. */
  predicate EscapedSpace(p: string) {
    |p| >= 2 && p[0] == '\\' && IsSpace(p[1])
  }

  /** Patterns that match no name. */
  predicate NoName(p: string) {
    p == "" || !WellEscaped(p) || EscapedSpace(p)
  }

  /** Backslashes that the optimiser copes with. */
  predicate SafeEscapes(p: string) {
    '\\' in p ==> HasMeta(p) || EscapedSpace(p)
  }

  // ---------------------------------------------------------------- literals

  lemma {:induction false} WellEscapedNone(p: string)
    requires '\\' !in p
    ensures WellEscaped(p)
    decreases |p|
  {
    if p != "" { WellEscapedNone(p[1..]); }
  }

  /** What is left over is a backslash at the end. */
  lemma {:induction false} LastBackslash(p: string)
    requires !WellEscaped(p)
    ensures p != "" && p[|p| - 1] == '\\'
    decreases |p|
  {
    if p[0] == '\\' {
      if |p| >= 2 { LastBackslash(p[2..]); }
    } else {
      LastBackslash(p[1..]);
    }
  }

  /** Text without special characters matches itself only. */
  lemma {:induction false} LiteralOnly(p: string, n: string)
    requires !HasMeta(p) && '\\' !in p
    ensures PathMatches(p, n) <==> n == p
    decreases |p|
  {
    if p != "" {
      assert p[0] in p;
      if n != "" { LiteralOnly(p[1..], n[1..]); }
      assert p == [p[0]] + p[1..];
      assert n != "" ==> n == [n[0]] + n[1..];
    }
  }

  /** Without '*' and escapes, pattern and text have the same length. */
  lemma {:induction false} SameLength(p: string, n: string)
    requires '*' !in p && '\\' !in p && PathMatches(p, n)
    ensures |n| == |p|
    decreases |p|
  {
    if p != "" {
      assert p[0] in p;
      SameLength(p[1..], n[1..]);
    }
  }

  /** A pattern of '?' and characters of n matches n. */
  lemma {:induction false} QueriesMatch(p: string, n: string)
    requires |p| == |n| && '*' !in p && '\\' !in p
    requires forall i | 0 <= i < |p| :: p[i] == n[i] || (p[i] == '?' && n[i] != '/')
    ensures PathMatches(p, n)
    decreases |p|
  {
    if p != "" {
      assert p[0] in p;
      forall i | 0 <= i < |p[1..]| ensures p[1..][i] == n[1..][i] || (p[1..][i] == '?' && n[1..][i] != '/') {
        assert p[1..][i] == p[i + 1] && n[1..][i] == n[i + 1];
      }
      QueriesMatch(p[1..], n[1..]);
    }
  }

  // ---------------------------------------------------------------- a name for a pattern

  /** One text that p matches: x for '*' and '?', the other characters as they stand. */
  function Sample(p: string): string {
    if p == "" then ""
    else if p[0] == '*' || p[0] == '?' then "x" + Sample(p[1..])
    else if p[0] != '\\' then [p[0]] + Sample(p[1..])
    else if |p| >= 2 then [p[1]] + Sample(p[2..])
    else ""
  }

  /** How many characters the first token of p takes. */
  function TokenLength(p: string): nat
    requires p != "" && WellEscaped(p)
    ensures 1 <= TokenLength(p) <= |p| && WellEscaped(p[TokenLength(p)..])
  {
    if p[0] == '\\' then 2 else 1
  }

  function FirstSample(p: string): char
    requires p != "" && WellEscaped(p)
  {
    if p[0] == '\\' then p[1] else if p[0] == '*' || p[0] == '?' then 'x' else p[0]
  }

  lemma SampleStep(p: string)
    requires p != "" && WellEscaped(p)
    ensures Sample(p) == [FirstSample(p)] + Sample(p[TokenLength(p)..])
  {
  }

  lemma {:induction false} SampleMatches(p: string)
    requires WellEscaped(p)
    ensures PathMatches(p, Sample(p))
    decreases |p|
  {
    if p != "" {
      SampleStep(p);
      var rest := Sample(p[TokenLength(p)..]);
      assert Sample(p)[1..] == rest;
      SampleMatches(p[TokenLength(p)..]);
      if p[0] == '*' { assert PathMatches(p, rest); }
    }
  }

  lemma {:induction false} SampleEnds(p: string)
    requires WellEscaped(p) && p != ""
    ensures Sample(p) != "" && Sample(p)[0] == FirstSample(p)
    ensures var last := Sample(p)[|Sample(p)| - 1]; last == p[|p| - 1] || last == 'x'
    decreases |p|
  {
    SampleStep(p);
    var rest := p[TokenLength(p)..];
    if rest != "" { SampleEnds(rest); } else { assert Sample(rest) == ""; }
  }

  lemma {:induction false} SampleChars(p: string)
    requires WellEscaped(p)
    ensures forall c | c in Sample(p) :: c in p || c == 'x'
    decreases |p|
  {
    if p != "" {
      SampleStep(p);
      var k := TokenLength(p);
      SampleChars(p[k..]);
      assert forall c | c in p[k..] :: c in p;
      assert p[k - 1] in p;
    }
  }

  lemma SampleLower(p: string)
    requires Lower(p) == p && WellEscaped(p)
    ensures Lower(Sample(p)) == Sample(p)
  {
    SampleChars(p);
    LowerByChars(p);
    LowerByChars(Sample(p));
  }

  lemma {:induction false} SampleShorter(p: string)
    requires WellEscaped(p)
    ensures |Sample(p)| <= |p|
    ensures '\\' in p ==> |Sample(p)| < |p|
    decreases |p|
  {
    if p != "" {
      SampleStep(p);
      SampleShorter(p[TokenLength(p)..]);
      assert p == p[..TokenLength(p)] + p[TokenLength(p)..];
    }
  }

  // ---------------------------------------------------------------- counting characters

  function Count(n: string, c: char): nat {
    if n == "" then 0 else (if n[0] == c then 1 else 0) + Count(n[1..], c)
  }

  /** How often p demands the character c. */
  function Demands(p: string, c: char): nat {
    if p == "" then 0
    else if p[0] == '*' || p[0] == '?' then Demands(p[1..], c)
    else if p[0] != '\\' then (if p[0] == c then 1 else 0) + Demands(p[1..], c)
    else if |p| >= 2 then (if p[1] == c then 1 else 0) + Demands(p[2..], c)
    else 0
  }

  /** What a pattern demands is in every text it matches. */
  lemma {:induction false} DemandsAreMet(p: string, n: string, c: char)
    requires PathMatches(p, n)
    ensures Count(n, c) >= Demands(p, c)
    decreases |p| + |n|
  {
    if p != "" {
      if p[0] == '*' {
        if PathMatches(p[1..], n) { DemandsAreMet(p[1..], n, c); } else { DemandsAreMet(p, n[1..], c); }
      } else {
        DemandsAreMet(if p[0] == '\\' then p[2..] else p[1..], n[1..], c);
      }
    }
  }

  /** The sample has nothing beyond what is demanded, apart from x. */
  lemma {:induction false} SampleMeetsExactly(p: string, c: char)
    requires WellEscaped(p) && c != 'x'
    ensures Count(Sample(p), c) == Demands(p, c)
    decreases |p|
  {
    if p != "" {
      SampleStep(p);
      assert Sample(p)[1..] == Sample(p[TokenLength(p)..]);
      SampleMeetsExactly(p[TokenLength(p)..], c);
    }
  }

  lemma {:induction false} NothingDemanded(p: string, c: char)
    requires c !in p
    ensures Demands(p, c) == 0
    decreases |p|
  {
    if p != "" {
      assert p[0] in p;
      if p[0] != '\\' {
        NothingDemanded(p[1..], c);
      } else if |p| >= 2 {
        assert p[1] in p;
        NothingDemanded(p[2..], c);
      }
    }
  }

  lemma {:induction false} SomeDemanded(p: string, c: char)
    requires WellEscaped(p) && c in p && c != '*' && c != '?' && c != '\\'
    ensures Demands(p, c) >= 1
    decreases |p|
  {
    var k := TokenLength(p);
    if c in p[k..] {
      SomeDemanded(p[k..], c);
    } else {
      assert p == p[..k] + p[k..];
      assert c in p[..k];
      assert p[k - 1] == c;
    }
  }

  /** Text appended to a whole pattern adds its demands. */
  lemma {:induction false} DemandsAdd(p: string, q: string, c: char)
    requires WellEscaped(p)
    ensures Demands(p + q, c) == Demands(p, c) + Demands(q, c)
    decreases |p|
  {
    if p == "" {
      assert p + q == q;
    } else {
      var k := TokenLength(p);
      assert (p + q)[k..] == p[k..] + q;
      assert (p + q)[0] == p[0] && (p + q)[k - 1] == p[k - 1];
      DemandsAdd(p[k..], q, c);
    }
  }
}
