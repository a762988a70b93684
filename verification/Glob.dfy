/** Glob patterns of the HTTP classifier (sniffer/http.go): escapes, and greedy matching with one
    backtrack point against the declarative meaning of a pattern. */
module Glob {
  import opened Basics

  const STAR: byte := 42
  const QUERY: byte := 63
  const BACKSLASH: byte := 92

  datatype Token = Literal(b: byte) | One | Star

  /** What one token other than a star accepts. */
  predicate Accepts(t: Token, b: byte) {
    match t
    case Literal(c) => c == b
    case One => true
    case Star => false
  }

  /** The meaning of a pattern: a star stands for any bytes, the whole value is covered. */
  ghost predicate Matches(p: seq<Token>, v: seq<byte>) {
    if p == [] then v == []
    else if p[0].Star? then exists k | 0 <= k <= |v| :: Matches(p[1..], v[k..])
    else v != [] && Accepts(p[0], v[0]) && Matches(p[1..], v[1..])
  }

  // ---------------------------------------------------------------- compiling

  function Compile(pattern: seq<byte>, escaped: bool): seq<Token>
    decreases |pattern|
  {
    if pattern == [] then (if escaped then [Literal(BACKSLASH)] else [])
    else
      var b := pattern[0];
      if escaped then [Literal(b)] + Compile(pattern[1..], false)
      else if b == BACKSLASH then Compile(pattern[1..], true)
      else [if b == STAR then Star else if b == QUERY then One else Literal(b)] + Compile(pattern[1..], false)
  }

  /** compileHTTPGlob. */
  method CompileHttpGlob(pattern: seq<byte>) returns (tokens: seq<Token>)
    ensures tokens == Compile(pattern, false)
  {
    hide Compile;
    tokens := [];
    var escaped := false;
    assert pattern[0..] == pattern && tokens + Compile(pattern, false) == Compile(pattern, false);
    for i := 0 to |pattern|
      invariant tokens + Compile(pattern[i..], escaped) == Compile(pattern, false)
    {
      CompileNext(tokens, pattern, i, escaped);
      var b := pattern[i];
      if escaped {
        tokens := tokens + [Literal(b)];
        escaped := false;
      } else if b == BACKSLASH {
        escaped := true;
      } else if b == STAR {
        tokens := tokens + [Star];
      } else if b == QUERY {
        tokens := tokens + [One];
      } else {
        tokens := tokens + [Literal(b)];
      }
    }
    CompileEnd(tokens, pattern[|pattern|..], escaped);
    if escaped {
      tokens := tokens + [Literal(BACKSLASH)];
    }
  }

  /** What one byte adds to the tokens so far. */
  lemma CompileNext(tokens: seq<Token>, pattern: seq<byte>, i: nat, escaped: bool)
    requires i < |pattern|
    ensures var b := pattern[i]; var rest := pattern[i + 1..];
            tokens + Compile(pattern[i..], escaped) ==
            if escaped then (tokens + [Literal(b)]) + Compile(rest, false)
            else if b == BACKSLASH then tokens + Compile(rest, true)
            else (tokens + [if b == STAR then Star else if b == QUERY then One else Literal(b)]) + Compile(rest, false)
  {
    var b, rest := pattern[i], pattern[i + 1..];
    assert pattern[i..][0] == b && pattern[i..][1..] == rest;
    var t := if escaped then Literal(b) else if b == STAR then Star else if b == QUERY then One else Literal(b);
    assert tokens + ([t] + Compile(rest, false)) == (tokens + [t]) + Compile(rest, false);
  }

  lemma CompileEnd(tokens: seq<Token>, none: seq<byte>, escaped: bool)
    requires none == []
    ensures tokens + Compile(none, escaped) == if escaped then tokens + [Literal(BACKSLASH)] else tokens
  {
    assert tokens + [] == tokens;
  }

  /** A value written as a pattern, with a backslash before each special byte. */
  function Quote(v: seq<byte>): seq<byte> {
    if v == [] then []
    else (if v[0] == STAR || v[0] == QUERY || v[0] == BACKSLASH then [BACKSLASH, v[0]] else [v[0]]) + Quote(v[1..])
  }

  /** Escaping works: the pattern of a quoted value matches that value and nothing else. */
  lemma {:induction false} QuotedMatchesItself(v: seq<byte>, w: seq<byte>)
    ensures Matches(Compile(Quote(v), false), w) <==> w == v
    decreases |v|
  {
    if v != [] {
      var q := Quote(v);
      CompileQuoted(v);
      assert Compile(q, false)[1..] == Compile(Quote(v[1..]), false);
      if w != [] {
        QuotedMatchesItself(v[1..], w[1..]);
        assert w[0] == v[0] && w[1..] == v[1..] ==> w == v by {
          assert w == [w[0]] + w[1..] && v == [v[0]] + v[1..];
        }
      }
    }
  }

  /** An unquoted '*', byte 42, between two quoted values stands for any bytes. */
  lemma StarBetween(v: seq<byte>, w: seq<byte>, u: seq<byte>)
    ensures Matches(Compile(Quote(v) + [42] + Quote(w), false), u) <==> exists m: seq<byte> :: u == v + m + w
  {
    hide Matches, Compile, Quote;
    QuotedThen(v, [42] + Quote(w), u);
    assert Quote(v) + [42] + Quote(w) == Quote(v) + ([42] + Quote(w));
    if v <= u {
      StarThen(w, u[|v|..]);
      if exists m: seq<byte> :: u[|v|..] == m + w {
        var m: seq<byte> :| u[|v|..] == m + w;
        assert u == v + m + w;
      }
    }
    if exists m: seq<byte> :: u == v + m + w {
      var m: seq<byte> :| u == v + m + w;
      assert u[|v|..] == m + w;
    }
  }

  lemma StarThen(w: seq<byte>, u: seq<byte>)
    ensures Matches(Compile([42] + Quote(w), false), u) <==> exists m: seq<byte> :: u == m + w
  {
    CompileSpecial(42, Quote(w));
    hide Compile, Quote;
    var p := Compile([42] + Quote(w), false);
    assert p[0] == Star && p[1..] == Compile(Quote(w), false);
    StarSplits(p, u);
    hide Matches;
    if exists k :: 0 <= k <= |u| && Matches(p[1..], u[k..]) {
      var k :| 0 <= k <= |u| && Matches(p[1..], u[k..]);
      QuotedMatchesItself(w, u[k..]);
      assert u == u[..k] + w;
    }
    if exists m: seq<byte> :: u == m + w {
      var m: seq<byte> :| u == m + w;
      assert u[|m|..] == w;
      QuotedMatchesItself(w, u[|m|..]);
    }
  }

  lemma StarSplits(p: seq<Token>, u: seq<byte>)
    requires p != [] && p[0].Star?
    ensures Matches(p, u) <==> exists k :: 0 <= k <= |u| && Matches(p[1..], u[k..])
  {
  }

  /** An unquoted '?', byte 63, stands for exactly one byte. */
  lemma QueryBetween(v: seq<byte>, w: seq<byte>, u: seq<byte>)
    ensures Matches(Compile(Quote(v) + [63] + Quote(w), false), u) <==> exists b: byte :: u == v + [b] + w
  {
    hide Matches, Compile, Quote;
    QuotedThen(v, [63] + Quote(w), u);
    assert Quote(v) + [63] + Quote(w) == Quote(v) + ([63] + Quote(w));
    if v <= u {
      QueryThen(w, u[|v|..]);
      if exists b: byte :: u[|v|..] == [b] + w {
        var b: byte :| u[|v|..] == [b] + w;
        assert u == v + [b] + w;
      }
    }
    if exists b: byte :: u == v + [b] + w {
      var b: byte :| u == v + [b] + w;
      assert u[|v|..] == [b] + w;
    }
  }

  lemma QueryThen(w: seq<byte>, u: seq<byte>)
    ensures Matches(Compile([63] + Quote(w), false), u) <==> exists b: byte :: u == [b] + w
  {
    CompileSpecial(63, Quote(w));
    hide Compile, Quote;
    var p := Compile([63] + Quote(w), false);
    assert p[0] == One && p[1..] == Compile(Quote(w), false);
    if u != [] {
      QuotedMatchesItself(w, u[1..]);
      assert u == [u[0]] + u[1..];
    }
    if exists b: byte :: u == [b] + w {
      var b: byte :| u == [b] + w;
      assert u[1..] == w;
    }
  }

  lemma CompileSpecial(b: byte, rest: seq<byte>)
    requires b == 42 || b == 63
    ensures Compile([b] + rest, false) == [if b == 42 then Star else One] + Compile(rest, false)
  {
    assert ([b] + rest)[1..] == rest;
  }

  /** A quoted value in front of a pattern. */
  lemma {:induction false} QuotedThen(v: seq<byte>, tail: seq<byte>, u: seq<byte>)
    ensures Matches(Compile(Quote(v) + tail, false), u) <==> v <= u && Matches(Compile(tail, false), u[|v|..])
    decreases |v|
  {
    if v == [] {
      assert Quote(v) + tail == tail && u[0..] == u;
    } else {
      CompileQuotedThen(v, tail);
      var p := Compile(Quote(v) + tail, false);
      assert p[0] == Literal(v[0]) && p[1..] == Compile(Quote(v[1..]) + tail, false);
      if u != [] {
        QuotedThen(v[1..], tail, u[1..]);
        assert v <= u <==> v[0] == u[0] && v[1..] <= u[1..] by {
          assert v == [v[0]] + v[1..] && u == [u[0]] + u[1..];
        }
        if v <= u { assert u[1..][|v| - 1..] == u[|v|..]; }
      }
    }
  }

  lemma CompileQuotedThen(v: seq<byte>, tail: seq<byte>)
    requires v != []
    ensures Compile(Quote(v) + tail, false) == [Literal(v[0])] + Compile(Quote(v[1..]) + tail, false)
  {
    var rest := Quote(v[1..]) + tail;
    if v[0] == STAR || v[0] == QUERY || v[0] == BACKSLASH {
      CompileEscaped(v[0], rest);
      hide Compile;
      assert Quote(v) + tail == [BACKSLASH, v[0]] + rest;
    } else {
      CompilePlain(v[0], rest);
      hide Compile;
      assert Quote(v) + tail == [v[0]] + rest;
    }
  }

  lemma CompilePlain(b: byte, rest: seq<byte>)
    requires b != STAR && b != QUERY && b != BACKSLASH
    ensures Compile([b] + rest, false) == [Literal(b)] + Compile(rest, false)
  {
    assert ([b] + rest)[1..] == rest;
  }

  lemma CompileQuoted(v: seq<byte>)
    requires v != []
    ensures Compile(Quote(v), false) == [Literal(v[0])] + Compile(Quote(v[1..]), false)
  {
    var rest := Quote(v[1..]);
    if v[0] == STAR || v[0] == QUERY || v[0] == BACKSLASH {
      CompileEscaped(v[0], rest);
    } else {
      var q := [v[0]] + rest;
      assert q[1..] == rest;
    }
  }

  /** A backslash, byte 92, makes any byte stand for itself. */
  lemma CompileEscaped(b: byte, rest: seq<byte>)
    ensures Compile([92, b] + rest, false) == [Literal(b)] + Compile(rest, false)
  {
    var q := [BACKSLASH, b] + rest;
    assert q[1..] == [b] + rest;
    assert ([b] + rest)[1..] == rest;
    assert Compile(q, false) == Compile([b] + rest, true);
  }

  // ---------------------------------------------------------------- matching

  predicate NoStar(p: seq<Token>) {
    forall i | 0 <= i < |p| :: !p[i].Star?
  }

  /** Star-free tokens use up one byte each. */
  lemma {:induction false} AfterFixed(p: seq<Token>, n: nat, v: seq<byte>)
    requires n <= |p| && NoStar(p[..n]) && Matches(p, v)
    ensures n <= |v| && Matches(p[n..], v[n..])
    decreases n
  {
    if n == 0 {
      assert p[0..] == p && v[0..] == v;
    } else {
      assert !p[..n][0].Star?;
      assert p[1..][..n - 1] == p[..n][1..];
      AfterFixed(p[1..], n - 1, v[1..]);
      assert p[1..][n - 1..] == p[n..] && v[1..][n - 1..] == v[n..];
    }
  }

  /** The backtrack point: a later start for what follows the last star. */
  ghost predicate Later(p: seq<Token>, star: nat, v: seq<byte>, start: nat)
    requires star < |p| && start <= |v|
  {
    exists k | start < k <= |v| :: Matches(p[star + 1..], v[k..])
  }

  /** A new star makes the old backtrack point superfluous: between the two stars every token uses
      one byte, so a later start of the first part is a later end of it. */
  lemma NewStarCoversOld(p: seq<Token>, star: nat, i: nat, v: seq<byte>, start: nat)
    requires star < i < |p| && p[i].Star? && NoStar(p[star + 1..i])
    requires start + (i - star - 1) <= |v| && Later(p, star, v, start)
    ensures Later(p, i, v, start + (i - star - 1))
  {
    var n := i - star - 1;
    var k :| start < k <= |v| && Matches(p[star + 1..], v[k..]);
    assert p[star + 1..][..n] == p[star + 1..i];
    AfterFixed(p[star + 1..], n, v[k..]);
    assert p[star + 1..][n..] == p[i..] && v[k..][n..] == v[k + n..];
    var j :| 0 <= j <= |v[k + n..]| && Matches(p[i..][1..], v[k + n..][j..]);
    assert p[i..][1..] == p[i + 1..] && v[k + n..][j..] == v[k + n + j..];
    assert Matches(p[i + 1..], v[k + n + j..]);
  }

  /** Choosing where a star ends: here, or later. */
  lemma StarHereOrLater(p: seq<Token>, i: nat, v: seq<byte>, at: nat)
    requires i < |p| && p[i].Star? && at <= |v|
    ensures Matches(p[i..], v[at..]) <==> Matches(p[i + 1..], v[at..]) || Later(p, i, v, at)
  {
    assert p[i..][1..] == p[i + 1..];
    if Matches(p[i..], v[at..]) {
      var k :| 0 <= k <= |v[at..]| && Matches(p[i..][1..], v[at..][k..]);
      assert v[at..][k..] == v[at + k..];
      assert Matches(p[i + 1..], v[at + k..]);
    }
    if Matches(p[i + 1..], v[at..]) {
      assert v[at..][0..] == v[at..];
    }
    if Later(p, i, v, at) {
      var k :| at < k <= |v| && Matches(p[i + 1..], v[k..]);
      assert v[at..][k - at..] == v[k..];
    }
  }

  lemma NextByteOrLater(p: seq<Token>, star: nat, v: seq<byte>, start: nat)
    requires star < |p| && start < |v|
    ensures Later(p, star, v, start) <==> Matches(p[star + 1..], v[start + 1..]) || Later(p, star, v, start + 1)
  {
  }

  /** Once the value is used up there is no room for a later start. */
  lemma NoRoomLater(p: seq<Token>, star: nat, i: nat, v: seq<byte>, start: nat)
    requires star < i <= |p| && NoStar(p[star + 1..i]) && start + (i - star - 1) == |v|
    ensures !Later(p, star, v, start)
  {
    var n := i - star - 1;
    forall k | start < k <= |v| ensures !Matches(p[star + 1..], v[k..]) {
      if Matches(p[star + 1..], v[k..]) {
        assert p[star + 1..][..n] == p[star + 1..i];
        AfterFixed(p[star + 1..], n, v[k..]);
        assert false;
      }
    }
  }

  lemma {:induction false} OnlyStarsLeft(p: seq<Token>)
    ensures Matches(p, []) <==> forall i | 0 <= i < |p| :: p[i].Star?
    decreases |p|
  {
    if p != [] {
      OnlyStarsLeft(p[1..]);
      var none: seq<byte> := [];
      assert none[0..] == none;
      assert (forall i | 0 <= i < |p| :: p[i].Star?) <==> p[0].Star? && forall i | 0 <= i < |p[1..]| :: p[1..][i].Star?;
    }
  }

  lemma OneStep(p: seq<Token>, i: nat, v: seq<byte>, at: nat)
    requires i <= |p| && at < |v|
    ensures (i < |p| ==> !p[i].Star?) ==>
              (Matches(p[i..], v[at..]) <==> i < |p| && Accepts(p[i], v[at]) && Matches(p[i + 1..], v[at + 1..]))
  {
    if i < |p| {
      assert p[i..][1..] == p[i + 1..] && v[at..][1..] == v[at + 1..];
    }
  }

  /** httpGlobPattern.match: greedy, yet it decides the declarative meaning. */
  method MatchGlob(p: seq<Token>, v: seq<byte>) returns (ok: bool)
    ensures ok <==> Matches(p, v)
  {
    hide Matches, Later;
    var i, at := 0, 0;
    var star, start := -1, 0;
    assert p[0..] == p && v[0..] == v;
    while at < |v|
      invariant 0 <= i <= |p| && 0 <= at <= |v| && -1 <= star < |p| && 0 <= start <= |v|
      invariant star >= 0 ==> star < i && NoStar(p[star + 1..i]) && start + (i - star - 1) == at
      invariant Matches(p, v) <==> Matches(p[i..], v[at..]) || (star >= 0 && Later(p, star, v, start))
      decreases |p| - star, |v| - start, |p| - i
    {
      OneStep(p, i, v, at);
      if i < |p| && Accepts(p[i], v[at]) {
        assert star >= 0 ==> p[star + 1..i + 1] == p[star + 1..i] + [p[i]];
        i, at := i + 1, at + 1;
      } else if i < |p| && p[i].Star? {
        StarHereOrLater(p, i, v, at);
        if star >= 0 && Later(p, star, v, start) { NewStarCoversOld(p, star, i, v, start); }
        star, start := i, at;
        i := i + 1;
      } else if star != -1 {
        NextByteOrLater(p, star, v, start);
        i, start := star + 1, start + 1;
        at := start;
      } else {
        return false;
      }
    }
    if star >= 0 { NoRoomLater(p, star, i, v, start); }
    assert v[at..] == [];
    OnlyStarsLeft(p[i..]);
    ghost var rest := i;
    while i < |p| && p[i].Star?
      invariant rest <= i <= |p| && forall k | rest <= k < i :: p[k].Star?
    {
      i := i + 1;
    }
    assert i < |p| ==> p[rest..][i - rest] == p[i];
    return i == |p|;
  }
}
