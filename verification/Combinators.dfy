/** Classifier trees (sniffer/combinators.go, sniffer/basic.go): And, Or, Not, Limit and Prefix, fed
    in chunks, against the three-valued meaning of the tree on the bytes fed so far. */
module Combinators {
  import opened Basics
  import opened Streams

  /** A classifier tree. A leaf is any classifier whose state is a function of the bytes fed. */
  datatype Tree =
    | Leaf(judge: seq<byte> -> State)
    | Prefix(want: seq<byte>)
    | And(trees: seq<Tree>)
    | Or(trees: seq<Tree>)
    | Not(tree: Tree)
    | Limit(limit: nat, tree: Tree)

  function Negated(s: State): State {
    match s
    case NeedMore => NeedMore
    case Match => Mismatch
    case Mismatch => Match
  }

  /** The state of a tree on a stream prefix, without any history. */
  function Judge(t: Tree, d: seq<byte>): State {
    match t
    case Leaf(judge) => judge(d)
    case Prefix(want) => if want <= d then Match else if d <= want then NeedMore else Mismatch
    case And(trees) =>
      if exists i | 0 <= i < |trees| :: Judge(trees[i], d) == Mismatch then Mismatch
      else if forall i | 0 <= i < |trees| :: Judge(trees[i], d) == Match then Match
      else NeedMore
    case Or(trees) =>
      if exists i | 0 <= i < |trees| :: Judge(trees[i], d) == Match then Match
      else if forall i | 0 <= i < |trees| :: Judge(trees[i], d) == Mismatch then Mismatch
      else NeedMore
    case Not(tree) => Negated(Judge(tree, d))
    case Limit(limit, tree) =>
      var s := Judge(tree, Take(d, limit));
      if s == NeedMore && |d| >= limit then Mismatch else s
  }

  /** Leaves do not take back a verdict. */
  ghost predicate Steady(t: Tree) {
    match t
    case Leaf(judge) => forall d: seq<byte>, e: seq<byte> :: judge(d) != NeedMore ==> judge(d + e) == judge(d)
    case Prefix(_) => true
    case And(trees) => forall i | 0 <= i < |trees| :: Steady(trees[i])
    case Or(trees) => forall i | 0 <= i < |trees| :: Steady(trees[i])
    case Not(tree) => Steady(tree)
    case Limit(_, tree) => Steady(tree)
  }

  /** Terminal states never change, for the whole tree. */
  lemma {:induction false} JudgeIsTerminal(t: Tree, d: seq<byte>, e: seq<byte>)
    requires Steady(t) && Judge(t, d) != NeedMore
    ensures Judge(t, d + e) == Judge(t, d)
    decreases t
  {
    match t
    case Leaf(_) =>
    case Prefix(want) =>
      if want <= d {
        assert want <= d + e;
      } else {
        PrefixMiss(want, d, e);
      }
    case And(trees) =>
      forall i | 0 <= i < |trees| && Judge(trees[i], d) != NeedMore ensures Judge(trees[i], d + e) == Judge(trees[i], d) {
        JudgeIsTerminal(trees[i], d, e);
      }
    case Or(trees) =>
      forall i | 0 <= i < |trees| && Judge(trees[i], d) != NeedMore ensures Judge(trees[i], d + e) == Judge(trees[i], d) {
        JudgeIsTerminal(trees[i], d, e);
      }
    case Not(tree) => JudgeIsTerminal(tree, d, e);
    case Limit(limit, tree) =>
      var short, long := Take(d, limit), Take(d + e, limit);
      assert long == short + long[|short|..];
      if Judge(tree, short) != NeedMore {
        JudgeIsTerminal(tree, short, long[|short|..]);
      } else {
        assert long == short;
      }
  }

  lemma PrefixMiss(want: seq<byte>, d: seq<byte>, e: seq<byte>)
    requires !(want <= d) && !(d <= want)
    ensures !(want <= d + e) && !(d + e <= want)
  {
    var k :| 0 <= k < |want| && k < |d| && want[k] != d[k];
    assert (d + e)[k] == d[k];
  }

  // ---------------------------------------------------------------- the running classifiers

  /** A classifier with its fields. */
  datatype Node =
    | LeafNode(judge: seq<byte> -> State, fed: seq<byte>)
    | PrefixNode(want: seq<byte>, offset: nat, state: State)
    | AndNode(children: seq<Node>, states: seq<State>, state: State)
    | OrNode(children: seq<Node>, states: seq<State>, state: State, matched: int)
    | NotNode(child: Node, state: State)
    | LimitNode(limit: nat, seen: nat, child: Node, state: State)

  /** The state of t after some Feed calls with the bytes d; NeedMore before the first. */
  function Now(t: Tree, d: seq<byte>, started: bool): State {
    if started then Judge(t, d) else NeedMore
  }

  /** The node is what building t and feeding it d in some chunks may have left. */
  ghost predicate Runs(n: Node, t: Tree, d: seq<byte>, started: bool)
    decreases t
  {
    && (!started ==> d == [])
    && match t
       case Leaf(judge) => n.LeafNode? && n.judge == judge && n.fed == d
       case Prefix(want) =>
         && n.PrefixNode? && n.want == want && n.state == Now(t, d, started)
         && (n.state == NeedMore ==> n.offset == |d| <= |want| && d <= want)
       case And(trees) =>
         && n.AndNode? && n.state == Now(t, d, started)
         && (n.state == NeedMore ==> ChildrenRun(n.children, n.states, t, trees, d, started))
       case Or(trees) =>
         && n.OrNode? && n.state == Now(t, d, started)
         && (n.state == NeedMore ==> ChildrenRun(n.children, n.states, t, trees, d, started))
       case Not(tree) =>
         && n.NotNode? && n.state == Now(t, d, started)
         && (n.state == NeedMore ==> Runs(n.child, tree, d, started))
       case Limit(limit, tree) =>
         && n.LimitNode? && n.limit == limit && n.state == Now(t, d, started)
         && (n.state == NeedMore ==> n.seen == |d| <= limit && Runs(n.child, tree, d, started))
  }

  /** Children that still need bytes got all of them; the others keep their verdict. */
  ghost predicate ChildrenRun(children: seq<Node>, states: seq<State>, parent: Tree, trees: seq<Tree>, d: seq<byte>, started: bool)
    requires forall i | 0 <= i < |trees| :: trees[i] < parent
    decreases parent, 0
  {
    && |children| == |states| == |trees|
    && forall i | 0 <= i < |trees| ::
         states[i] == Now(trees[i], d, started) && (states[i] == NeedMore ==> Runs(children[i], trees[i], d, started))
  }

  /** A fresh classifier. */
  function Build(t: Tree): Node {
    match t
    case Leaf(judge) => LeafNode(judge, [])
    case Prefix(want) => PrefixNode(want, 0, NeedMore)
    case And(trees) => AndNode(BuildAll(t, trees), seq(|trees|, _ => NeedMore), NeedMore)
    case Or(trees) => OrNode(BuildAll(t, trees), seq(|trees|, _ => NeedMore), NeedMore, -1)
    case Not(tree) => NotNode(Build(tree), NeedMore)
    case Limit(limit, tree) => LimitNode(limit, 0, Build(tree), NeedMore)
  }

  function BuildAll(parent: Tree, trees: seq<Tree>): (nodes: seq<Node>)
    requires forall i | 0 <= i < |trees| :: trees[i] < parent
    ensures |nodes| == |trees| && forall i | 0 <= i < |trees| :: nodes[i] == Build(trees[i])
    decreases parent, 0, |trees|
  {
    if trees == [] then [] else
      assert forall i | 0 <= i < |trees| - 1 :: trees[..|trees| - 1][i] == trees[i];
      BuildAll(parent, trees[..|trees| - 1]) + [Build(trees[|trees| - 1])]
  }

  lemma {:induction false} BuiltRuns(t: Tree)
    ensures Runs(Build(t), t, [], false)
    decreases t
  {
    match t
    case Leaf(_) =>
    case Prefix(_) =>
    case And(trees) => forall i | 0 <= i < |trees| ensures Runs(Build(trees[i]), trees[i], [], false) { BuiltRuns(trees[i]); }
    case Or(trees) => forall i | 0 <= i < |trees| ensures Runs(Build(trees[i]), trees[i], [], false) { BuiltRuns(trees[i]); }
    case Not(tree) => BuiltRuns(tree);
    case Limit(_, tree) => BuiltRuns(tree);
  }

  /** prefixClassifier.Feed. */
  method FeedPrefix(n: Node, p: seq<byte>, ghost d: seq<byte>, ghost started: bool) returns (m: Node, r: State)
    requires n.PrefixNode? && Runs(n, Prefix(n.want), d, started)
    ensures Runs(m, Prefix(n.want), d + p, true) && r == Judge(Prefix(n.want), d + p)
  {
    var want := n.want;
    if n.state != NeedMore {
      JudgeIsTerminal(Prefix(want), d, p);
      return n, n.state;
    }
    if |want| == 0 {
      return PrefixNode(want, n.offset, Match), Match;
    }
    var offset := n.offset;
    for i := 0 to |p|
      invariant offset == |d| + i < |want| && d + p[..i] <= want
    {
      assert p[..i + 1] == p[..i] + [p[i]];
      assert (d + p)[offset] == p[i];
      if p[i] != want[offset] {
        return PrefixNode(want, offset, Mismatch), Mismatch;
      }
      offset := offset + 1;
      assert d + p[..i + 1] <= want;
      if offset == |want| {
        assert want == d + p[..i + 1];
        return PrefixNode(want, offset, Match), Match;
      }
    }
    assert p[..|p|] == p;
    return PrefixNode(want, offset, NeedMore), NeedMore;
  }

  /** The child that decides an Or. */
  predicate Deciding(trees: seq<Tree>, d: seq<byte>, i: int) {
    0 <= i < |trees| && Judge(trees[i], d) == Match && forall k | 0 <= k < i :: Judge(trees[k], d) != Match
  }

  /** Feed of any classifier: the result is the meaning of the tree on everything fed so far. */
  method Feed(n: Node, p: seq<byte>, ghost t: Tree, ghost d: seq<byte>, ghost started: bool) returns (m: Node, r: State)
    requires Steady(t) && Runs(n, t, d, started)
    ensures Runs(m, t, d + p, true) && r == Judge(t, d + p)
    ensures n.OrNode? && n.state != NeedMore ==> m == n
    ensures n.OrNode? && n.state == NeedMore && r == Match ==> m.OrNode? && m.state == Match && Deciding(t.trees, d + p, m.matched)
    decreases n, 2
  {
    if !n.LeafNode? && n.state != NeedMore {
      JudgeIsTerminal(t, d, p);
      return n, n.state;
    }
    match n
    case LeafNode(judge, fed) => m, r := LeafNode(judge, fed + p), judge(fed + p);
    case PrefixNode(_, _, _) => m, r := FeedPrefix(n, p, d, started);
    case AndNode(_, _, _) => m, r := FeedAnd(n, p, t, d, started);
    case OrNode(_, _, _, _) => m, r := FeedOr(n, p, t, d, started);
    case NotNode(child, _) =>
      var c, s := Feed(child, p, t.tree, d, started);
      r := Negated(s);
      m := NotNode(c, r);
    case LimitNode(limit, seen, child, _) =>
      var remaining := limit - seen;
      var q := if remaining < |p| then p[..remaining] else p;
      var c, s := Feed(child, q, t.tree, d, started);
      assert d + q == Take(d + p, limit);
      r := if s == NeedMore && seen + |q| == limit then Mismatch else s;
      m := LimitNode(limit, seen + |q|, c, r);
  }

  /** One child of And or Or: fed if it still needs bytes. */
  method FeedChild(child: Node, state: State, p: seq<byte>, ghost t: Tree, ghost d: seq<byte>, ghost started: bool)
    returns (c: Node, s: State)
    requires Steady(t) && state == Now(t, d, started) && (state == NeedMore ==> Runs(child, t, d, started))
    ensures s == Judge(t, d + p) && (s == NeedMore ==> Runs(c, t, d + p, true))
    decreases child, 3
  {
    if state == NeedMore {
      c, s := Feed(child, p, t, d, started);
    } else {
      JudgeIsTerminal(t, d, p);
      c, s := child, state;
    }
  }

  method FeedAnd(n: Node, p: seq<byte>, ghost t: Tree, ghost d: seq<byte>, ghost started: bool) returns (m: Node, r: State)
    requires n.AndNode? && n.state == NeedMore && Steady(t) && Runs(n, t, d, started)
    ensures Runs(m, t, d + p, true) && r == Judge(t, d + p)
    decreases n, 1
  {
    var children, states := n.children, n.states;
    if |children| == 0 {
      return AndNode(children, states, Match), Match;
    }
    var all := true;
    for i := 0 to |children|
      invariant |children| == |states| == |n.children|
      invariant forall k | 0 <= k < i ::
                  states[k] == Judge(t.trees[k], d + p) != Mismatch && (states[k] == NeedMore ==> Runs(children[k], t.trees[k], d + p, true))
      invariant forall k | i <= k < |children| :: children[k] == n.children[k] && states[k] == n.states[k]
      invariant all <==> forall k | 0 <= k < i :: states[k] == Match
    {
      var c, s := FeedChild(children[i], states[i], p, t.trees[i], d, started);
      children, states := children[i := c], states[i := s];
      if s == Mismatch {
        return AndNode(children, states, Mismatch), Mismatch;
      }
      if s != Match { all := false; }
    }
    r := if all then Match else NeedMore;
    m := AndNode(children, states, r);
  }

  method FeedOr(n: Node, p: seq<byte>, ghost t: Tree, ghost d: seq<byte>, ghost started: bool) returns (m: Node, r: State)
    requires n.OrNode? && n.state == NeedMore && Steady(t) && Runs(n, t, d, started)
    ensures Runs(m, t, d + p, true) && r == Judge(t, d + p)
    ensures r == Match ==> m.OrNode? && m.state == Match && Deciding(t.trees, d + p, m.matched)
    decreases n, 1
  {
    var children, states := n.children, n.states;
    if |children| == 0 {
      return OrNode(children, states, Mismatch, n.matched), Mismatch;
    }
    var all := true;
    for i := 0 to |children|
      invariant |children| == |states| == |n.children|
      invariant forall k | 0 <= k < i ::
                  states[k] == Judge(t.trees[k], d + p) != Match && (states[k] == NeedMore ==> Runs(children[k], t.trees[k], d + p, true))
      invariant forall k | i <= k < |children| :: children[k] == n.children[k] && states[k] == n.states[k]
      invariant all <==> forall k | 0 <= k < i :: states[k] == Mismatch
    {
      var c, s := FeedChild(children[i], states[i], p, t.trees[i], d, started);
      children, states := children[i := c], states[i := s];
      if s == Match {
        return OrNode(children, states, Match, i), Match;
      }
      if s != Mismatch { all := false; }
    }
    r := if all then Mismatch else NeedMore;
    m := OrNode(children, states, r, n.matched);
  }

  // ---------------------------------------------------------------- streams in chunks

  /** The deciding child of an Or that is fed these chunks: the lowest child that matches at the end
      of the first chunk after which some child does. */
  ghost predicate DecidedBy(t: Tree, chunks: seq<seq<byte>>, j: int)
    requires t.Or?
  {
    exists c :: 1 <= c <= |chunks| && FirstAt(t, chunks, c) && Deciding(t.trees, Flatten(chunks[..c]), j)
  }

  predicate FirstAt(t: Tree, chunks: seq<seq<byte>>, c: int)
    requires 1 <= c <= |chunks|
  {
    Judge(t, Flatten(chunks[..c])) == Match && (c > 1 ==> Judge(t, Flatten(chunks[..c - 1])) != Match)
  }

  lemma DecidedStays(t: Tree, chunks: seq<seq<byte>>, i: nat, j: int)
    requires t.Or? && i < |chunks| && DecidedBy(t, chunks[..i], j)
    ensures DecidedBy(t, chunks[..i + 1], j)
  {
    hide Judge, Deciding;
    var c :| 1 <= c <= i && FirstAt(t, chunks[..i], c) && Deciding(t.trees, Flatten(chunks[..i][..c]), j);
    assert chunks[..i][..c] == chunks[..i + 1][..c] && chunks[..i][..c - 1] == chunks[..i + 1][..c - 1];
  }

  lemma DecidedNow(t: Tree, chunks: seq<seq<byte>>, i: nat, j: int)
    requires t.Or? && i < |chunks| && Deciding(t.trees, Flatten(chunks[..i + 1]), j)
    requires Judge(t, Flatten(chunks[..i + 1])) == Match && (i > 0 ==> Judge(t, Flatten(chunks[..i])) != Match)
    ensures DecidedBy(t, chunks[..i + 1], j)
  {
    hide Judge, Deciding;
    var all := chunks[..i + 1];
    assert all[..i + 1] == all && all[..i] == chunks[..i];
    assert FirstAt(t, all, i + 1);
  }

  /** Chunk independence: any way of cutting the stream into one or more Feed calls ends in the
      state that the tree has on the whole stream. */
  method FeedAll(t: Tree, chunks: seq<seq<byte>>) returns (n: Node, r: State)
    requires Steady(t)
    ensures r == if chunks == [] then NeedMore else Judge(t, Flatten(chunks))
    ensures chunks != [] ==> Runs(n, t, Flatten(chunks), true)
    ensures t.Or? && r == Match ==> n.OrNode? && DecidedBy(t, chunks, n.matched)
  {
    n, r := Build(t), NeedMore;
    BuiltRuns(t);
    ghost var or := t.Or?;
    assert or ==> n.OrNode? && n.state == NeedMore;
    hide Judge, Steady, Build, Deciding, DecidedBy;
    for i := 0 to |chunks|
      invariant Runs(n, t, Flatten(chunks[..i]), i > 0)
      invariant r == if i == 0 then NeedMore else Judge(t, Flatten(chunks[..i]))
      invariant or ==> n.OrNode? && n.state == r
      invariant or && r == Match ==> DecidedBy(t, chunks[..i], n.matched)
    {
      assert chunks[..i + 1][..i] == chunks[..i];
      ghost var before, earlier := n, r;
      n, r := Feed(n, chunks[i], t, Flatten(chunks[..i]), i > 0);
      if or && r == Match {
        if earlier == Match { DecidedStays(t, chunks, i, n.matched); } else { DecidedNow(t, chunks, i, n.matched); }
      }
    }
    assert chunks[..|chunks|] == chunks;
  }

  lemma {:induction false} FlattenPrefix(chunks: seq<seq<byte>>, c: nat)
    requires c <= |chunks|
    ensures Flatten(chunks[..c]) <= Flatten(chunks)
    decreases |chunks| - c
  {
    if c < |chunks| {
      FlattenPrefix(chunks, c + 1);
      assert chunks[..c + 1][..c] == chunks[..c];
    } else {
      assert chunks[..c] == chunks;
    }
  }

  /** A child that decides at s[..n] decides at every later cut exactly if it decides at the end. */
  lemma DecidesLater(ts: seq<Tree>, s: seq<byte>, n: nat, m: nat, i: int)
    requires Steady(Or(ts)) && n <= m <= |s| && Deciding(ts, s[..n], i) && Deciding(ts, s, i)
    ensures Deciding(ts, s[..m], i)
  {
    hide Judge;
    assert s[..m] == s[..n] + s[n..m] && s == s[..m] + s[m..];
    JudgeIsTerminal(ts[i], s[..n], s[n..m]);
    forall k | 0 <= k < i ensures Judge(ts[k], s[..m]) != Match {
      if Judge(ts[k], s[..m]) == Match { JudgeIsTerminal(ts[k], s[..m], s[m..]); }
    }
  }

  lemma LowestMatch(ts: seq<Tree>, d: seq<byte>, i: int) returns (j: int)
    requires 0 <= i < |ts| && Judge(ts[i], d) == Match
    ensures Deciding(ts, d, j) && j <= i
  {
    hide Judge;
    j := 0;
    while Judge(ts[j], d) != Match
      invariant 0 <= j <= i && forall k | 0 <= k < j :: Judge(ts[k], d) != Match
      decreases i - j
    {
      j := j + 1;
    }
  }

  /** The deciding child, and with it the metadata, is the same for every way of cutting a stream if
      and only if no lower child comes to match by the end of the stream. Here i decides at the
      earliest prefix with a match. */
  lemma DecidingChildIff(t: Tree, s: seq<byte>, n: nat, i: int)
    requires t.Or? && Steady(t) && n <= |s| && Deciding(t.trees, s[..n], i)
    requires forall k | 0 <= k < n :: Judge(t, s[..k]) != Match
    ensures (forall chunks: seq<seq<byte>>, j: int :: Flatten(chunks) == s && DecidedBy(t, chunks, j) ==> j == i)
       <==> Deciding(t.trees, s, i)
  {
    var ts := t.trees;
    if Deciding(ts, s, i) {
      forall chunks: seq<seq<byte>>, j: int | Flatten(chunks) == s && DecidedBy(t, chunks, j) ensures j == i {
        var c :| 1 <= c <= |chunks| && FirstAt(t, chunks, c) && Deciding(ts, Flatten(chunks[..c]), j);
        FlattenPrefix(chunks, c);
        var m := |Flatten(chunks[..c])|;
        assert Flatten(chunks[..c]) == s[..m];
        DecidesLater(ts, s, n, m, i);
      }
    } else {
      assert s == s[..n] + s[n..];
      JudgeIsTerminal(ts[i], s[..n], s[n..]);
      var j := LowestMatch(ts, s, i);
      var whole := [s];
      assert whole[..1] == whole && whole[..0] == [];
      assert Flatten(whole) == Flatten(whole[..0]) + s == s;
      assert Judge(t, s) == Match;
      assert FirstAt(t, whole, 1);
      assert DecidedBy(t, whole, j);
    }
  }

  /** The two prefixes 1-2 and 1. */
  const TWO_PREFIXES := Or([Prefix([1, 2]), Prefix([1])])

  lemma TwoPrefixesJudged()
    ensures Deciding(TWO_PREFIXES.trees, [1, 2], 0) && Deciding(TWO_PREFIXES.trees, [1], 1)
    ensures Judge(TWO_PREFIXES, [1]) == Judge(TWO_PREFIXES, [1, 2]) == Match
  {
    var one: seq<byte> := [1];
    var two: seq<byte> := [1, 2];
    var ts := TWO_PREFIXES.trees;
    assert one <= two && one <= one && two <= two && !(two <= one);
    assert Judge(ts[0], one) == NeedMore && Judge(ts[1], one) == Match && Judge(ts[0], two) == Match;
  }

  lemma OneChunk(j: int)
    ensures Flatten([[1, 2]]) == [1, 2]
    ensures DecidedBy(TWO_PREFIXES, [[1, 2]], j) ==> j == 0
  {
    TwoPrefixesJudged();
    hide Judge, Deciding;
    var chunks: seq<seq<byte>> := [[1, 2]];
    assert chunks[..1] == chunks && chunks[..0] == [];
    assert Flatten(chunks) == Flatten(chunks[..0]) + [1, 2];
    OnlyOneDecides(TWO_PREFIXES.trees, [1, 2], 0, j);
  }

  lemma TwoChunks(j: int)
    ensures Flatten([[1], [2]]) == [1, 2]
    ensures DecidedBy(TWO_PREFIXES, [[1], [2]], j) ==> j == 1
  {
    TwoPrefixesJudged();
    hide Judge, Deciding;
    var chunks: seq<seq<byte>> := [[1], [2]];
    assert chunks[..2] == chunks && chunks[..1][..0] == [];
    var one: seq<byte> := [1];
    assert Flatten(chunks[..1]) == Flatten(chunks[..1][..0]) + one == one;
    assert Flatten(chunks) == Flatten(chunks[..1]) + [2];
    assert Judge(TWO_PREFIXES, Flatten(chunks[..1])) == Match;
    assert !FirstAt(TWO_PREFIXES, chunks, 2);
    OnlyOneDecides(TWO_PREFIXES.trees, one, 1, j);
  }

  lemma OnlyOneDecides(ts: seq<Tree>, d: seq<byte>, i: int, j: int)
    requires Deciding(ts, d, i)
    ensures Deciding(ts, d, j) ==> j == i
  {
  }

  /** The same two bytes in one call and in two: the first child decides, then the second. */
  method DecidingChildDependsOnCuts() returns (whole: int, cut: int)
    ensures whole == 0 && cut == 1
  {
    var t := TWO_PREFIXES;
    TwoPrefixesJudged();
    assert Steady(t);
    hide Judge, Steady, Deciding, DecidedBy, Runs, Flatten;
    OneChunk(0);
    TwoChunks(0);
    var n, r := FeedAll(t, [[1, 2]]);
    var m, q := FeedAll(t, [[1], [2]]);
    OneChunk(n.matched);
    TwoChunks(m.matched);
    return n.matched, m.matched;
  }
}
