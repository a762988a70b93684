/** Sniff (sniffer/sniff.go): classify the start of a stream and put back every byte read. */
module Sniff {
  import opened Basics
  import opened Streams
  import opened Combinators
  import Putback
  import TlsHello

  const NO_MATCH := -1

  // ---------------------------------------------------------------- the choice, without reads

  /** No classifier matches any of the first n prefixes. */
  ghost predicate Quiet(ts: seq<Tree>, s: seq<byte>, n: int) {
    forall k, i | 0 <= k <= n && k <= |s| && 0 <= i < |ts| :: Judge(ts[i], s[..k]) != Match
  }

  /** Byte n is the first to bring a match, and i is the lowest index that matches there. */
  ghost predicate Chosen(ts: seq<Tree>, s: seq<byte>, n: nat, i: int) {
    n <= |s| && Deciding(ts, s[..n], i) && Quiet(ts, s, n - 1)
  }

  predicate AllOut(ts: seq<Tree>, s: seq<byte>) {
    forall i | 0 <= i < |ts| :: Judge(ts[i], s) == Mismatch
  }

  /** Byte n settles the matter: a match is chosen there, or every classifier is out. */
  ghost predicate Decided(ts: seq<Tree>, s: seq<byte>, n: nat, i: int) {
    n <= |s| && if i != NO_MATCH then Chosen(ts, s, n, i) else Quiet(ts, s, n) && AllOut(ts, s[..n])
  }

  ghost predicate AllSteady(ts: seq<Tree>) {
    forall i | 0 <= i < |ts| :: Steady(ts[i])
  }

  /** The answer for a stream of bytes that ends in an error, within a byte budget. */
  ghost predicate Answer(ts: seq<Tree>, s: seq<byte>, end: Putback.Error, budget: nat, index: int, err: Option<Putback.Error>) {
    if index != NO_MATCH then err == None && exists n | 0 <= n <= budget :: Chosen(ts, s, n, index)
    else
      && Quiet(ts, s, budget)
      && err == if |s| < budget && !AllOut(ts, s) then Some(end) else None
  }

  /** The answer is unique: it depends on the stream, the budget and the error, on nothing else. */
  lemma AnswerIsUnique(ts: seq<Tree>, s: seq<byte>, end: Putback.Error, budget: nat,
                       i: int, e: Option<Putback.Error>, j: int, f: Option<Putback.Error>)
    requires Answer(ts, s, end, budget, i, e) && Answer(ts, s, end, budget, j, f)
    ensures i == j && e == f
  {
    hide Judge;
    if i != NO_MATCH && j != NO_MATCH {
      var m :| 0 <= m <= budget && Chosen(ts, s, m, i);
      var n :| 0 <= n <= budget && Chosen(ts, s, n, j);
      assert m == n;
    }
  }

  /** Once every classifier is out, nothing can match any more. */
  lemma OutStaysOut(ts: seq<Tree>, s: seq<byte>, n: nat, m: nat)
    requires AllSteady(ts) && n <= m <= |s| && AllOut(ts, s[..n])
    ensures AllOut(ts, s[..m])
  {
    hide Judge;
    assert s[..m] == s[..n] + s[n..m];
    forall i | 0 <= i < |ts| ensures Judge(ts[i], s[..m]) == Mismatch {
      JudgeIsTerminal(ts[i], s[..n], s[n..m]);
    }
  }

  lemma OutAnswers(ts: seq<Tree>, s: seq<byte>, end: Putback.Error, budget: nat, n: nat)
    requires AllSteady(ts) && n <= |s| && Quiet(ts, s, n) && AllOut(ts, s[..n])
    ensures Answer(ts, s, end, budget, NO_MATCH, None)
  {
    hide Judge;
    forall k, i | 0 <= k <= |s| && 0 <= i < |ts| ensures Judge(ts[i], s[..k]) != Match {
      if k > n { OutStaysOut(ts, s, n, k); }
    }
    OutStaysOut(ts, s, n, |s|);
    assert s[..|s|] == s;
  }

  /** The TLS classifier is a leaf that these results cover. */
  lemma TlsIsSteady(accept: seq<byte> -> bool, max: nat)
    ensures Steady(Leaf((d: seq<byte>) => TlsHello.Lazy(accept, max, d)))
  {
    hide TlsHello.Lazy;
    forall d: seq<byte>, e: seq<byte> | TlsHello.Lazy(accept, max, d) != NeedMore
      ensures TlsHello.Lazy(accept, max, d + e) == TlsHello.Lazy(accept, max, d)
    {
      TlsHello.LazyIsTerminal(accept, max, d, e);
    }
  }

  // ---------------------------------------------------------------- the running classifiers

  /** The classifiers after their first Feed and the bytes d. */
  ghost predicate Fed(nodes: seq<Node>, states: seq<State>, ts: seq<Tree>, d: seq<byte>) {
    && |nodes| == |states| == |ts|
    && forall i | 0 <= i < |ts| ::
         states[i] == Judge(ts[i], d) && (states[i] == NeedMore ==> Runs(nodes[i], ts[i], d, true))
  }

  function Count(states: seq<State>): (n: nat)
    ensures n == 0 <==> forall i | 0 <= i < |states| :: states[i] != NeedMore
  {
    if states == [] then 0
    else Count(states[..|states| - 1]) + if states[|states| - 1] == NeedMore then 1 else 0
  }

  lemma {:induction false} CountSet(states: seq<State>, i: nat, s: State)
    requires i < |states| && states[i] == NeedMore
    ensures Count(states[i := s]) == Count(states) - if s == NeedMore then 0 else 1
    decreases |states|
  {
    var n := |states| - 1;
    if i == n {
      assert states[i := s][..n] == states[..n];
    } else {
      assert states[i := s][..n] == states[..n][i := s];
      CountSet(states[..n], i, s);
    }
  }

  lemma CountAppend(states: seq<State>, s: State)
    ensures Count(states + [s]) == Count(states) + if s == NeedMore then 1 else 0
  {
    assert (states + [s])[..|states|] == states;
  }

  /** One byte to every classifier that still needs bytes. */
  method FeedByte(nodes0: seq<Node>, states0: seq<State>, active0: int, b: byte, ghost ts: seq<Tree>, ghost d: seq<byte>)
    returns (nodes: seq<Node>, states: seq<State>, active: int, matching: int)
    requires AllSteady(ts) && Fed(nodes0, states0, ts, d) && active0 == Count(states0)
    requires forall i | 0 <= i < |ts| :: states0[i] != Match
    ensures Fed(nodes, states, ts, d + [b]) && active == Count(states)
    ensures if matching == NO_MATCH then forall i | 0 <= i < |ts| :: states[i] != Match else Deciding(ts, d + [b], matching)
  {
    hide Judge, Runs, Count;
    nodes, states, active, matching := nodes0, states0, active0, NO_MATCH;
    for i := 0 to |nodes0|
      invariant |nodes| == |states| == |ts| && active == Count(states)
      invariant forall k | 0 <= k < i ::
                  states[k] == Judge(ts[k], d + [b]) && (states[k] == NeedMore ==> Runs(nodes[k], ts[k], d + [b], true))
      invariant forall k | i <= k < |ts| :: states[k] == states0[k] && nodes[k] == nodes0[k]
      invariant if matching == NO_MATCH then forall k | 0 <= k < i :: states[k] != Match
                else 0 <= matching < i && states[matching] == Match && forall k | 0 <= k < matching :: states[k] != Match
    {
      if states[i] != NeedMore {
        JudgeIsTerminal(ts[i], d, [b]);
        continue;
      }
      var node, state := Feed(nodes[i], [b], ts[i], d, true);
      CountSet(states, i, state);
      nodes, states := nodes[i := node], states[i := state];
      if state == Match && matching == NO_MATCH {
        matching := i;
      }
      if state != NeedMore {
        active := active - 1;
      }
    }
  }

  lemma NoMatchYet(nodes: seq<Node>, states: seq<State>, ts: seq<Tree>, s: seq<byte>, n: nat)
    requires n <= |s| && Fed(nodes, states, ts, s[..n]) && Quiet(ts, s, n)
    ensures forall i | 0 <= i < |ts| :: states[i] != Match
  {
    hide Judge, Runs;
    forall i | 0 <= i < |ts| ensures states[i] != Match {
      assert Judge(ts[i], s[..n]) != Match;
    }
  }

  lemma StillQuiet(nodes: seq<Node>, states: seq<State>, ts: seq<Tree>, s: seq<byte>, n: nat)
    requires n < |s| && Quiet(ts, s, n) && Fed(nodes, states, ts, s[..n + 1])
    requires forall i | 0 <= i < |ts| :: states[i] != Match
    ensures Quiet(ts, s, n + 1)
  {
    hide Judge, Runs;
  }

  /** The bytes of one read, one at a time; an outcome ends the sniffing. */
  method Scan(nodes0: seq<Node>, states0: seq<State>, active0: int, buffer: array<byte>, from: nat, to: nat,
              ghost ts: seq<Tree>, ghost s: seq<byte>)
    returns (nodes: seq<Node>, states: seq<State>, active: int, outcome: Option<int>)
    requires from <= to <= buffer.Length && to <= |s| && buffer[from..to] == s[from..to]
    requires AllSteady(ts) && Fed(nodes0, states0, ts, s[..from]) && active0 == Count(states0) > 0 && Quiet(ts, s, from)
    ensures outcome == None ==> Fed(nodes, states, ts, s[..to]) && active == Count(states) > 0 && Quiet(ts, s, to)
    ensures outcome.Some? ==> exists n | from < n <= to :: Decided(ts, s, n, outcome.value)
  {
    hide Judge, Runs, Steady, Fed, Quiet, Count;
    nodes, states, active := nodes0, states0, active0;
    for offset := from to to
      invariant Fed(nodes, states, ts, s[..offset]) && active == Count(states) > 0 && Quiet(ts, s, offset)
    {
      var b := buffer[offset];
      assert b == buffer[from..to][offset - from] == s[offset];
      assert s[..offset + 1] == s[..offset] + [b];
      NoMatchYet(nodes, states, ts, s, offset);
      LengthsAgree(nodes, states, ts, s[..offset]);
      var matching;
      nodes, states, active, matching := FeedByte(nodes, states, active, b, ts, s[..offset]);
      LengthsAgree(nodes, states, ts, s[..offset + 1]);
      if matching != NO_MATCH {
        assert Decided(ts, s, offset + 1, matching);
        return nodes, states, active, Some(matching);
      }
      StillQuiet(nodes, states, ts, s, offset);
      if active == 0 {
        AllOutNow(nodes, states, ts, s[..offset + 1]);
        assert Decided(ts, s, offset + 1, NO_MATCH);
        return nodes, states, active, Some(NO_MATCH);
      }
    }
    outcome := None;
  }

  lemma LengthsAgree(nodes: seq<Node>, states: seq<State>, ts: seq<Tree>, d: seq<byte>)
    requires Fed(nodes, states, ts, d)
    ensures |nodes| == |states| == |ts|
  {
  }

  ghost predicate StartedUpTo(nodes: seq<Node>, states: seq<State>, ts: seq<Tree>, n: nat) {
    && |nodes| == |states| == n <= |ts|
    && forall k | 0 <= k < n ::
         states[k] == Judge(ts[k], []) != Match && (states[k] == NeedMore ==> Runs(nodes[k], ts[k], [], true))
  }

  lemma StartedMore(nodes: seq<Node>, states: seq<State>, ts: seq<Tree>, n: nat, node: Node, state: State)
    requires StartedUpTo(nodes, states, ts, n) && n < |ts| && state == Judge(ts[n], []) != Match && Runs(node, ts[n], [], true)
    ensures StartedUpTo(nodes + [node], states + [state], ts, n + 1)
  {
    hide Judge, Runs;
  }

  method StartOne(t: Tree) returns (node: Node, state: State)
    requires Steady(t)
    ensures Runs(node, t, [], true) && state == Judge(t, [])
  {
    hide Judge, Runs, Steady;
    BuiltRuns(t);
    var none: seq<byte> := [];
    assert none + none == none;
    node, state := Feed(Build(t), none, t, none, false);
  }

  /** The first, empty Feed. */
  method Start(ts: seq<Tree>) returns (nodes: seq<Node>, states: seq<State>, active: int, first: int)
    requires AllSteady(ts)
    ensures first != NO_MATCH ==> Deciding(ts, [], first)
    ensures first == NO_MATCH ==> Fed(nodes, states, ts, []) && active == Count(states) && forall i | 0 <= i < |ts| :: states[i] != Match
  {
    nodes, states, active := [], [], 0;
    assert active == Count(states);
    hide Judge, Runs, Steady, Count;
    for i := 0 to |ts|
      invariant StartedUpTo(nodes, states, ts, i) && active == Count(states)
    {
      var node, state := StartOne(ts[i]);
      CountAppend(states, state);
      if state == Match {
        return nodes + [node], states + [state], active, i;
      }
      StartedMore(nodes, states, ts, i, node, state);
      nodes, states := nodes + [node], states + [state];
      if state == NeedMore {
        active := active + 1;
      }
    }
    first := NO_MATCH;
  }

  /** One read into the rest of the buffer. */
  method ReadMore(buffer: array<byte>, conn: Putback.Conn, used: nat, ghost s: seq<byte>) returns (n: nat, err: Option<Putback.Error>)
    requires conn.Valid() && used < buffer.Length && used <= |s| && buffer[..used] == s[..used] && conn.Unread() == s[used..]
    modifies buffer, conn, conn.source
    ensures conn.Valid() && used + n <= buffer.Length && used + n <= |s|
    ensures buffer[..used + n] == s[..used + n] && conn.Unread() == s[used + n..]
    ensures n == 0 <==> used == |s|
    ensures err == if n == 0 then Some(conn.source.end) else None
  {
    n, err := conn.Read(buffer, used);
    assert buffer[..used + n] == old(buffer[..used]) + s[used..][..n];
    assert s[..used + n] == s[..used] + s[used..][..n];
    assert s[used..][n..] == s[used + n..];
  }

  /** Sniff: the answer is a function of the stream, and the stream is as before on every exit. */
  method SniffConn(buffer: array<byte>, conn: Putback.Conn, ts: seq<Tree>) returns (index: int, err: Option<Putback.Error>)
    requires conn.Valid() && AllSteady(ts)
    modifies buffer, conn, conn.source
    ensures conn.Valid() && conn.Unread() == old(conn.Unread())
    ensures Answer(ts, old(conn.Unread()), conn.source.end, buffer.Length, index, err)
  {
    hide Judge, Runs, Steady, Answer, Count, AllOut, Deciding;
    ghost var s := conn.Unread();
    assert s[..0] == [];
    var nodes, states, active, first := Start(ts);
    if first != NO_MATCH {
      MatchAnswers(ts, s, conn.source.end, buffer.Length, 0, first);
      return first, None;
    }
    QuietStart(nodes, states, ts, s);
    hide Fed, Quiet, Chosen, Decided;
    if active == 0 {
      AllOutNow(nodes, states, ts, s[..0]);
      OutAnswers(ts, s, conn.source.end, buffer.Length, 0);
      return NO_MATCH, None;
    }
    if buffer.Length == 0 {
      QuietAnswers(ts, s, conn.source.end, buffer.Length);
      return NO_MATCH, None;
    }
    var used := 0;
    index, err := NO_MATCH, None;
    ghost var answered := false;
    while used < buffer.Length
      invariant 0 <= used <= buffer.Length && used <= |s| && conn.Valid()
      invariant buffer[..used] == s[..used] && conn.Unread() == s[used..]
      invariant Fed(nodes, states, ts, s[..used]) && active == Count(states) > 0 && Quiet(ts, s, used)
      invariant index == NO_MATCH && err == None && !answered
      decreases |s| - used
    {
      var n, readErr := ReadMore(buffer, conn, used, s);
      if n > 0 {
        var chunkStart := used;
        used := used + n;
        assert buffer[chunkStart..used] == buffer[..used][chunkStart..] == s[..used][chunkStart..];
        var outcome;
        nodes, states, active, outcome := Scan(nodes, states, active, buffer, chunkStart, used, ts, s);
        if outcome.Some? {
          index := outcome.value;
          ghost var settled :| chunkStart < settled <= used && Decided(ts, s, settled, index);
          OutcomeAnswers(ts, s, conn.source.end, buffer.Length, settled, index);
          answered := true;
          break;
        }
      }
      if readErr.Some? {
        err := readErr;
        EndAnswers(nodes, states, ts, s, conn.source.end, buffer.Length);
        answered := true;
        break;
      }
    }
    if !answered { QuietAnswers(ts, s, conn.source.end, buffer.Length); }
    conn.PutBack(buffer[..used]);
    assert s == s[..used] + s[used..];
  }

  lemma MatchAnswers(ts: seq<Tree>, s: seq<byte>, end: Putback.Error, budget: nat, n: nat, i: int)
    requires n <= budget && Chosen(ts, s, n, i)
    ensures Answer(ts, s, end, budget, i, None)
  {
    hide Judge;
  }

  lemma OutcomeAnswers(ts: seq<Tree>, s: seq<byte>, end: Putback.Error, budget: nat, n: nat, i: int)
    requires AllSteady(ts) && n <= budget && n <= |s|
    requires Decided(ts, s, n, i)
    ensures Answer(ts, s, end, budget, i, None)
  {
    hide Judge, Answer;
    if i != NO_MATCH { MatchAnswers(ts, s, end, budget, n, i); } else { OutAnswers(ts, s, end, budget, n); }
  }

  lemma QuietStart(nodes: seq<Node>, states: seq<State>, ts: seq<Tree>, s: seq<byte>)
    requires Fed(nodes, states, ts, []) && forall i | 0 <= i < |ts| :: states[i] != Match
    ensures Quiet(ts, s, 0)
  {
    hide Judge, Runs;
    assert s[..0] == [];
  }

  lemma AllOutNow(nodes: seq<Node>, states: seq<State>, ts: seq<Tree>, d: seq<byte>)
    requires Fed(nodes, states, ts, d) && Count(states) == 0 && forall i | 0 <= i < |ts| :: states[i] != Match
    ensures AllOut(ts, d)
  {
    hide Judge, Runs;
    forall i | 0 <= i < |ts| ensures Judge(ts[i], d) == Mismatch {
      assert states[i] != NeedMore && states[i] != Match;
    }
  }

  /** The budget is used up. */
  lemma QuietAnswers(ts: seq<Tree>, s: seq<byte>, end: Putback.Error, budget: nat)
    requires budget <= |s| && Quiet(ts, s, budget)
    ensures Answer(ts, s, end, budget, NO_MATCH, None)
  {
    hide Judge;
  }

  /** The stream ended while some classifier still needed bytes. */
  lemma EndAnswers(nodes: seq<Node>, states: seq<State>, ts: seq<Tree>, s: seq<byte>, end: Putback.Error, budget: nat)
    requires |s| < budget && Quiet(ts, s, |s|) && Fed(nodes, states, ts, s[..|s|]) && Count(states) > 0
    ensures Answer(ts, s, end, budget, NO_MATCH, Some(end))
  {
    hide Judge, Runs;
    assert s[..|s|] == s;
    var i :| 0 <= i < |states| && states[i] == NeedMore;
    assert Judge(ts[i], s) == NeedMore;
  }
}
