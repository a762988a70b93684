/** NewBytecodeRulesProgram: one rules text, five method programs, and the
    three-valued analysis that leaves segments out (routing/parser.go). The reference
    is the interpreter of routing/router_bytecode.go, Run. */
module Pruning {
  import opened Basics
  import opened Bytecode

  datatype Method = Dial | Listen | Lookup

  /** A source line after tokenising. An unknown operation may still be one that ends a segment:
      REMAP belongs to another dialect. */
  datatype Line = Blank | Unknown(remap: bool) | Op(inst: Instr)

  datatype Bool3 = False3 | True3 | Unknown3

  function Not3(a: Bool3): Bool3 {
    match a
    case False3 => True3
    case True3 => False3
    case Unknown3 => Unknown3
  }

  function And3(a: Bool3, b: Bool3): Bool3 {
    if a == False3 || b == False3 then False3
    else if a == True3 && b == True3 then True3
    else Unknown3
  }

  function Or3(a: Bool3, b: Bool3): Bool3 {
    if a == True3 || b == True3 then True3
    else if a == False3 && b == False3 then False3
    else Unknown3
  }

  function FromBool(b: bool): Bool3 {
    if b then True3 else False3
  }

  predicate IsMethodOp(op: byte) {
    OP_DIAL <= op <= OP_LOOKUP
  }

  /** The value of a method opcode under a target method. */
  predicate MethodOpHolds(op: byte, m: Method) {
    match m
    case Dial => op == OP_DIAL
    case Listen => op == OP_LISTEN
    case Lookup => op == OP_LOOKUP
  }

  /** What an instruction that pushes is known to push. */
  function Known(i: Instr, m: Method): Bool3 {
    if i.op == OP_TRUE then True3
    else if i.op == OP_FALSE then False3
    else if IsMethodOp(i.op) then FromBool(MethodOpHolds(i.op, m))
    else Unknown3
  }

  // ---------------------------------------------------------------- segments

  predicate EndsSegment(l: Line) {
    (l.Op? && (IsTerminal(l.inst.op) || IsForeignTerminal(l.inst.op))) || (l.Unknown? && l.remap)
  }

  /** The segments of the lines still to read, given the lines of the one being built. */
  function Segments(lines: seq<Line>, open: seq<Line>): seq<seq<Line>> {
    if lines == [] then (if open == [] then [] else [open])
    else if EndsSegment(lines[0]) then [open + [lines[0]]] + Segments(lines[1..], [])
    else Segments(lines[1..], open + [lines[0]])
  }

  /** splitBytecodeRuleSegments. */
  method SplitSegments(lines: seq<Line>) returns (segments: seq<seq<Line>>)
    ensures segments == Segments(lines, [])
  {
    segments := [];
    var segment := [];
    for k := 0 to |lines|
      invariant Segments(lines, []) == segments + Segments(lines[k..], segment)
    {
      assert lines[k..][0] == lines[k] && lines[k..][1..] == lines[k + 1..];
      ghost var before := segments;
      segment := segment + [lines[k]];
      if EndsSegment(lines[k]) {
        segments := segments + [segment];
        assert before + ([segment] + Segments(lines[k + 1..], [])) == segments + Segments(lines[k + 1..], []);
        segment := [];
      }
    }
    if |segment| > 0 {
      segments := segments + [segment];
    }
  }

  function Flatten(segs: seq<seq<Line>>): seq<Line> {
    if segs == [] then [] else segs[0] + Flatten(segs[1..])
  }

  /** Only the last line of a segment can end it. */
  predicate OneEnd(seg: seq<Line>) {
    forall i | 0 <= i < |seg| - 1 :: !EndsSegment(seg[i])
  }

  /** Segments partition the program, and every terminal closes its segment. */
  lemma {:induction false} SegmentsPartition(lines: seq<Line>, open: seq<Line>)
    requires forall i | 0 <= i < |open| :: !EndsSegment(open[i])
    ensures Flatten(Segments(lines, open)) == open + lines
    ensures forall s | s in Segments(lines, open) :: OneEnd(s)
  {
    if lines == [] {
      if open != [] {
        assert Segments(lines, open)[1..] == [];
        assert open + [] == open == open + lines;
      }
    } else if EndsSegment(lines[0]) {
      SegmentsPartition(lines[1..], []);
      var s := Segments(lines, open);
      assert s[1..] == Segments(lines[1..], []);
      assert (open + [lines[0]]) + ([] + lines[1..]) == open + lines;
    } else {
      SegmentsPartition(lines[1..], open + [lines[0]]);
      assert (open + [lines[0]]) + lines[1..] == open + lines;
    }
  }

  // ---------------------------------------------------------------- the analysis

  /** bytecodeSegmentCanTrigger from line k on, with an abstract stack. */
  function CanTriggerFrom(seg: seq<Line>, k: nat, st: seq<Bool3>, hasMethodOp: bool, m: Method): bool
    requires k <= |seg|
    decreases |seg| - k
  {
    if k == |seg| then true
    else if seg[k].Blank? then CanTriggerFrom(seg, k + 1, st, hasMethodOp, m)
    else if seg[k].Unknown? then true
    else
      var i := seg[k].inst;
      var n := |st|;
      if IsTerminal(i.op) then n < 1 || !hasMethodOp || st[n - 1] != False3
      else if i.op == OP_NOT then
        n < 1 || CanTriggerFrom(seg, k + 1, st[..n - 1] + [Not3(st[n - 1])], hasMethodOp, m)
      else if i.op == OP_AND then
        n < 2 || CanTriggerFrom(seg, k + 1, st[..n - 2] + [And3(st[n - 2], st[n - 1])], hasMethodOp, m)
      else if i.op == OP_OR then
        n < 2 || CanTriggerFrom(seg, k + 1, st[..n - 2] + [Or3(st[n - 2], st[n - 1])], hasMethodOp, m)
      else CanTriggerFrom(seg, k + 1, st + [Known(i, m)], hasMethodOp || IsMethodOp(i.op), m)
  }

  function CanTrigger(seg: seq<Line>, m: Method): bool {
    CanTriggerFrom(seg, 0, [], false, m)
  }

  /** bytecodeSegmentCanTrigger. */
  method SegmentCanTrigger(seg: seq<Line>, m: Method) returns (can: bool)
    ensures can == CanTrigger(seg, m)
  {
    var stack: seq<Bool3> := [];
    var hasMethodOp := false;
    for k := 0 to |seg|
      invariant CanTriggerFrom(seg, k, stack, hasMethodOp, m) == CanTrigger(seg, m)
    {
      var n := |stack|;
      match seg[k]
      case Blank =>
      case Unknown(_) => return true;
      case Op(i) =>
        if IsTerminal(i.op) {
          if n < 1 { return true; }
          return !hasMethodOp || stack[n - 1] != False3;
        } else if i.op == OP_NOT {
          if n < 1 { return true; }
          stack := stack[..n - 1] + [Not3(stack[n - 1])];
        } else if i.op == OP_AND {
          if n < 2 { return true; }
          stack := stack[..n - 2] + [And3(stack[n - 2], stack[n - 1])];
        } else if i.op == OP_OR {
          if n < 2 { return true; }
          stack := stack[..n - 2] + [Or3(stack[n - 2], stack[n - 1])];
        } else {
          if IsMethodOp(i.op) { hasMethodOp := true; }
          stack := stack + [Known(i, m)];
        }
    }
    return true;
  }

  // ---------------------------------------------------------------- running part of a program

  datatype Exec = Fired(slot: nat) | Failed | Left(st: seq<bool>)

  /** Running a stretch of code: it routes, underflows, or leaves a stack. */
  function RunPart(p: seq<Instr>, v: Valuation, st: seq<bool>): Exec {
    if p == [] then Left(st)
    else if |st| < Pops(p[0].op) then Failed
    else if !IsTerminal(p[0].op) then RunPart(p[1..], v, Apply(p[0], v, st))
    else if st[|st| - 1] then Fired(if p[0].op == OP_SLOT then p[0].param else 0)
    else RunPart(p[1..], v, st[..|st| - 1])
  }

  function Continue(r: Exec, q: seq<Instr>, v: Valuation): Outcome {
    match r
    case Fired(slot) => Routed(slot)
    case Failed => Underflow
    case Left(st) => Run(q, v, st)
  }

  lemma {:induction false} RunSplits(p: seq<Instr>, q: seq<Instr>, v: Valuation, st: seq<bool>)
    ensures Run(p + q, v, st) == Continue(RunPart(p, v, st), q, v)
  {
    if p == [] {
      assert p + q == q;
    } else {
      assert (p + q)[0] == p[0] && (p + q)[1..] == p[1..] + q;
      if |st| >= Pops(p[0].op) {
        if !IsTerminal(p[0].op) {
          RunSplits(p[1..], q, v, Apply(p[0], v, st));
        } else if !st[|st| - 1] {
          RunSplits(p[1..], q, v, st[..|st| - 1]);
        }
      }
    }
  }

  /** Values a stretch of code adds to the stack it found. */
  function Net(p: seq<Instr>): int {
    if p == [] then 0 else Pushes(p[0].op) - Pops(p[0].op) + Net(p[1..])
  }

  predicate Balanced(p: seq<Instr>) {
    Net(p) == 0
  }

  /** The instructions of some lines. */
  function Ops(lines: seq<Line>): seq<Instr> {
    if lines == [] then []
    else (if lines[0].Op? then [lines[0].inst] else []) + Ops(lines[1..])
  }

  /** Method opcodes hold exactly as the method says. */
  ghost predicate MethodValuation(v: Valuation, m: Method) {
    forall i: Instr | IsMethodOp(i.op) :: i in v <==> MethodOpHolds(i.op, m)
  }

  /** By number: DIAL is 28, LISTEN 29, LOOKUP 30, and a call of one method makes exactly its own
      opcode true. */
  lemma MethodOpcodes(v: Valuation, m: Method, param: nat)
    requires MethodValuation(v, m)
    ensures Instr(28, param) in v <==> m == Dial
    ensures Instr(29, param) in v <==> m == Listen
    ensures Instr(30, param) in v <==> m == Lookup
  {
    assert IsMethodOp(Instr(28, param).op) && IsMethodOp(Instr(29, param).op) && IsMethodOp(Instr(30, param).op);
  }

  predicate Agrees(a: Bool3, b: bool) {
    (a == True3 ==> b) && (a == False3 ==> !b)
  }

  predicate AgreesAll(abs: seq<Bool3>, st: seq<bool>, base: nat) {
    |st| == base + |abs| && forall i | 0 <= i < |abs| :: Agrees(abs[i], st[base + i])
  }

  /** The abstract effect of a non-terminal instruction. */
  function Apply3(i: Instr, m: Method, abs: seq<Bool3>): (r: seq<Bool3>)
    requires !IsTerminal(i.op) && !IsForeignTerminal(i.op) && |abs| >= Pops(i.op)
    ensures |r| == |abs| - Pops(i.op) + Pushes(i.op)
  {
    var n := |abs|;
    if i.op == OP_NOT then abs[..n - 1] + [Not3(abs[n - 1])]
    else if i.op == OP_AND then abs[..n - 2] + [And3(abs[n - 2], abs[n - 1])]
    else if i.op == OP_OR then abs[..n - 2] + [Or3(abs[n - 2], abs[n - 1])]
    else abs + [Known(i, m)]
  }

  lemma Apply3Sound(i: Instr, m: Method, abs: seq<Bool3>, v: Valuation, st: seq<bool>, base: nat)
    requires !IsTerminal(i.op) && !IsForeignTerminal(i.op) && |abs| >= Pops(i.op)
    requires MethodValuation(v, m) && AgreesAll(abs, st, base)
    ensures AgreesAll(Apply3(i, m, abs), Apply(i, v, st), base)
    ensures Apply(i, v, st)[..base] == st[..base]
  {
    hide Apply, Apply3, AgreesAll, Agrees, MethodValuation;
    AgreesLength(abs, st, base);
    if i.op == OP_NOT {
      NotSound(i, m, abs, v, st, base);
    } else if i.op == OP_AND || i.op == OP_OR {
      JoinSound(i, m, abs, v, st, base);
    } else {
      KnownAgrees(i, m, v);
      PushSound(i, m, abs, v, st, base);
    }
  }

  lemma NotSound(i: Instr, m: Method, abs: seq<Bool3>, v: Valuation, st: seq<bool>, base: nat)
    requires i.op == OP_NOT && |abs| >= 1 && AgreesAll(abs, st, base)
    ensures AgreesAll(Apply3(i, m, abs), Apply(i, v, st), base) && Apply(i, v, st)[..base] == st[..base]
  {
    AgreesAt(abs, st, base, 1);
    hide AgreesAll, Agrees, Not3;
    var a, b := abs[|abs| - 1], st[|st| - 1];
    Not3Agrees(a, b);
    AgreesReplaced(abs, st, base, 1, Not3(a), !b);
  }

  lemma JoinSound(i: Instr, m: Method, abs: seq<Bool3>, v: Valuation, st: seq<bool>, base: nat)
    requires (i.op == OP_AND || i.op == OP_OR) && |abs| >= 2 && AgreesAll(abs, st, base)
    ensures AgreesAll(Apply3(i, m, abs), Apply(i, v, st), base) && Apply(i, v, st)[..base] == st[..base]
  {
    AgreesAt(abs, st, base, 1);
    AgreesAt(abs, st, base, 2);
    hide AgreesAll, Agrees, And3, Or3;
    var a, b := abs[|abs| - 1], st[|st| - 1];
    var a', b' := abs[|abs| - 2], st[|st| - 2];
    And3Agrees(a', b', a, b);
    Or3Agrees(a', b', a, b);
    var a2, b2 := if i.op == OP_AND then And3(a', a) else Or3(a', a), if i.op == OP_AND then b' && b else b' || b;
    AgreesReplaced(abs, st, base, 2, a2, b2);
  }

  lemma PushSound(i: Instr, m: Method, abs: seq<Bool3>, v: Valuation, st: seq<bool>, base: nat)
    requires !IsTerminal(i.op) && !IsForeignTerminal(i.op) && !IsConnective(i.op)
    requires AgreesAll(abs, st, base) && Agrees(Known(i, m), Holds(i, v))
    ensures AgreesAll(Apply3(i, m, abs), Apply(i, v, st), base) && Apply(i, v, st)[..base] == st[..base]
  {
    AgreesLength(abs, st, base);
    hide AgreesAll, Agrees, Known, Holds;
    AgreesReplaced(abs, st, base, 0, Known(i, m), Holds(i, v));
    assert abs[..|abs|] == abs && st[..|st|] == st;
  }

  lemma Not3Agrees(a: Bool3, x: bool)
    requires Agrees(a, x)
    ensures Agrees(Not3(a), !x)
  {
  }

  lemma And3Agrees(a: Bool3, x: bool, b: Bool3, y: bool)
    requires Agrees(a, x) && Agrees(b, y)
    ensures Agrees(And3(a, b), x && y)
  {
  }

  lemma Or3Agrees(a: Bool3, x: bool, b: Bool3, y: bool)
    requires Agrees(a, x) && Agrees(b, y)
    ensures Agrees(Or3(a, b), x || y)
  {
  }

  lemma KnownAgrees(i: Instr, m: Method, v: Valuation)
    requires MethodValuation(v, m)
    ensures Agrees(Known(i, m), Holds(i, v))
  {
  }

  /** The d-th value from the top. */
  lemma AgreesAt(abs: seq<Bool3>, st: seq<bool>, base: nat, d: nat)
    requires AgreesAll(abs, st, base) && 1 <= d <= |abs|
    ensures |st| == base + |abs| && Agrees(abs[|abs| - d], st[|st| - d])
  {
  }

  /** The top d values are replaced by one. */
  lemma AgreesReplaced(abs: seq<Bool3>, st: seq<bool>, base: nat, d: nat, a: Bool3, b: bool)
    requires AgreesAll(abs, st, base) && d <= |abs| && Agrees(a, b)
    ensures AgreesAll(abs[..|abs| - d] + [a], st[..|st| - d] + [b], base)
    ensures (st[..|st| - d] + [b])[..base] == st[..base]
  {
  }

  /** An abstract False is a concrete false: a segment that the analysis leaves out never
      fires, never reaches below the stack it found, and keeps that stack untouched. */
  lemma {:induction false} PrunedNeverFires(seg: seq<Line>, k: nat, abs: seq<Bool3>, has: bool, m: Method,
                                            v: Valuation, st: seq<bool>, base: nat)
    requires k <= |seg| && OneEnd(seg) && MethodValuation(v, m) && AgreesAll(abs, st, base)
    requires !CanTriggerFrom(seg, k, abs, has, m)
    ensures var r := RunPart(Ops(seg[k..]), v, st);
            r.Left? && base <= |r.st| && |r.st| == |st| + Net(Ops(seg[k..])) && r.st[..base] == st[..base]
    decreases |seg| - k
  {
    hide MethodValuation, Apply, AgreesAll;
    assert k < |seg|;
    OpsFrom(seg, k);
    if seg[k].Blank? {
      PrunedNeverFires(seg, k + 1, abs, has, m, v, st, base);
    } else {
      var i := seg[k].inst;
      assert |st| == base + |abs| by { AgreesLength(abs, st, base); }
      if IsTerminal(i.op) {
        assert EndsSegment(seg[k]);
        assert k == |seg| - 1;
        AgreesAt(abs, st, base, 1);
        assert st[..|st| - 1][..base] == st[..base];
      } else if IsForeignTerminal(i.op) {
        assert false;
      } else {
        Apply3Sound(i, m, abs, v, st, base);
        PrunedNeverFires(seg, k + 1, Apply3(i, m, abs), has || IsMethodOp(i.op), m, v, Apply(i, v, st), base);
      }
    }
  }

  lemma AgreesLength(abs: seq<Bool3>, st: seq<bool>, base: nat)
    requires AgreesAll(abs, st, base)
    ensures |st| == base + |abs|
  {
  }

  /** The instructions from line k on. */
  lemma OpsFrom(seg: seq<Line>, k: nat)
    requires k < |seg|
    ensures !seg[k].Op? ==> Ops(seg[k..]) == Ops(seg[k + 1..])
    ensures seg[k].Op? ==>
              Ops(seg[k..]) != [] && Ops(seg[k..])[0] == seg[k].inst && Ops(seg[k..])[1..] == Ops(seg[k + 1..])
    ensures k == |seg| - 1 ==> Ops(seg[k + 1..]) == []
  {
    var rest := seg[k..];
    assert rest[0] == seg[k] && rest[1..] == seg[k + 1..];
    assert [] + Ops(rest[1..]) == Ops(rest[1..]);
  }

  lemma {:induction false} PrunedNeverUnderflows(seg: seq<Line>, k: nat, abs: seq<Bool3>, has: bool, m: Method)
    requires k <= |seg| && OneEnd(seg) && !CanTriggerFrom(seg, k, abs, has, m)
    ensures NoUnderflow(Ops(seg[k..]), |abs|)
    decreases |seg| - k
  {
    var rest := seg[k..];
    assert rest[0] == seg[k] && rest[1..] == seg[k + 1..];
    if seg[k].Blank? {
      PrunedNeverUnderflows(seg, k + 1, abs, has, m);
      assert [] + Ops(rest[1..]) == Ops(rest[1..]);
    } else {
      var i := seg[k].inst;
      assert Ops(rest)[0] == i && Ops(rest)[1..] == Ops(rest[1..]);
      if EndsSegment(seg[k]) {
        assert k == |seg| - 1;
        assert rest[1..] == [];
      } else {
        PrunedNeverUnderflows(seg, k + 1, Apply3(i, m, abs), has || IsMethodOp(i.op), m);
      }
    }
  }

  /** The same for a whole segment, above any stack. */
  lemma PrunedSegment(seg: seq<Line>, m: Method, v: Valuation, st: seq<bool>)
    requires OneEnd(seg) && MethodValuation(v, m) && !CanTrigger(seg, m)
    ensures NoUnderflow(Ops(seg), 0)
    ensures var r := RunPart(Ops(seg), v, st);
            r.Left? && |st| <= |r.st| == |st| + Net(Ops(seg)) && r.st[..|st|] == st
  {
    assert seg[0..] == seg;
    PrunedNeverFires(seg, 0, [], false, m, v, st, |st|);
    PrunedNeverUnderflows(seg, 0, [], false, m);
  }

  /** Conversely the analysis loses nothing on conditions built from method opcodes and
      constants: such a terminal is left out exactly when its condition is false. */
  lemma {:induction false} ExactWithoutRuntimePredicates(seg: seq<Line>, k: nat, abs: seq<Bool3>, m: Method,
                                                         v: Valuation, st: seq<bool>)
    requires k < |seg| && OneEnd(seg) && MethodValuation(v, m)
    requires seg[|seg| - 1].Op? && IsTerminal(seg[|seg| - 1].inst.op)
    requires forall j | k <= j < |seg| ::
               seg[j].Op? && (seg[j].inst.op <= OP_OR || IsMethodOp(seg[j].inst.op))
    requires |abs| == |st| && forall j | 0 <= j < |abs| :: abs[j] == FromBool(st[j])
    requires !RunPart(Ops(seg[k..]), v, st).Failed?
    ensures CanTriggerFrom(seg, k, abs, true, m) == RunPart(Ops(seg[k..]), v, st).Fired?
    decreases |seg| - k
  {
    var rest := seg[k..];
    assert rest[0] == seg[k] && rest[1..] == seg[k + 1..];
    var i := seg[k].inst;
    assert Ops(rest)[0] == i && Ops(rest)[1..] == Ops(rest[1..]);
    if IsTerminal(i.op) {
      assert EndsSegment(seg[k]);
      assert k == |seg| - 1;
      assert rest[1..] == [];
    } else {
      var abs' := Apply3(i, m, abs);
      var st' := Apply(i, v, st);
      assert forall j | 0 <= j < |abs'| :: abs'[j] == FromBool(st'[j]);
      ExactWithoutRuntimePredicates(seg, k + 1, abs', m, v, st');
    }
  }

  // ---------------------------------------------------------------- derived programs

  /** The instructions of the segments that are kept for m. */
  function Derived(segs: seq<seq<Line>>, m: Method): seq<Instr> {
    if segs == [] then []
    else (if CanTrigger(segs[0], m) then Ops(segs[0]) else []) + Derived(segs[1..], m)
  }

  predicate Understood(seg: seq<Line>) {
    forall l | l in seg :: !l.Unknown?
  }

  lemma DerivedNone(m: Method)
    ensures Derived([], m) == []
  {
  }

  lemma DerivedStep(segments: seq<seq<Line>>, k: nat, m: Method, out: seq<Instr>)
    requires k < |segments|
    ensures out + Derived(segments[k..], m) ==
            (if CanTrigger(segments[k], m) then out + Ops(segments[k]) else out) + Derived(segments[k + 1..], m)
  {
    hide CanTrigger, Ops;
    assert segments[k..][0] == segments[k] && segments[k..][1..] == segments[k + 1..];
    var first := if CanTrigger(segments[k], m) then Ops(segments[k]) else [];
    assert out + (first + Derived(segments[k + 1..], m)) == (out + first) + Derived(segments[k + 1..], m);
    assert out + [] == out;
  }

  /** One target of NewBytecodeRulesProgram: an unknown operation in a kept segment is an error. */
  method DeriveProgram(lines: seq<Line>, m: Method) returns (code: Option<seq<Instr>>)
    ensures code.Some? ==> code.value == Derived(Segments(lines, []), m)
    ensures code.Some? <==>
            forall s | s in Segments(lines, []) && CanTrigger(s, m) :: Understood(s)
  {
    hide Ops, Derived, CanTrigger, Understood, Segments;
    var segments := SplitSegments(lines);
    var out: seq<Instr> := [];
    assert segments[0..] == segments && out + Derived(segments, m) == Derived(segments, m);
    for k := 0 to |segments|
      invariant Derived(segments, m) == out + Derived(segments[k..], m)
      invariant forall j | 0 <= j < k && CanTrigger(segments[j], m) :: Understood(segments[j])
    {
      var can := SegmentCanTrigger(segments[k], m);
      DerivedStep(segments, k, m, out);
      if !can {
        continue;
      }
      if !Understood(segments[k]) {
        assert segments[k] in segments;
        return None;
      }
      out := out + Ops(segments[k]);
    }
    assert segments[|segments|..] == [];
    DerivedNone(m);
    return Some(out);
  }

  function AllOps(segs: seq<seq<Line>>): seq<Instr> {
    if segs == [] then [] else Ops(segs[0]) + AllOps(segs[1..])
  }

  /** Every segment that is left out for m returns the stack depth it found. */
  predicate PrunedBalanced(segs: seq<seq<Line>>, m: Method) {
    forall s | s in segs && !CanTrigger(s, m) :: Balanced(Ops(s))
  }

  /** Leaving segments out does not change the route of any call, from any stack. */
  lemma {:induction false} PruningPreservesRoutes(segs: seq<seq<Line>>, m: Method, v: Valuation, st: seq<bool>)
    requires (forall s | s in segs :: OneEnd(s)) && PrunedBalanced(segs, m) && MethodValuation(v, m)
    ensures Run(Derived(segs, m), v, st) == Run(AllOps(segs), v, st)
  {
    hide CanTrigger, Ops, Run, RunPart;
    if segs != [] {
      var s, rest := segs[0], segs[1..];
      assert s in segs && forall t | t in rest :: t in segs;
      RunSplits(Ops(s), AllOps(rest), v, st);
      if CanTrigger(s, m) {
        RunSplits(Ops(s), Derived(rest, m), v, st);
        var r := RunPart(Ops(s), v, st);
        if r.Left? { PruningPreservesRoutes(rest, m, v, r.st); }
      } else {
        PrunedSegment(s, m, v, st);
        assert RunPart(Ops(s), v, st).st == st;
        assert [] + Derived(rest, m) == Derived(rest, m);
        PruningPreservesRoutes(rest, m, v, st);
      }
    }
  }

  lemma {:induction false} AllOpsFlatten(segs: seq<seq<Line>>)
    ensures AllOps(segs) == Ops(Flatten(segs))
  {
    if segs != [] {
      AllOpsFlatten(segs[1..]);
      OpsConcat(segs[0], Flatten(segs[1..]));
    }
  }

  lemma {:induction false} OpsConcat(a: seq<Line>, b: seq<Line>)
    ensures Ops(a + b) == Ops(a) + Ops(b)
  {
    if a == [] {
      assert a + b == b;
    } else {
      assert (a + b)[0] == a[0] && (a + b)[1..] == a[1..] + b;
      OpsConcat(a[1..], b);
      var first := if a[0].Op? then [a[0].inst] else [];
      assert first + (Ops(a[1..]) + Ops(b)) == (first + Ops(a[1..])) + Ops(b);
    }
  }

  /** The program derived for a method routes every call as the whole text does. */
  lemma DerivedRoutesLikeSource(lines: seq<Line>, m: Method, v: Valuation)
    requires PrunedBalanced(Segments(lines, []), m) && MethodValuation(v, m)
    ensures Run(Derived(Segments(lines, []), m), v, []) == Run(Ops(lines), v, [])
  {
    SegmentsPartition(lines, []);
    PruningPreservesRoutes(Segments(lines, []), m, v, []);
    AllOpsFlatten(Segments(lines, []));
    assert [] + lines == lines;
  }

  // ---------------------------------------------------------------- exactly when

  /** A segment as a rules text ends it. */
  predicate Whole(seg: seq<Line>) {
    seg != [] && OneEnd(seg) && EndsSegment(seg[|seg| - 1])
  }

  /** Leaving seg out of a text, between whole segments and any other lines, changes no route. */
  ghost predicate Invisible(seg: seq<Line>, m: Method) {
    forall pre: seq<seq<Line>>, post: seq<Line>, v: Valuation | (forall s | s in pre :: Whole(s)) && MethodValuation(v, m) ::
      Run(Ops(Flatten(pre) + seg + post), v, []) == Run(Ops(Flatten(pre) + post), v, [])
  }

  /** Whole segments in front of a text are its first segments. */
  lemma {:induction false} WholeSegmentsFirst(pre: seq<seq<Line>>, post: seq<Line>)
    requires forall s | s in pre :: Whole(s)
    ensures Segments(Flatten(pre) + post, []) == pre + Segments(post, [])
    decreases |pre|
  {
    if pre == [] {
      assert Flatten(pre) + post == post;
    } else {
      var rest := Flatten(pre[1..]) + post;
      WholeSegmentsFirst(pre[1..], post);
      assert pre[0] in pre;
      assert Flatten(pre) + post == pre[0] + rest;
      OneSegment([], pre[0], rest);
      assert pre == [pre[0]] + pre[1..];
      assert [] + pre[0] == pre[0];
    }
  }

  lemma {:induction false} OneSegment(open: seq<Line>, seg: seq<Line>, rest: seq<Line>)
    requires Whole(seg)
    ensures Segments(seg + rest, open) == [open + seg] + Segments(rest, [])
    decreases |seg|
  {
    var all := seg + rest;
    assert all[1..] == seg[1..] + rest;
    if |seg| == 1 {
      assert seg == [seg[0]];
    } else {
      assert forall i | 0 <= i < |seg[1..]| :: seg[1..][i] == seg[i + 1];
      OneSegment(open + [seg[0]], seg[1..], rest);
      assert open + [seg[0]] + seg[1..] == open + seg;
    }
  }

  /** A segment that the analysis leaves out may be left out of every text if and only if it leaves
      the stack depth it found. */
  lemma PruningSafeIffBalanced(seg: seq<Line>, m: Method)
    requires OneEnd(seg) && !CanTrigger(seg, m)
    ensures Invisible(seg, m) <==> Balanced(Ops(seg))
  {
    hide CanTrigger, Run, RunPart;
    if Balanced(Ops(seg)) {
      forall pre: seq<seq<Line>>, post: seq<Line>, v: Valuation | (forall s | s in pre :: Whole(s)) && MethodValuation(v, m)
        ensures Run(Ops(Flatten(pre) + seg + post), v, []) == Run(Ops(Flatten(pre) + post), v, [])
      {
        var front := Flatten(pre);
        OpsConcat(front + seg, post);
        OpsConcat(front, seg);
        OpsConcat(front, post);
        BalancedIsInvisible(seg, m, Ops(front), Ops(post), v);
      }
    } else {
      var v: Valuation := iset i: Instr | IsMethodOp(i.op) && MethodOpHolds(i.op, m);
      assert MethodValuation(v, m);
      var x := LeftOnTop(seg, m, v);
      Probe(seg, m, v, x);
    }
  }

  lemma BalancedIsInvisible(seg: seq<Line>, m: Method, pre: seq<Instr>, post: seq<Instr>, v: Valuation)
    requires OneEnd(seg) && !CanTrigger(seg, m) && Balanced(Ops(seg)) && MethodValuation(v, m)
    ensures Run(pre + Ops(seg) + post, v, []) == Run(pre + post, v, [])
  {
    hide CanTrigger, Ops, Run, RunPart;
    var p := Ops(seg);
    assert pre + p + post == pre + (p + post);
    RunSplits(pre, p + post, v, []);
    RunSplits(pre, post, v, []);
    var r := RunPart(pre, v, []);
    if r.Left? {
      RunSplits(p, post, v, r.st);
      PrunedSegment(seg, m, v, r.st);
      assert RunPart(p, v, r.st).st == r.st;
    }
  }

  /** The value an unbalanced segment leaves on top, whatever value it found there. */
  lemma LeftOnTop(seg: seq<Line>, m: Method, v: Valuation) returns (x: bool)
    requires OneEnd(seg) && !CanTrigger(seg, m) && MethodValuation(v, m) && !Balanced(Ops(seg))
    ensures forall b: bool ::
              var r := RunPart(Ops(seg), v, [b]);
              r.Left? && |r.st| > 1 && Last(r.st) == x
  {
    hide CanTrigger, Ops, RunPart, NoUnderflow;
    var p := Ops(seg);
    PrunedSegment(seg, m, v, []);
    PrunedSegment(seg, m, v, [true]);
    PrunedSegment(seg, m, v, [false]);
    BaseIndependent(p, v, [true], [false], 1);
    var a, b := RunPart(p, v, [true]).st, RunPart(p, v, [false]).st;
    assert Last(a) == a[1..][|a| - 2] && Last(b) == b[1..][|b| - 2];
    x := Last(a);
  }

  lemma SlotOnStack(n: nat, v: Valuation, st: seq<bool>)
    requires st != []
    ensures Run([Instr(OP_SLOT, n)], v, st) == Routed(if Last(st) then n else 0)
  {
    assert [Instr(OP_SLOT, n)][1..] == [];
  }

  /** The segment "c FALSE SLOT 1": it never fires and leaves c behind. */
  function Leaving(c: bool): seq<Line> {
    [Op(Instr(if c then OP_TRUE else OP_FALSE, 0)), Op(Instr(OP_FALSE, 0)), Op(Instr(OP_SLOT, 1))]
  }

  lemma LeavingOps(c: bool)
    ensures Ops(Leaving(c)) == [Instr(if c then OP_TRUE else OP_FALSE, 0), Instr(OP_FALSE, 0), Instr(OP_SLOT, 1)]
  {
    OpsOfThree(Instr(if c then OP_TRUE else OP_FALSE, 0), Instr(OP_FALSE, 0), Instr(OP_SLOT, 1));
  }

  lemma LeavingRun(c: bool, q: seq<Instr>, v: Valuation)
    ensures Run(Ops(Leaving(c)) + q, v, []) == Run(q, v, [c])
  {
    LeavingOps(c);
    TwoPushesRun(Instr(if c then OP_TRUE else OP_FALSE, 0), Instr(OP_FALSE, 0), Instr(OP_SLOT, 1), v, []);
    assert [] + [c] == [c];
    RunSplits(Ops(Leaving(c)), q, v, []);
  }

  /** After a segment that leaves the opposite value, a bare SLOT 1 tells the two texts apart. */
  lemma Probe(seg: seq<Line>, m: Method, v: Valuation, x: bool)
    requires MethodValuation(v, m)
    requires forall b: bool ::
               var r := RunPart(Ops(seg), v, [b]);
               r.Left? && |r.st| > 1 && Last(r.st) == x
    ensures !Invisible(seg, m)
  {
    var slot := Instr(OP_SLOT, 1);
    var pre, post := [Leaving(!x)], [Op(slot)];
    assert pre[1..] == [] && Flatten(pre) == Leaving(!x) + [] == Leaving(!x);
    assert post[1..] == [] && Ops(post) == [slot];
    WholeLeaving(!x);
    hide Ops, Run, RunPart, Leaving, Whole, Invisible;
    OpsConcat(Leaving(!x) + seg, post);
    OpsConcat(Leaving(!x), seg);
    OpsConcat(Leaving(!x), post);
    ProbeRuns(Ops(seg), v, x);
    Visible(seg, m, pre, post, v);
  }

  lemma Visible(seg: seq<Line>, m: Method, pre: seq<seq<Line>>, post: seq<Line>, v: Valuation)
    requires (forall s | s in pre :: Whole(s)) && MethodValuation(v, m)
    requires Run(Ops(Flatten(pre) + seg + post), v, []) != Run(Ops(Flatten(pre) + post), v, [])
    ensures !Invisible(seg, m)
  {
  }

  lemma ProbeRuns(p: seq<Instr>, v: Valuation, x: bool)
    requires var r := RunPart(p, v, [!x]); r.Left? && |r.st| > 1 && Last(r.st) == x
    ensures var a, slot := Ops(Leaving(!x)), Instr(OP_SLOT, 1);
            Run(a + p + [slot], v, []) != Run(a + [slot], v, [])
  {
    hide Ops, Run, RunPart, Leaving;
    var a, slot := Ops(Leaving(!x)), Instr(OP_SLOT, 1);
    assert a + p + [slot] == a + (p + [slot]);
    LeavingRun(!x, p + [slot], v);
    LeavingRun(!x, [slot], v);
    RunSplits(p, [slot], v, [!x]);
    SlotOnStack(1, v, [!x]);
    SlotOnStack(1, v, RunPart(p, v, [!x]).st);
  }

  lemma WholeLeaving(c: bool)
    ensures Whole(Leaving(c))
  {
  }

  /** Code that leaves its base untouched computes the same values above any base. */
  lemma {:induction false} BaseIndependent(p: seq<Instr>, v: Valuation, a: seq<bool>, b: seq<bool>, base: nat)
    requires |a| == |b| && base <= |a| && a[base..] == b[base..]
    requires NoUnderflow(p, |a| - base)
    requires RunPart(p, v, a).Left? && RunPart(p, v, b).Left?
    ensures var ra, rb := RunPart(p, v, a).st, RunPart(p, v, b).st;
            |ra| == |rb| && base <= |ra| && ra[base..] == rb[base..]
  {
    if p != [] {
      if !IsTerminal(p[0].op) {
        ApplyAboveBase(p[0], v, a, b, base);
        hide Apply;
        BaseIndependent(p[1..], v, Apply(p[0], v, a), Apply(p[0], v, b), base);
      } else {
        PopAboveBase(a, b, base);
        BaseIndependent(p[1..], v, a[..|a| - 1], b[..|b| - 1], base);
      }
    }
  }

  lemma PopAboveBase(a: seq<bool>, b: seq<bool>, base: nat)
    requires |a| == |b| && base < |a| && a[base..] == b[base..]
    ensures a[|a| - 1] == b[|b| - 1] && a[..|a| - 1][base..] == b[..|b| - 1][base..]
  {
    var n := |a|;
    assert a[n - 1] == a[base..][n - 1 - base] && b[n - 1] == b[base..][n - 1 - base];
    DropThenTake(a, base, n - 1);
    DropThenTake(b, base, n - 1);
  }

  lemma DropThenTake(s: seq<bool>, lo: nat, hi: nat)
    requires lo <= hi <= |s|
    ensures s[..hi][lo..] == s[lo..][..hi - lo]
  {
    assert |s[..hi][lo..]| == |s[lo..][..hi - lo]|;
    forall k | 0 <= k < hi - lo ensures s[..hi][lo..][k] == s[lo..][..hi - lo][k] {
      assert s[lo..][k] == s[lo + k];
    }
  }

  lemma ApplyAboveBase(i: Instr, v: Valuation, a: seq<bool>, b: seq<bool>, base: nat)
    requires !IsTerminal(i.op) && |a| == |b| && base + Pops(i.op) <= |a| && a[base..] == b[base..]
    ensures Apply(i, v, a)[base..] == Apply(i, v, b)[base..]
  {
    assert forall k | base <= k < |a| :: a[k] == a[base..][k - base] && b[k] == b[base..][k - base];
  }

  predicate IsPush(op: byte) {
    op == OP_TRUE || op == OP_FALSE || op == OP_LOOKUP
  }

  /** A segment "x y SLOT n" of two pushes: it tests y and leaves x behind. */
  lemma TwoPushesRun(x: Instr, y: Instr, z: Instr, v: Valuation, st: seq<bool>)
    requires z.op == OP_SLOT
    requires IsPush(x.op) && IsPush(y.op)
    ensures RunPart([x, y, z], v, st) == if Holds(y, v) then Fired(z.param) else Left(st + [Holds(x, v)])
  {
    var s1 := st + [Holds(x, v)];
    hide RunPart;
    PushRuns(x, [y, z], v, st);
    PushRuns(y, [z], v, s1);
    SlotRuns(z, v, s1, Holds(y, v));
    assert [x] + [y, z] == [x, y, z] && [y] + [z] == [y, z];
  }

  lemma PushRuns(x: Instr, rest: seq<Instr>, v: Valuation, st: seq<bool>)
    requires IsPush(x.op)
    ensures RunPart([x] + rest, v, st) == RunPart(rest, v, st + [Holds(x, v)])
  {
    var p := [x] + rest;
    assert p[0] == x && p[1..] == rest;
    assert Apply(x, v, st) == st + [Holds(x, v)];
    hide Apply, Holds;
  }

  lemma SlotRuns(z: Instr, v: Valuation, st: seq<bool>, b: bool)
    requires z.op == OP_SLOT
    ensures RunPart([z], v, st + [b]) == if b then Fired(z.param) else Left(st)
  {
    assert [z][1..] == [] && (st + [b])[..|st|] == st;
  }

  /** What the analysis makes of such a segment. */
  lemma TwoPushesAnalysed(x: Instr, y: Instr, z: Instr, m: Method)
    requires z.op == OP_SLOT
    requires IsPush(x.op) && IsPush(y.op)
    ensures CanTrigger([Op(x), Op(y), Op(z)], m)
            == (!(IsMethodOp(x.op) || IsMethodOp(y.op)) || Known(y, m) != False3)
  {
    var seg := [Op(x), Op(y), Op(z)];
    var one, two := [Known(x, m)], [Known(x, m), Known(y, m)];
    assert [] + [Known(x, m)] == one && one + [Known(y, m)] == two;
    assert CanTriggerFrom(seg, 1, one, IsMethodOp(x.op), m)
        == CanTriggerFrom(seg, 2, two, IsMethodOp(x.op) || IsMethodOp(y.op), m);
  }

  lemma OpsOfThree(x: Instr, y: Instr, z: Instr)
    ensures Ops([Op(x), Op(y), Op(z)]) == [x, y, z]
  {
    assert Ops([Op(z)]) == [z];
    assert [Op(y), Op(z)][1..] == [Op(z)] && Ops([Op(y), Op(z)]) == [y] + Ops([Op(z)]);
    assert [Op(x), Op(y), Op(z)][1..] == [Op(y), Op(z)];
  }

  /** The text FALSE, FALSE, SLOT 1, TRUE, LOOKUP, SLOT 1, SLOT 2, line by line. */
  function UnbalancedText(): seq<Line> {
    [Op(Instr(OP_FALSE, 0)), Op(Instr(OP_FALSE, 0)), Op(Instr(OP_SLOT, 1)),
     Op(Instr(OP_TRUE, 0)), Op(Instr(OP_LOOKUP, 0)), Op(Instr(OP_SLOT, 1)), Op(Instr(OP_SLOT, 2))]
  }

  lemma UnbalancedTextSegments()
    ensures var f, t, lookup := Instr(OP_FALSE, 0), Instr(OP_TRUE, 0), Instr(OP_LOOKUP, 0);
            var slot1, slot2 := Instr(OP_SLOT, 1), Instr(OP_SLOT, 2);
            Segments(UnbalancedText(), []) == [[Op(f), Op(f), Op(slot1)], [Op(t), Op(lookup), Op(slot1)], [Op(slot2)]]
  {
    var f, t, lookup := Instr(OP_FALSE, 0), Instr(OP_TRUE, 0), Instr(OP_LOOKUP, 0);
    var slot1, slot2 := Instr(OP_SLOT, 1), Instr(OP_SLOT, 2);
    var a, b, c := [Op(f), Op(f), Op(slot1)], [Op(t), Op(lookup), Op(slot1)], [Op(slot2)];
    assert UnbalancedText() == a + (b + (c + []));
    OneSegment([], a, b + (c + []));
    OneSegment([], b, c + []);
    OneSegment([], c, []);
    assert [] + a == a && [] + b == b && [] + c == c;
  }

  /** The condition is needed: the text routes every dial to slot 2; the program derived for
      dialling is valid and routes them to slot 0. */
  lemma UnbalancedTextIsMisrouted(v: Valuation)
    requires MethodValuation(v, Dial)
    ensures var text := UnbalancedText();
            && NoUnderflow(Derived(Segments(text, []), Dial), 0)
            && Run(Ops(text), v, []) == Routed(2)
            && Run(Derived(Segments(text, []), Dial), v, []) == Routed(0)
  {
    var text := UnbalancedText();
    UnbalancedTextSegments();
    SegmentsPartition(text, []);
    AllOpsFlatten(Segments(text, []));
    assert [] + text == text;
    hide UnbalancedText, Segments, Flatten, AllOps, Derived, Ops, Run, NoUnderflow;
    UnbalancedSegmentsMisrouted(v);
  }

  lemma UnbalancedSegmentsMisrouted(v: Valuation)
    requires MethodValuation(v, Dial)
    ensures var t, f, lookup := Instr(OP_TRUE, 0), Instr(OP_FALSE, 0), Instr(OP_LOOKUP, 0);
            var slot1, slot2 := Instr(OP_SLOT, 1), Instr(OP_SLOT, 2);
            var segs := [[Op(f), Op(f), Op(slot1)], [Op(t), Op(lookup), Op(slot1)], [Op(slot2)]];
            && NoUnderflow(Derived(segs, Dial), 0)
            && Run(AllOps(segs), v, []) == Routed(2)
            && Run(Derived(segs, Dial), v, []) == Routed(0)
  {
    var t, f, lookup := Instr(OP_TRUE, 0), Instr(OP_FALSE, 0), Instr(OP_LOOKUP, 0);
    var slot1, slot2 := Instr(OP_SLOT, 1), Instr(OP_SLOT, 2);
    var a, b, c := [Op(f), Op(f), Op(slot1)], [Op(t), Op(lookup), Op(slot1)], [Op(slot2)];
    assert c[1..] == [] && Ops(c) == [slot2] && CanTrigger(c, Dial);
    hide CanTrigger, Ops, Run, NoUnderflow;
    TwoPushesAnalysed(f, f, slot1, Dial);
    TwoPushesAnalysed(t, lookup, slot1, Dial);
    OpsOfThree(f, f, slot1);
    OpsOfThree(t, lookup, slot1);
    MiddlePruned(a, b, c, Dial);
    hide AllOps, Derived;
    WithAndWithoutMiddle(v, t, f, lookup, slot1, slot2);
    DepthOfPushes(f, slot1, slot2);
  }

  lemma WithAndWithoutMiddle(v: Valuation, t: Instr, f: Instr, lookup: Instr, slot1: Instr, slot2: Instr)
    requires MethodValuation(v, Dial)
    requires t == Instr(OP_TRUE, 0) && f == Instr(OP_FALSE, 0) && lookup == Instr(OP_LOOKUP, 0)
    requires slot1 == Instr(OP_SLOT, 1) && slot2 == Instr(OP_SLOT, 2)
    ensures Run([f, f, slot1] + ([t, lookup, slot1] + [slot2]), v, []) == Routed(2)
    ensures Run([f, f, slot1] + [slot2], v, []) == Routed(0)
  {
    assert !Holds(f, v) && Holds(t, v) && !Holds(lookup, v);
    hide Run, RunPart, Holds;
    TwoPushesRun(f, f, slot1, v, []);
    TwoPushesRun(t, lookup, slot1, v, [false]);
    assert [] + [false] == [false];
    RunSplits([f, f, slot1], [t, lookup, slot1] + [slot2], v, []);
    RunSplits([t, lookup, slot1], [slot2], v, [false]);
    RunSplits([f, f, slot1], [slot2], v, []);
    SlotOnStack(2, v, [false] + [true]);
    SlotOnStack(2, v, [] + [false]);
  }

  lemma MiddlePruned(a: seq<Line>, b: seq<Line>, c: seq<Line>, m: Method)
    requires CanTrigger(a, m) && !CanTrigger(b, m) && CanTrigger(c, m)
    ensures AllOps([a, b, c]) == Ops(a) + (Ops(b) + Ops(c))
    ensures Derived([a, b, c], m) == Ops(a) + Ops(c)
  {
    hide CanTrigger, Ops;
    var segs := [a, b, c];
    assert segs[1..] == [b, c] && segs[1..][1..] == [c] && segs[1..][1..][1..] == [];
    assert AllOps(segs[1..][1..]) == Ops(c) + [] && Derived(segs[1..][1..], m) == Ops(c) + [];
    assert AllOps(segs[1..]) == Ops(b) + Ops(c) && Derived(segs[1..], m) == [] + Ops(c);
  }

  lemma DepthOfPushes(f: Instr, slot1: Instr, slot2: Instr)
    requires f.op == OP_FALSE && slot1.op == OP_SLOT && slot2.op == OP_SLOT
    ensures NoUnderflow([f, f, slot1] + [slot2], 0)
  {
    var d := [f, f, slot1] + [slot2];
    assert d[1..][1..] == [slot1, slot2] && [slot1, slot2][1..] == [slot2] && [slot2][1..] == [];
    assert NoUnderflow([slot2], 1);
    assert NoUnderflow([slot1, slot2], 2);
    assert NoUnderflow(d[1..], 1);
  }
}
