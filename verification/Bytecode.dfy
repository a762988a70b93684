/** Opcodes, instruction decoding, validation and the boolean stack machine
    (routing/bytecode.go, and the fallback evaluator of routing/split_bytecode.go). */
module Bytecode {
  import opened Basics

  const OP_DROP: byte := 0
  const OP_SLOT: byte := 1
  const OP_TRUE: byte := 2
  const OP_FALSE: byte := 3
  const OP_NOT: byte := 4
  const OP_AND: byte := 5
  const OP_OR: byte := 6
  const OP_NET4: byte := 7
  const OP_NET6: byte := 8
  const OP_UDP: byte := 9
  const OP_TCP: byte := 10
  const OP_FQDN: byte := 11
  const OP_LFQDN: byte := 12
  const OP_ADDR_S: byte := 13
  const OP_PORT: byte := 25
  const OP_LPORT: byte := 26
  const OP_RULE: byte := 27
  const OP_DIAL: byte := 28
  const OP_LISTEN: byte := 29
  const OP_LOOKUP: byte := 30
  const OP_INTERCEPT: byte := 31
  const OP_SNIFF: byte := 32
  const OP_ROUTE: byte := 34
  const OP_BACKEND: byte := 35
  const OP_OPCODE: byte := 38
  const ROUTER_SLOTS := 16

  /** An instruction with its parameter decoded. Predicates are their own names:
      a valuation is the set of instructions that hold of the packet or call. */
  datatype Instr = Instr(op: byte, param: nat)
  type Valuation = iset<Instr>

  predicate KnownOp(op: byte) {
    op <= OP_OPCODE
  }

  /** Bytes of parameter after an opcode. */
  function ParamWidth(op: byte): nat {
    if op == OP_SLOT then 1
    else if OP_ADDR_S <= op <= OP_RULE || op == OP_SNIFF || OP_ROUTE <= op <= OP_OPCODE then 2
    else 0
  }

  predicate IsTerminal(op: byte) {
    op == OP_DROP || op == OP_SLOT
  }

  predicate IsConnective(op: byte) {
    op == OP_NOT || op == OP_AND || op == OP_OR
  }

  /** Opcodes of the sniffer and DNS dialects that consume a value. */
  predicate IsForeignTerminal(op: byte) {
    op == OP_INTERCEPT || op == OP_ROUTE || op == OP_BACKEND
  }

  // ---------------------------------------------------------------- parameters

  datatype Read = Bad | Param(param: nat, next: nat)

  function Uint16LE(lo: byte, hi: byte): nat {
    lo + 256 * hi
  }

  /** readBytecodeParam: the checked reader. */
  function ReadParam(code: seq<byte>, pc: nat, op: byte): Read {
    if !KnownOp(op) then Bad
    else if ParamWidth(op) == 0 then Param(0, pc)
    else if ParamWidth(op) == 1 then
      if pc >= |code| then Bad else Param(code[pc], pc + 1)
    else
      if pc + 1 >= |code| then Bad else Param(Uint16LE(code[pc], code[pc + 1]), pc + 2)
  }

  /** readBytecodeParamUnchecked: no test of the code's length or of the opcode. */
  function ReadParamUnchecked(code: seq<byte>, pc: nat, op: byte): (r: (nat, nat))
    requires pc + ParamWidth(op) <= |code|
    ensures r.1 == pc + ParamWidth(op) <= |code|
    ensures ReadParam(code, pc, op) == (if KnownOp(op) then Param(r.0, r.1) else Bad)
  {
    if op == OP_SLOT then (code[pc], pc + 1)
    else if OP_ADDR_S <= op <= OP_RULE || op == OP_SNIFF || OP_ROUTE <= op <= OP_OPCODE then
      (Uint16LE(code[pc], code[pc + 1]), pc + 2)
    else (0, pc)
  }

  /** The instructions of a well-formed byte string. */
  function Decode(code: seq<byte>, pc: nat): Option<seq<Instr>>
    requires pc <= |code|
    decreases |code| - pc
  {
    if pc == |code| then Some([])
    else
      match ReadParam(code, pc + 1, code[pc])
      case Bad => None
      case Param(param, next) =>
        match Decode(code, next)
        case None => None
        case Some(rest) => Some([Instr(code[pc], param)] + rest)
  }

  // ---------------------------------------------------------------- validation

  /** Values an instruction takes from the stack. */
  function Pops(op: byte): nat {
    if IsTerminal(op) || IsForeignTerminal(op) || op == OP_NOT then 1
    else if op == OP_AND || op == OP_OR then 2
    else 0
  }

  function Pushes(op: byte): nat {
    if IsTerminal(op) || IsForeignTerminal(op) then 0 else 1
  }

  /** No instruction of p pops from an empty stack when p starts at depth d. */
  predicate NoUnderflow(p: seq<Instr>, d: nat) {
    p == [] || (d >= Pops(p[0].op) && NoUnderflow(p[1..], d - Pops(p[0].op) + Pushes(p[0].op)))
  }

  predicate AllowedOps(p: seq<Instr>, allowed: (byte, nat) -> bool) {
    forall i | 0 <= i < |p| :: allowed(p[i].op, p[i].param)
  }

  ghost predicate ValidProgram(code: seq<byte>, allowed: (byte, nat) -> bool) {
    var p := Decode(code, 0);
    p.Some? && AllowedOps(p.value, allowed) && NoUnderflow(p.value, 0)
  }

  ghost predicate ValidFrom(code: seq<byte>, pc: nat, d: nat, allowed: (byte, nat) -> bool)
    requires pc <= |code|
  {
    var p := Decode(code, pc);
    p.Some? && AllowedOps(p.value, allowed) && NoUnderflow(p.value, d)
  }

  lemma ValidFromStep(code: seq<byte>, pc: nat, d: nat, allowed: (byte, nat) -> bool)
    requires pc < |code|
    ensures ValidFrom(code, pc, d, allowed) <==>
            (var r := ReadParam(code, pc + 1, code[pc]);
             && r.Param?
             && allowed(code[pc], r.param)
             && d >= Pops(code[pc])
             && ValidFrom(code, r.next, d - Pops(code[pc]) + Pushes(code[pc]), allowed))
  {
    var r := ReadParam(code, pc + 1, code[pc]);
    if r.Param? {
      var rest := Decode(code, r.next);
      if rest.Some? {
        var p := [Instr(code[pc], r.param)] + rest.value;
        assert p[1..] == rest.value;
        assert forall i | 0 <= i < |rest.value| :: p[i + 1] == rest.value[i];
      }
    }
  }

  /** One instruction of a byte string that decodes. */
  lemma DecodeNext(code: seq<byte>, pc: nat, rest: seq<Instr>)
    requires pc < |code| && Decode(code, pc) == Some(rest)
    ensures KnownOp(code[pc]) && pc + 1 + ParamWidth(code[pc]) <= |code| && rest != []
    ensures var (param, next) := ReadParamUnchecked(code, pc + 1, code[pc]);
            rest[0] == Instr(code[pc], param) && Decode(code, next) == Some(rest[1..])
  {
    var r := ReadParam(code, pc + 1, code[pc]);
    var tail := Decode(code, r.next).value;
    assert ([Instr(code[pc], r.param)] + tail)[1..] == tail;
  }

  /** validateBytecode accepts exactly the byte strings that decode, use allowed
      opcodes only, and never underflow. */
  method ValidateBytecode(code: seq<byte>, allowed: (byte, nat) -> bool) returns (ok: bool)
    ensures ok <==> ValidProgram(code, allowed)
  {
    var depth := 0;
    var pc := 0;
    while pc < |code|
      invariant 0 <= pc <= |code|
      invariant depth >= 0
      invariant ValidFrom(code, 0, 0, allowed) == ValidFrom(code, pc, depth, allowed)
    {
      ValidFromStep(code, pc, depth, allowed);
      var op := code[pc];
      var r := ReadParam(code, pc + 1, op);
      if r.Bad? {
        return false;
      }
      if !allowed(op, r.param) {
        return false;
      }
      if IsTerminal(op) || IsForeignTerminal(op) {
        if depth < 1 {
          return false;
        }
        depth := depth - 1;
      } else if op == OP_NOT {
        if depth < 1 {
          return false;
        }
      } else if op == OP_AND || op == OP_OR {
        if depth < 2 {
          return false;
        }
        depth := depth - 1;
      } else {
        depth := depth + 1;
      }
      pc := r.next;
    }
    return true;
  }

  // ---------------------------------------------------------------- stack machine

  datatype Outcome = Underflow | Routed(slot: nat)

  predicate Holds(i: Instr, v: Valuation) {
    i.op == OP_TRUE || (i.op != OP_FALSE && i in v)
  }

  /** The stack after a non-terminal instruction; its top is the last element. */
  function Apply(i: Instr, v: Valuation, st: seq<bool>): (r: seq<bool>)
    requires !IsTerminal(i.op) && |st| >= Pops(i.op)
    ensures |r| == |st| - Pops(i.op) + Pushes(i.op)
  {
    if i.op == OP_NOT then st[..|st| - 1] + [!st[|st| - 1]]
    else if i.op == OP_AND then st[..|st| - 2] + [st[|st| - 2] && st[|st| - 1]]
    else if i.op == OP_OR then st[..|st| - 2] + [st[|st| - 2] || st[|st| - 1]]
    else if IsForeignTerminal(i.op) then st[..|st| - 1]
    else st + [Holds(i, v)]
  }

  /** The slot chosen by running p on the stack st: the first terminal that pops true. */
  function Run(p: seq<Instr>, v: Valuation, st: seq<bool>): Outcome {
    if p == [] then Routed(0)
    else if |st| < Pops(p[0].op) then Underflow
    else if !IsTerminal(p[0].op) then Run(p[1..], v, Apply(p[0], v, st))
    else if st[|st| - 1] then Routed(if p[0].op == OP_SLOT then p[0].param else 0)
    else Run(p[1..], v, st[..|st| - 1])
  }

  /** Every program that the validator accepts runs without underflow, on every input. */
  lemma {:induction false} ValidProgramsRun(p: seq<Instr>, v: Valuation, st: seq<bool>)
    requires NoUnderflow(p, |st|)
    ensures Run(p, v, st).Routed?
  {
    if p != [] {
      if !IsTerminal(p[0].op) {
        ValidProgramsRun(p[1..], v, Apply(p[0], v, st));
      } else if !st[|st| - 1] {
        ValidProgramsRun(p[1..], v, st[..|st| - 1]);
      }
    }
  }

  // ---------------------------------------------------------------- predecoding

  /** Opcodes valid for packet routing (validateOp of the split router). */
  predicate SplitOp(op: byte, param: nat) {
    op <= OP_RULE && (op == OP_SLOT ==> param <= ROUTER_SLOTS)
  }

  /** The greatest depth reached by p from depth d. */
  function Peak(p: seq<Instr>, d: nat): nat
    requires NoUnderflow(p, d)
  {
    if p == [] then d
    else Max(d, Peak(p[1..], d - Pops(p[0].op) + Pushes(p[0].op)))
  }

  function Max(a: nat, b: nat): nat {
    if a > b then a else b
  }

  lemma SplitTail(p: seq<Instr>)
    requires AllowedOps(p, SplitOp) && p != []
    ensures SplitOp(p[0].op, p[0].param) && AllowedOps(p[1..], SplitOp)
  {
    assert forall i | 0 <= i < |p[1..]| :: p[1..][i] == p[i + 1];
  }

  function Last<T>(s: seq<T>): T
    requires s != []
  {
    s[|s| - 1]
  }

  /** The depth counter of compileSplitBytecode after p. */
  function DepthAfter(p: seq<Instr>): nat {
    if p == [] then 0
    else
      var d := DepthAfter(p[..|p| - 1]);
      var op := Last(p).op;
      if IsTerminal(op) || op == OP_AND || op == OP_OR then (if d > 0 then d - 1 else d)
      else if op == OP_NOT then d
      else d + 1
  }

  function PeakAfter(p: seq<Instr>): nat {
    if p == [] then 0 else Max(PeakAfter(p[..|p| - 1]), DepthAfter(p))
  }

  /** The running counters agree with the stack machine's own depths. */
  lemma {:induction false} CountersMeasurePeak(a: seq<Instr>, b: seq<Instr>, peak: nat)
    requires AllowedOps(b, SplitOp) && NoUnderflow(b, DepthAfter(a))
    requires peak == Max(PeakAfter(a), Peak(b, DepthAfter(a)))
    ensures PeakAfter(a + b) == peak
    decreases |b|
  {
    if b == [] {
      assert a + b == a;
      assert a != [] ==> PeakAfter(a) >= DepthAfter(a);
    } else {
      SplitTail(b);
      var a' := a + [b[0]];
      assert a'[..|a'| - 1] == a && a' + b[1..] == a + b;
      assert DepthAfter(a') == DepthAfter(a) - Pops(b[0].op) + Pushes(b[0].op);
      assert a != [] ==> PeakAfter(a) >= DepthAfter(a);
      assert Peak(b[1..], DepthAfter(a')) >= DepthAfter(a');
      CountersMeasurePeak(a', b[1..], peak);
    }
  }

  lemma DecodesWhole(code: seq<byte>, allowed: (byte, nat) -> bool)
    requires ValidProgram(code, allowed)
    ensures var p := Decode(code, 0); p.Some? && AllowedOps(p.value, allowed) && NoUnderflow(p.value, 0)
    ensures Decode(code, |code|) == Some([])
  {
  }

  lemma CountersOfWhole(program: seq<Instr>)
    requires AllowedOps(program, SplitOp) && NoUnderflow(program, 0)
    ensures PeakAfter(program) == Peak(program, 0)
  {
    assert [] + program == program;
    CountersMeasurePeak([], program, Peak(program, 0));
  }

  /** compileSplitBytecode: the decoded program and the stack it needs. */
  method CompileSplitBytecode(code: seq<byte>) returns (program: seq<Instr>, maxDepth: nat)
    requires ValidProgram(code, SplitOp)
    ensures Decode(code, 0) == Some(program)
    ensures maxDepth == Peak(program, 0)
  {
    hide ValidProgram, Decode, AllowedOps, NoUnderflow, Peak;
    DecodesWhole(code, SplitOp);
    program := [];
    var depth: nat := 0;
    maxDepth := 0;
    ghost var rest := Decode(code, 0).value;
    ghost var whole := rest;
    var pc := 0;
    while pc < |code|
      invariant 0 <= pc <= |code|
      invariant Decode(code, pc) == Some(rest)
      invariant whole == program + rest
      invariant depth == DepthAfter(program) && maxDepth == PeakAfter(program)
    {
      DecodeNext(code, pc, rest);
      var op := code[pc];
      var (param, next) := ReadParamUnchecked(code, pc + 1, op);
      pc := next;
      assert program + rest == (program + [rest[0]]) + rest[1..];
      assert (program + [Instr(op, param)])[..|program|] == program;
      program := program + [Instr(op, param)];
      rest := rest[1..];
      if IsTerminal(op) {
        if depth > 0 { depth := depth - 1; }
      } else if op == OP_NOT {
      } else if op == OP_AND || op == OP_OR {
        if depth > 0 { depth := depth - 1; }
      } else {
        depth := depth + 1;
        if depth > maxDepth { maxDepth := depth; }
      }
    }
    assert program + [] == program;
    CountersOfWhole(program);
  }

  /** The fallback evaluator of Route: one fixed stack, no bounds tests. */
  method RouteByStack(program: seq<Instr>, maxDepth: nat, v: Valuation) returns (slot: nat)
    requires NoUnderflow(program, 0) && AllowedOps(program, SplitOp)
    requires maxDepth == Peak(program, 0)
    ensures Run(program, v, []) == Routed(slot)
  {
    hide Run, Apply, NoUnderflow, Peak, AllowedOps;
    var size := if maxDepth > 64 then maxDepth else 64;
    var stack := new bool[size];
    var sp := 0;
    slot := 0;
    assert stack[..0] == [];
    ghost var rest, goal := program, Run(program, v, []);
    for k := 0 to |program|
      invariant 0 <= sp <= size == stack.Length
      invariant rest == program[k..]
      invariant Running(rest, v, stack[..sp], size, goal)
    {
      var inst := program[k];
      ghost var before := stack[..sp];
      RunningStep(rest, v, before, size, goal);
      assert rest[0] == inst && rest[1..] == program[k + 1..];
      rest := rest[1..];
      if IsTerminal(inst.op) {
        sp := sp - 1;
        if stack[sp] {
          return if inst.op == OP_SLOT then inst.param else 0;
        }
        assert stack[..sp] == before[..|before| - 1];
      } else {
        sp := StepInPlace(inst, v, stack, sp);
      }
    }
    RunOfNothing(v, stack[..sp]);
  }

  lemma RunOfNothing(v: Valuation, st: seq<bool>)
    ensures Run([], v, st) == Routed(0)
  {
  }

  /** The rest of a program, run from st within a stack of the given size, ends in r. */
  ghost predicate Running(rest: seq<Instr>, v: Valuation, st: seq<bool>, size: nat, r: Outcome) {
    && AllowedOps(rest, SplitOp)
    && NoUnderflow(rest, |st|) && Peak(rest, |st|) <= size
    && Run(rest, v, st) == r
  }

  lemma RunningStep(rest: seq<Instr>, v: Valuation, st: seq<bool>, size: nat, r: Outcome)
    requires Running(rest, v, st, size, r) && rest != []
    ensures |st| >= Pops(rest[0].op) && SplitOp(rest[0].op, rest[0].param)
    ensures |st| - Pops(rest[0].op) + Pushes(rest[0].op) <= size
    ensures IsTerminal(rest[0].op) ==>
              if st[|st| - 1] then r == Routed(if rest[0].op == OP_SLOT then rest[0].param else 0)
              else Running(rest[1..], v, st[..|st| - 1], size, r)
    ensures !IsTerminal(rest[0].op) ==> Running(rest[1..], v, Apply(rest[0], v, st), size, r)
  {
    SplitTail(rest);
    var next := |st| - Pops(rest[0].op) + Pushes(rest[0].op);
    assert Peak(rest[1..], next) >= next;
  }

  /** One non-terminal case of the evaluator's switch. */
  method StepInPlace(inst: Instr, v: Valuation, stack: array<bool>, sp: nat) returns (next: nat)
    requires !IsTerminal(inst.op) && SplitOp(inst.op, inst.param)
    requires Pops(inst.op) <= sp && sp - Pops(inst.op) + Pushes(inst.op) <= stack.Length && sp <= stack.Length
    modifies stack
    ensures next == sp - Pops(inst.op) + Pushes(inst.op)
    ensures stack[..next] == Apply(inst, v, old(stack[..sp]))
  {
    next := sp;
    if inst.op == OP_NOT {
      stack[next - 1] := !stack[next - 1];
    } else if inst.op == OP_AND {
      next := next - 1;
      stack[next - 1] := stack[next - 1] && stack[next];
    } else if inst.op == OP_OR {
      next := next - 1;
      stack[next - 1] := stack[next - 1] || stack[next];
    } else {
      stack[next] := Holds(inst, v);
      next := next + 1;
    }
  }

  // ---------------------------------------------------------------- mentioned slots

  /** The first loop of mentionedBytecodeSlots: which slots SLOT instructions name. */
  method MarkSlots(code: seq<byte>) returns (seen: set<nat>)
    requires ValidProgram(code, SplitOp)
    ensures forall s: nat :: s in seen <==> s != 0 && Instr(OP_SLOT, s) in Decode(code, 0).value
  {
    seen := {};
    ghost var rest := Decode(code, 0).value;
    ghost var whole, done := rest, [];
    var pc := 0;
    while pc < |code|
      invariant 0 <= pc <= |code|
      invariant Decode(code, pc) == Some(rest)
      invariant whole == done + rest
      invariant forall s: nat :: s in seen <==> s != 0 && Instr(OP_SLOT, s) in done
    {
      DecodeNext(code, pc, rest);
      var op := code[pc];
      var (param, next) := ReadParamUnchecked(code, pc + 1, op);
      assert done + rest == (done + [rest[0]]) + rest[1..];
      done, rest := done + [rest[0]], rest[1..];
      pc := next;
      if op == OP_SLOT && param != 0 {
        seen := seen + {param};
      }
    }
    assert done + [] == done;
  }

  /** mentionedBytecodeSlots for one program: its non-zero slots, in order. */
  method MentionedSlots(code: seq<byte>) returns (slots: seq<nat>)
    requires ValidProgram(code, SplitOp)
    ensures forall i, j | 0 <= i < j < |slots| :: slots[i] < slots[j]
    ensures forall s: nat :: s in slots <==>
              1 <= s <= ROUTER_SLOTS && Instr(OP_SLOT, s) in Decode(code, 0).value
  {
    var seen := MarkSlots(code);
    slots := [];
    for slot := 1 to ROUTER_SLOTS + 1
      invariant forall i, j | 0 <= i < j < |slots| :: slots[i] < slots[j]
      invariant forall s: nat :: s in slots <==> 1 <= s < slot && s in seen
    {
      assert forall i | 0 <= i < |slots| :: slots[i] in slots;
      if slot in seen { slots := slots + [slot]; }
    }
  }

  /** Whatever the input, a program routes to slot 0 or to a slot it names. */
  lemma {:induction false} RoutedSlotIsMentioned(p: seq<Instr>, v: Valuation, st: seq<bool>)
    requires NoUnderflow(p, |st|) && AllowedOps(p, SplitOp)
    ensures var r := Run(p, v, st);
            r.Routed? && (r.slot == 0 || (r.slot <= ROUTER_SLOTS && Instr(OP_SLOT, r.slot) in p))
  {
    if p != [] {
      assert forall i | 0 <= i < |p[1..]| :: p[1..][i] == p[i + 1];
      assert SplitOp(p[0].op, p[0].param);
      if !IsTerminal(p[0].op) {
        RoutedSlotIsMentioned(p[1..], v, Apply(p[0], v, st));
      } else if !st[|st| - 1] {
        RoutedSlotIsMentioned(p[1..], v, st[..|st| - 1]);
      }
    }
  }
}
