/** The byte form of rule programs, as the parser writes it (routing/parser.go), and what the
    decoder of routing/bytecode.go makes of it. Numbers are written out here, so that nothing below
    depends on how the decoder names or reads them. */
module Assembler {
  import opened Basics
  import opened Bytecode

  /** Opcodes that the parser writes with a two-byte parameter. */
  predicate IsWide(op: byte) {
    13 <= op <= 27 || op == 32 || 34 <= op <= 38
  }

  /** Instructions that can be written: the parameter fits the bytes there are for it. */
  predicate Writable(i: Instr) {
    i.op <= 38 && if i.op == 1 then i.param < 256 else if IsWide(i.op) then i.param < 65536 else i.param == 0
  }

  /** One instruction: the opcode, then a slot byte, or two bytes with the low one first. */
  function Bytes(i: Instr): (code: seq<byte>)
    requires Writable(i)
  {
    if i.op == 1 then [i.op, i.param]
    else if IsWide(i.op) then [i.op, i.param % 256, i.param / 256]
    else [i.op]
  }

  predicate AllWritable(p: seq<Instr>) {
    forall i | 0 <= i < |p| :: Writable(p[i])
  }

  function Assemble(p: seq<Instr>): seq<byte>
    requires AllWritable(p)
  {
    if p == [] then [] else Bytes(p[0]) + Assemble(p[1..])
  }

  /** The decoder reads the bytes of one instruction as that instruction, wherever they stand. */
  lemma ReadsOne(before: seq<byte>, i: Instr, after: seq<byte>)
    requires Writable(i)
    ensures var code := before + Bytes(i) + after;
            code[|before|] == i.op && ReadParam(code, |before| + 1, i.op) == Param(i.param, |before| + |Bytes(i)|)
  {
    var code := before + Bytes(i) + after;
    assert forall k | 0 <= k < |Bytes(i)| :: code[|before| + k] == Bytes(i)[k];
  }

  /** Decoding what was assembled gives the program back, behind any other bytes. */
  lemma {:induction false} DecodeAssembled(before: seq<byte>, p: seq<Instr>)
    requires AllWritable(p)
    ensures Decode(before + Assemble(p), |before|) == Some(p)
    decreases |p|
  {
    if p != [] {
      var head, tail := Bytes(p[0]), Assemble(p[1..]);
      ReadsOne(before, p[0], tail);
      hide Bytes, ReadParam, Writable;
      DecodeAssembled(before + head, p[1..]);
      assert before + (head + tail) == before + head + tail;
      assert p == [p[0]] + p[1..];
    }
  }

  /** What the decoder reads is the instruction that these bytes are written for. */
  lemma OneIsRead(code: seq<byte>, pc: nat)
    requires pc < |code| && ReadParam(code, pc + 1, code[pc]).Param?
    ensures var r := ReadParam(code, pc + 1, code[pc]); var i := Instr(code[pc], r.param);
            pc < r.next <= |code| && Writable(i) && code[pc..r.next] == Bytes(i)
  {
  }

  /** And only assembled programs decode: bytes and programs determine each other. */
  lemma {:induction false} AssembleDecoded(code: seq<byte>, pc: nat, p: seq<Instr>)
    requires pc <= |code| && Decode(code, pc) == Some(p)
    ensures AllWritable(p) && Assemble(p) == code[pc..]
    decreases |code| - pc
  {
    hide ReadParam, Writable, Bytes, Assemble, AllWritable;
    if pc == |code| {
      AssembleNone();
    } else {
      OneIsRead(code, pc);
      var r := ReadParam(code, pc + 1, code[pc]);
      var rest := Decode(code, r.next).value;
      AssembleDecoded(code, r.next, rest);
      AssembleOneMore(Instr(code[pc], r.param), rest);
      assert code[pc..] == code[pc..r.next] + code[r.next..];
    }
  }

  lemma AssembleNone()
    ensures AllWritable([]) && Assemble([]) == []
  {
  }

  lemma AssembleOneMore(i: Instr, rest: seq<Instr>)
    requires Writable(i) && AllWritable(rest)
    ensures AllWritable([i] + rest) && Assemble([i] + rest) == Bytes(i) + Assemble(rest)
  {
    hide Writable, Bytes;
    assert ([i] + rest)[1..] == rest;
    assert forall k | 0 < k < |[i] + rest| :: ([i] + rest)[k] == rest[k - 1];
  }

  lemma DecodeIffAssembled(code: seq<byte>, p: seq<Instr>)
    ensures Decode(code, 0) == Some(p) <==> AllWritable(p) && Assemble(p) == code
  {
    assert code[0..] == code;
    if Decode(code, 0) == Some(p) {
      AssembleDecoded(code, 0, p);
    }
    if AllWritable(p) && Assemble(p) == code {
      DecodeAssembled([], p);
      assert [] + Assemble(p) == code;
    }
  }

  /** The opcodes by number: what each does to a stack st with the values a and b on top. */
  lemma OpcodesByNumber(st: seq<bool>, a: bool, b: bool, rest: seq<Instr>, n: nat, v: Valuation)
    ensures Apply(Instr(2, 0), v, st) == st + [true] && Apply(Instr(3, 0), v, st) == st + [false]
    ensures Apply(Instr(4, 0), v, st + [a]) == st + [!a]
    ensures Apply(Instr(5, 0), v, st + [a, b]) == st + [a && b]
    ensures Apply(Instr(6, 0), v, st + [a, b]) == st + [a || b]
    ensures Run([Instr(0, 0)] + rest, v, st + [a]) == if a then Routed(0) else Run(rest, v, st)
    ensures Run([Instr(1, n)] + rest, v, st + [a]) == if a then Routed(n) else Run(rest, v, st)
  {
    assert (st + [a])[..|st|] == st && (st + [a, b])[..|st|] == st;
    assert ([Instr(0, 0)] + rest)[1..] == rest && ([Instr(1, n)] + rest)[1..] == rest;
  }

  /** What each opcode takes and leaves, which opcodes have a parameter of which width, and which of them
      route packets, by number. */
  lemma OpcodeTable(op: byte, param: nat)
    ensures Pops(op) == if op == 5 || op == 6 then 2 else if op in {0, 1, 4, 31, 34, 35} then 1 else 0
    ensures Pushes(op) == if op in {0, 1, 31, 34, 35} then 0 else 1
    ensures ParamWidth(op) == if op == 1 then 1 else if IsWide(op) then 2 else 0
    ensures SplitOp(op, param) <==> op <= 27 && (op == 1 ==> param <= 16)
  {
  }

  /** RULE 1, SLOT 2 in bytes: the slot is 2 if the rule holds, and 0 otherwise. */
  lemma RuleOneSlotTwo(v: Valuation)
    ensures Decode([27, 1, 0, 1, 2], 0) == Some([Instr(OP_RULE, 1), Instr(OP_SLOT, 2)])
    ensures Run(Decode([27, 1, 0, 1, 2], 0).value, v, []) == Routed(if Instr(OP_RULE, 1) in v then 2 else 0)
  {
    var rule, slot := Instr(27, 1), Instr(1, 2);
    AssembleTwo(rule, slot);
    assert [27, 1, 0] + [1, 2] == [27, 1, 0, 1, 2];
    hide Assemble, Decode, Run;
    DecodeIffAssembled([27, 1, 0, 1, 2], [rule, slot]);
    RunRuleSlot(rule, slot, v);
  }

  lemma AssembleTwo(x: Instr, y: Instr)
    requires Writable(x) && Writable(y)
    ensures Assemble([x, y]) == Bytes(x) + Bytes(y)
  {
    AssembleOneMore(y, []);
    AssembleOneMore(x, [y]);
    assert [x] + [y] == [x, y] && [y] + [] == [y];
  }

  lemma RunRuleSlot(rule: Instr, slot: Instr, v: Valuation)
    requires rule.op == OP_RULE && slot.op == OP_SLOT
    ensures Run([rule, slot], v, []) == Routed(if rule in v then slot.param else 0)
  {
    var p := [rule, slot];
    assert p[1..] == [slot] && [slot][1..] == [];
    var st := [rule in v];
    assert Apply(rule, v, []) == st;
    assert Run([slot], v, st) == if rule in v then Routed(slot.param) else Run([], v, st[..0]);
  }
}
