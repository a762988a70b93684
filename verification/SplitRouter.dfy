/** Route of the split router: parsed packet, whole-route cache, compiled segments or the
    stack machine, per-packet memo and cross-packet rule cache (routing/split_bytecode.go).
    A matcher's answer may change with time, and any call may fail. */
module SplitRouter {
  import opened Basics
  import opened Bytecode
  import opened SplitCompiler
  import opened ResultCache

  datatype Address = Address(v4: bool, bits: nat)

  /** What OP_RULE matchers see. */
  datatype Flow = Flow(proto: byte, src: Address, dst: Address, srcPort: uint16, dstPort: uint16)

  /** parsedIPPacket; body stands for the bytes that routing never looks at. */
  datatype Packet = Packet(flow: Flow, hasPorts: bool, flowOK: bool, body: seq<byte>)

  /** One call of Route. */
  datatype Arrival = Arrival(pkt: Packet, native: bool)

  /** splitRuleCacheKey. */
  datatype RuleKey = RuleKey(rule: nat, proto: byte, src: Address, dst: Address, srcPort: uint16, dstPort: uint16)

  /** splitRouteCacheKey. */
  datatype RouteKey = RouteKey(proto: byte, flags: byte, src: Address, dst: Address, srcPort: uint16, dstPort: uint16)

  const FLAG_NATIVE: byte := 1
  const FLAG_HAS_PORTS: byte := 2
  const FLAG_FLOW_OK: byte := 4

  /** ruleCacheKey. */
  function RuleKeyOf(rule: nat, f: Flow): RuleKey {
    RuleKey(rule, f.proto, f.src, f.dst, f.srcPort, f.dstPort)
  }

  /** splitRouteCacheKeyFromPacket. */
  function KeyOf(a: Arrival): RouteKey {
    var f := a.pkt.flow;
    var flags := (if a.native then FLAG_NATIVE else 0) + (if a.pkt.hasPorts then FLAG_HAS_PORTS else 0)
                 + (if a.pkt.flowOK then FLAG_FLOW_OK else 0);
    RouteKey(f.proto, flags, f.src, f.dst, f.srcPort, f.dstPort)
  }

  /** The tables of one router: matchers, whose answers depend on the time of the question, and what
      the other tables say of two addresses. */
  datatype Tables = Tables(
    matchers: nat,
    answer: (nat, Flow, int) -> bool,
    lookup: (Instr, Address, Address) -> bool)
  {
    /** A rule that the router would put to its matcher. */
    predicate Asks(a: Arrival, rule: nat) {
      a.native && rule < matchers && a.pkt.hasPorts && a.pkt.flowOK
    }

    /** A predicate that is decided by the packet alone, by the number of its opcode: address family,
        UDP and TCP, host names, ports, and addresses in tables. */
    predicate Plain(a: Arrival, i: Instr) {
      var f := a.pkt.flow;
      match i.op
      case 7 => f.src.v4
      case 8 => !f.src.v4
      case 9 => f.proto == 17
      case 10 => f.proto == 6
      case 11 => false
      case 12 => false
      case 25 => a.pkt.hasPorts && f.dstPort == i.param
      case 26 => a.pkt.hasPorts && f.srcPort == i.param
      case _ => lookup(i, f.src, f.dst)
    }

    /** b is what the matcher of this rule says at some moment after lo and not after hi. */
    ghost predicate Said(a: Arrival, rule: nat, b: bool, lo: int, hi: int) {
      exists m: int :: lo < m <= hi && b == answer(rule, a.pkt.flow, m)
    }
  }

  /** v holds what is true of a packet, each rule being answered at some moment in (lo, hi]. */
  ghost predicate FactsWithin(t: Tables, a: Arrival, lo: int, hi: int, v: Valuation) {
    forall i: Instr ::
      if i.op != OP_RULE then i in v <==> t.Plain(a, i)
      else if t.Asks(a, i.param) then t.Said(a, i.param, i in v, lo, hi)
      else i !in v
  }

  /** The stack machine chooses slot for this packet, each rule being answered at some moment in
      (lo, hi]. */
  ghost predicate SlotWithin(program: seq<Instr>, t: Tables, a: Arrival, lo: int, hi: int, slot: nat) {
    exists v: Valuation :: FactsWithin(t, a, lo, hi, v) && Run(program, v, []) == Routed(slot)
  }

  /** The slot was right at stamp, on answers given less than span before. */
  ghost predicate RightRoute(program: seq<Instr>, t: Tables, span: int, a: Arrival, stamp: int, slot: nat) {
    SlotWithin(program, t, a, stamp - span, stamp, slot)
  }

  /** What the two caches promise of their entries. */
  ghost function RuleTruth(t: Tables): (RuleKey, int, bool) -> bool {
    (k: RuleKey, m: int, b: bool) => b == t.answer(k.rule, Flow(k.proto, k.src, k.dst, k.srcPort, k.dstPort), m)
  }

  ghost function RouteTruth(program: seq<Instr>, t: Tables, span: int): (RouteKey, int, nat) -> bool {
    (k: RouteKey, m: int, slot: nat) => forall a: Arrival | KeyOf(a) == k :: RightRoute(program, t, span, a, m, slot)
  }

  /** time.Now: never goes back. */
  class Clock {
    var time: int

    constructor (time: int)
      ensures this.time == time
    {
      this.time := time;
    }

    method Now() returns (now: int)
      modifies this
      ensures now == time >= old(time)
    {
      var passed: int := *;
      if passed > 0 { time := time + passed; }
      now := time;
    }
  }

  /** Matcher calls: an answer counts for the moment at which it is recorded. */
  class Matchers {
    const t: Tables
    ghost var failures: nat

    constructor (t: Tables)
      ensures this.t == t
    {
      this.t := t;
      failures := 0;
    }

    method Match(rule: nat, flow: Flow, clock: Clock) returns (r: Option<bool>, at: int)
      modifies this, clock
      ensures at == clock.time >= old(clock.time)
      ensures r.Some? ==> r.value == t.answer(rule, flow, at) && failures == old(failures)
      ensures r.None? ==> failures == old(failures) + 1
    {
      at := clock.Now();
      if * {
        failures := failures + 1;
        r := None;
      } else {
        r := Some(t.answer(rule, flow, at));
      }
    }
  }

  // ---------------------------------------------------------------- partial knowledge

  /** v agrees with the packet and with the rules asked so far; other rules are open. */
  ghost predicate Completes(t: Tables, a: Arrival, memo: map<nat, bool>, v: Valuation) {
    forall i: Instr ::
      if i.op != OP_RULE then i in v <==> t.Plain(a, i)
      else if t.Asks(a, i.param) then i.param in memo ==> (i in v <==> memo[i.param])
      else i !in v
  }

  predicate Extends(memo: map<nat, bool>, more: map<nat, bool>) {
    forall r | r in memo :: r in more && more[r] == memo[r]
  }

  /** Asking more rules leaves fewer possibilities. */
  lemma FewerCompletions(t: Tables, a: Arrival, memo: map<nat, bool>, more: map<nat, bool>, v: Valuation)
    requires Extends(memo, more) && Completes(t, a, more, v)
    ensures Completes(t, a, memo, v)
  {
  }

  /** Every rule asked was answered at some moment in (lo, hi]. */
  ghost predicate Answered(t: Tables, a: Arrival, memo: map<nat, bool>, lo: int, hi: int) {
    forall r | r in memo :: if t.Asks(a, r) then t.Said(a, r, memo[r], lo, hi) else !memo[r]
  }

  /** Some completion answers the open rules as of hi. */
  lemma SomeCompletion(t: Tables, a: Arrival, memo: map<nat, bool>, lo: int, hi: int) returns (v: Valuation)
    requires Answered(t, a, memo, lo, hi) && lo < hi
    ensures Completes(t, a, memo, v) && FactsWithin(t, a, lo, hi, v)
  {
    v := iset i: Instr |
        if i.op != OP_RULE then t.Plain(a, i)
        else t.Asks(a, i.param) && (if i.param in memo then memo[i.param] else t.answer(i.param, a.pkt.flow, hi));
    forall i: Instr | i.op == OP_RULE && t.Asks(a, i.param) ensures t.Said(a, i.param, i in v, lo, hi) {
      if i.param !in memo { assert lo < hi <= hi && (i in v) == t.answer(i.param, a.pkt.flow, hi); }
    }
  }

  lemma CompletionIsPacket(t: Tables, a: Arrival, memo: map<nat, bool>, v: Valuation)
    requires Completes(t, a, memo, v)
    ensures PacketValuation(v)
  {
  }

  // ---------------------------------------------------------------- evaluation

  /** splitEval: the state of one evaluation. */
  class Eval {
    const matchers: Matchers
    const rules: Cache?<RuleKey, bool>
    const a: Arrival
    const clock: Clock
    var memo: map<nat, bool>
    var cacheable: bool
    var cacheNow: Option<int>
    ghost const failuresAtStart: nat
    ghost const start: int

    /** The age that an answer may have. */
    ghost function Margin(): int {
      if rules == null then 1 else rules.ttl
    }

    ghost predicate Valid()
      reads this, matchers, rules, clock
    {
      && (rules != null ==> rules.Stamped(RuleTruth(matchers.t), clock.time) && rules.ttl > 0)
      && start <= clock.time
      && (cacheNow.Some? ==> start <= cacheNow.value)
      && matchers.failures >= failuresAtStart
      && (cacheable <==> matchers.failures == failuresAtStart)
      && (cacheable ==> Answered(matchers.t, a, memo, start - Margin(), clock.time))
    }

    ghost function Frame(): set<object>
    {
      {this, matchers, clock} + (if rules == null then {} else {rules})
    }

    /** The valuations that the rules asked so far leave open. */
    ghost predicate Open(v: Valuation)
      reads this
    {
      Completes(matchers.t, a, memo, v)
    }

    constructor (matchers: Matchers, rules: Cache?<RuleKey, bool>, a: Arrival, clock: Clock)
      requires rules != null ==> rules.Stamped(RuleTruth(matchers.t), clock.time) && rules.ttl > 0
      ensures Valid() && cacheable && memo == map[] && fresh(this)
      ensures this.matchers == matchers && this.rules == rules && this.a == a && this.clock == clock
      ensures failuresAtStart == matchers.failures && start == clock.time
    {
      this.matchers, this.rules, this.a, this.clock := matchers, rules, a, clock;
      memo, cacheable, cacheNow := map[], true, None;
      failuresAtStart, start := matchers.failures, clock.time;
    }

    /** now: one timestamp for all cache reads of a packet. */
    method Now() returns (now: int)
      requires Valid()
      modifies this`cacheNow, clock
      ensures Valid() && now >= start && clock.time >= old(clock.time)
    {
      if cacheNow.None? {
        now := clock.Now();
        LaterStillValid(old(clock.time));
        cacheNow := Some(now);
      }
      now := cacheNow.value;
    }

    /** Time passing takes nothing away. */
    lemma LaterStillValid(before: int)
      requires before <= clock.time && start <= before
      requires rules != null ==> rules.Stamped(RuleTruth(matchers.t), before)
      requires cacheable ==> Answered(matchers.t, a, memo, start - Margin(), before)
      ensures rules != null ==> rules.Stamped(RuleTruth(matchers.t), clock.time)
      ensures cacheable ==> Answered(matchers.t, a, memo, start - Margin(), clock.time)
    {
      if rules != null { rules.StampedLater(RuleTruth(matchers.t), before, clock.time); }
      if cacheable { AnsweredLater(matchers.t, a, memo, start - Margin(), before, clock.time); }
    }

    /** matchRule: rule cache, then matcher; errors are neither cached nor replayed. */
    method MatchRule(rule: nat) returns (got: bool)
      requires Valid() && a.native && rule < matchers.t.matchers
      modifies Frame()
      ensures Valid() && memo == old(memo)
      ensures cacheable ==> old(cacheable)
      ensures cacheable ==> if matchers.t.Asks(a, rule) then matchers.t.Said(a, rule, got, start - Margin(), clock.time) else !got
    {
      if !a.pkt.hasPorts || !a.pkt.flowOK {
        return false;
      }
      var k := RuleKeyOf(rule, a.pkt.flow);
      if rules != null {
        var now := Now();
        var hit := rules.Get(k, now, RuleTruth(matchers.t), clock.time);
        if hit.Some? {
          return hit.value;
        }
      }
      ghost var before := clock.time;
      var r, at := matchers.Match(rule, a.pkt.flow, clock);
      if r.None? {
        cacheable := false;
        if rules != null { rules.StampedLater(RuleTruth(matchers.t), before, clock.time); }
        return false;
      }
      LaterStillValid(before);
      if rules != null {
        rules.Set(k, r.value, at, RuleTruth(matchers.t));
      }
      got := r.value;
      assert start - Margin() < at <= clock.time && got == matchers.t.answer(rule, a.pkt.flow, at);
    }

    /** rule: at most one matcher call per rule and packet. */
    method Rule(rule: nat) returns (got: bool)
      requires Valid()
      modifies Frame()
      ensures Valid() && Extends(old(memo), memo)
      ensures cacheable ==> old(cacheable) && forall v: Valuation | Open(v) :: got == (Instr(OP_RULE, rule) in v)
    {
      if !a.native || rule >= matchers.t.matchers {
        return false;
      }
      if rule in memo {
        return memo[rule];
      }
      got := MatchRule(rule);
      memo := memo[rule := got];
    }

    /** atom. */
    method Atom(i: Instr) returns (got: bool)
      requires Valid()
      modifies Frame()
      ensures Valid() && Extends(old(memo), memo)
      ensures cacheable ==> old(cacheable) && forall v: Valuation | Open(v) :: got == (i in v)
    {
      if i.op == OP_RULE {
        got := Rule(i.param);
        assert Instr(OP_RULE, i.param) == i;
      } else if i.op == OP_NET4 {
        got := a.pkt.flow.src.v4;
      } else if i.op == OP_NET6 {
        got := !a.pkt.flow.src.v4;
      } else if i.op == OP_UDP {
        got := a.pkt.flow.proto == 17;
      } else if i.op == OP_TCP {
        got := a.pkt.flow.proto == 6;
      } else if i.op == OP_FQDN || i.op == OP_LFQDN {
        got := false;
      } else if i.op == OP_PORT {
        got := a.pkt.hasPorts && i.param == a.pkt.flow.dstPort;
      } else if i.op == OP_LPORT {
        got := a.pkt.hasPorts && i.param == a.pkt.flow.srcPort;
      } else {
        got := matchers.t.lookup(i, a.pkt.flow.src, a.pkt.flow.dst);
      }
    }

    // -------------------------------------------------------------- compiled segments

    /** What was settled for every possibility stays settled when more rules are asked. */
    lemma Narrowed(asked: map<nat, bool>)
      requires Extends(asked, memo)
      ensures forall v: Valuation | Open(v) :: Completes(matchers.t, a, asked, v)
    {
      forall v: Valuation | Open(v) ensures Completes(matchers.t, a, asked, v) {
        FewerCompletions(matchers.t, a, asked, memo, v);
      }
    }

    /** evalCond, with left-to-right short-circuiting over child lists. */
    method EvalNode(conds: seq<Cond>, idx: nat) returns (got: bool)
      requires Valid() && WellFormed(conds) && ProperAtoms(conds) && idx < |conds|
      modifies Frame()
      ensures Valid() && Extends(old(memo), memo)
      ensures cacheable ==> old(cacheable) && forall v: Valuation | Open(v) :: got == EvalCond(conds, idx, v).value
      decreases idx
    {
      hide Completes;
      assert NodeBelow(conds[idx], idx);
      match conds[idx]
      case CConst(b) => got := b;
      case CAtom(a) => got := Atom(a);
      case CNot(child) =>
        var g := EvalNode(conds, child);
        got := !g;
      case CAnd(kids) => got := EvalAllKids(conds, kids, idx);
      case COr(kids) => got := EvalAnyKids(conds, kids, idx);
    }

    method EvalAllKids(conds: seq<Cond>, kids: seq<nat>, idx: nat) returns (got: bool)
      requires Valid() && WellFormed(conds) && ProperAtoms(conds) && Top(kids) <= idx < |conds|
      modifies Frame()
      ensures Valid() && Extends(old(memo), memo)
      ensures cacheable ==> old(cacheable) && forall v: Valuation | Open(v) :: got == EvalAll(conds, kids, v).value
      decreases idx, 0
    {
      hide Completes, EvalCond;
      TopBounds(kids);
      for i := 0 to |kids|
        invariant Valid() && Extends(old(memo), memo)
        invariant cacheable ==> old(cacheable)
        invariant Top(kids[i..]) <= idx
        invariant cacheable ==> forall v: Valuation | Open(v) :: EvalAll(conds, kids[i..], v).value == EvalAll(conds, kids, v).value
      {
        assert kids[i..][0] == kids[i] && kids[i..][1..] == kids[i + 1..];
        ghost var asked := memo;
        var g := EvalNode(conds, kids[i]);
        Narrowed(asked);
        if !g { return false; }
      }
      return true;
    }

    method EvalAnyKids(conds: seq<Cond>, kids: seq<nat>, idx: nat) returns (got: bool)
      requires Valid() && WellFormed(conds) && ProperAtoms(conds) && Top(kids) <= idx < |conds|
      modifies Frame()
      ensures Valid() && Extends(old(memo), memo)
      ensures cacheable ==> old(cacheable) && forall v: Valuation | Open(v) :: got == EvalAny(conds, kids, v).value
      decreases idx, 0
    {
      hide Completes, EvalCond;
      TopBounds(kids);
      for i := 0 to |kids|
        invariant Valid() && Extends(old(memo), memo)
        invariant cacheable ==> old(cacheable)
        invariant Top(kids[i..]) <= idx
        invariant cacheable ==> forall v: Valuation | Open(v) :: EvalAny(conds, kids[i..], v).value == EvalAny(conds, kids, v).value
      {
        assert kids[i..][0] == kids[i] && kids[i..][1..] == kids[i + 1..];
        ghost var asked := memo;
        var g := EvalNode(conds, kids[i]);
        Narrowed(asked);
        if g { return true; }
      }
      return false;
    }

    /** predicates: the flat loop. */
    method EvalPreds(fast: FastKind, preds: seq<Pred>) returns (got: bool)
      requires Valid() && fast != FastNone
      modifies Frame()
      ensures Valid() && Extends(old(memo), memo)
      ensures cacheable ==> old(cacheable)
      ensures cacheable ==> forall v: Valuation | Open(v) :: got == (if fast == FastAll then AllPreds(preds, v) else AnyPreds(preds, v)).value
    {
      hide Completes;
      for i := 0 to |preds|
        invariant Valid() && Extends(old(memo), memo)
        invariant cacheable ==> old(cacheable)
        invariant cacheable && fast == FastAll ==> forall v: Valuation | Open(v) :: AllPreds(preds[i..], v).value == AllPreds(preds, v).value
        invariant cacheable && fast == FastAny ==> forall v: Valuation | Open(v) :: AnyPreds(preds[i..], v).value == AnyPreds(preds, v).value
      {
        assert preds[i..][0] == preds[i] && preds[i..][1..] == preds[i + 1..];
        ghost var asked := memo;
        var g := true;
        if preds[i].inst.op != OP_TRUE { g := Atom(preds[i].inst); }
        Narrowed(asked);
        if preds[i].neg { g := !g; }
        if fast == FastAll && !g { return false; }
        if fast == FastAny && g { return true; }
      }
      return fast == FastAll;
    }

    /** One segment's condition. A condition that is one rule goes straight to rule. */
    method MatchSegment(conds: seq<Cond>, seg: Segment) returns (matched: bool)
      requires Valid() && WellFormed(conds) && ProperAtoms(conds) && seg.cond < |conds|
      requires FastMeans(conds, seg.cond, seg.fast, seg.preds)
      modifies Frame()
      ensures Valid() && Extends(old(memo), memo)
      ensures cacheable ==> old(cacheable) && forall v: Valuation | Open(v) :: matched == EvalCond(conds, seg.cond, v).value
    {
      if seg.fast == FastNone {
        matched := EvalNode(conds, seg.cond);
      } else if |seg.preds| == 1 && !seg.preds[0].neg && seg.preds[0].inst.op == OP_RULE {
        matched := Rule(seg.preds[0].inst.param);
        forall v: Valuation ensures EvalCond(conds, seg.cond, v).value == (Instr(OP_RULE, seg.preds[0].inst.param) in v) {
          SingleRule(conds, seg, v);
        }
      } else {
        matched := EvalPreds(seg.fast, seg.preds);
      }
    }

    /** routeBySegments. */
    method RouteCompiled(conds: seq<Cond>, segs: seq<Segment>) returns (slot: nat)
      requires Valid() && SegmentsFit(conds, segs) && ProperAtoms(conds)
      modifies Frame()
      ensures Valid() && Extends(old(memo), memo)
      ensures cacheable ==> old(cacheable) && forall v: Valuation | Open(v) :: slot == RouteSegments(conds, segs, 0, v).slot
    {
      hide Completes, FastMeans;
      for i := 0 to |segs|
        invariant Valid() && Extends(old(memo), memo)
        invariant cacheable ==> old(cacheable)
        invariant cacheable ==> forall v: Valuation | Open(v) :: RouteSegments(conds, segs, i, v).slot == RouteSegments(conds, segs, 0, v).slot
      {
        ghost var asked := memo;
        var matched := MatchSegment(conds, segs[i]);
        Narrowed(asked);
        if matched {
          return SegmentSlot(segs[i]);
        }
      }
      return 0;
    }

    // -------------------------------------------------------------- stack machine

    /** One opcode that does not end a segment. */
    method StackStep(inst: Instr, stack: seq<bool>) returns (next: seq<bool>)
      requires Valid() && !IsTerminal(inst.op) && SplitOp(inst.op, inst.param) && |stack| >= Pops(inst.op)
      modifies Frame()
      ensures Valid() && Extends(old(memo), memo)
      ensures |next| == |stack| - Pops(inst.op) + Pushes(inst.op)
      ensures cacheable ==> old(cacheable) && forall v: Valuation | Open(v) :: next == Apply(inst, v, stack)
    {
      hide Completes, Answered;
      if IsConnective(inst.op) {
        next := Apply(inst, iset{}, stack);
      } else if inst.op == OP_TRUE || inst.op == OP_FALSE {
        next := stack + [inst.op == OP_TRUE];
      } else {
        var g := Atom(inst);
        next := stack + [g];
      }
    }

    /** With the answers asked so far, going on from here gives what the whole program gives. */
    ghost predicate Continues(program: seq<Instr>, rest: seq<Instr>, asked: map<nat, bool>, stack: seq<bool>) {
      forall v: Valuation | Completes(matchers.t, a, asked, v) :: Run(rest, v, stack) == Run(program, v, [])
    }

    lemma StartsWhole(program: seq<Instr>, size: nat)
      requires NoUnderflow(program, 0) && AllowedOps(program, SplitOp) && size == Peak(program, 0)
      ensures Fits(program, 0, size) && Continues(program, program, memo, [])
    {
    }

    lemma ContinuesBelow(program: seq<Instr>, rest: seq<Instr>, stack: seq<bool>, size: nat)
      requires rest != [] && IsTerminal(rest[0].op) && Fits(rest, |stack|, size) && Continues(program, rest, memo, stack)
      ensures stack != []
      ensures if Last(stack) then
                forall v: Valuation | Open(v) :: Run(program, v, []) == Routed(if rest[0].op == OP_SLOT then rest[0].param else 0)
              else Continues(program, rest[1..], memo, stack[..|stack| - 1])
    {
      FitsStep(rest, |stack|, size);
      hide Run, Completes, Fits;
      forall v: Valuation | Open(v)
        ensures Run(program, v, []) ==
                if Last(stack) then Routed(if rest[0].op == OP_SLOT then rest[0].param else 0)
                else Run(rest[1..], v, stack[..|stack| - 1])
      {
        StepOfRun(rest, v, stack, size);
      }
    }

    lemma ContinuesAfter(program: seq<Instr>, rest: seq<Instr>, asked: map<nat, bool>, before: seq<bool>, stack: seq<bool>, size: nat)
      requires rest != [] && !IsTerminal(rest[0].op) && Fits(rest, |before|, size) && Continues(program, rest, asked, before)
      requires Extends(asked, memo) && |before| >= Pops(rest[0].op)
      requires forall v: Valuation | Open(v) :: stack == Apply(rest[0], v, before)
      ensures Continues(program, rest[1..], memo, stack)
    {
      hide Run, Completes, Fits, Apply, Extends;
      Narrowed(asked);
      forall v: Valuation | Open(v) ensures Run(rest[1..], v, stack) == Run(program, v, []) {
        StepOfRun(rest, v, before, size);
        assert Completes(matchers.t, a, asked, v);
      }
    }

    /** The fallback: every predicate is evaluated, on one fixed stack. */
    method RouteByStack(program: seq<Instr>, maxDepth: nat) returns (slot: nat)
      requires Valid()
      requires NoUnderflow(program, 0) && AllowedOps(program, SplitOp) && maxDepth == Peak(program, 0)
      modifies Frame()
      ensures Valid() && Extends(old(memo), memo)
      ensures cacheable ==> old(cacheable) && forall v: Valuation | Open(v) :: Run(program, v, []) == Routed(slot)
    {
      hide Run, Peak, NoUnderflow, Completes, Fits, AllowedOps, SplitOp, Apply, Continues, Valid;
      StartsWhole(program, maxDepth);
      assert program[0..] == program;
      var stack: seq<bool> := [];
      for k := 0 to |program|
        invariant Valid() && Extends(old(memo), memo)
        invariant Fits(program[k..], |stack|, maxDepth)
        invariant cacheable ==> old(cacheable) && Continues(program, program[k..], memo, stack)
      {
        var inst := program[k];
        assert program[k..][0] == inst && program[k..][1..] == program[k + 1..];
        FitsStep(program[k..], |stack|, maxDepth);
        if IsTerminal(inst.op) {
          if cacheable { ContinuesBelow(program, program[k..], stack, maxDepth); }
          var n := |stack|;
          if stack[n - 1] {
            return if inst.op == OP_SLOT then inst.param else 0;
          }
          stack := stack[..n - 1];
        } else {
          ghost var before := stack;
          ghost var asked := memo;
          stack := StackStep(inst, stack);
          if cacheable { ContinuesAfter(program, program[k..], asked, before, stack, maxDepth); }
        }
      }
      assert program[|program|..] == [];
      if cacheable { ContinuesToEnd(program, stack); }
      return 0;
    }

    lemma ContinuesToEnd(program: seq<Instr>, stack: seq<bool>)
      requires Continues(program, [], memo, stack)
      ensures forall v: Valuation | Open(v) :: Run(program, v, []) == Routed(0)
    {
      forall v: Valuation ensures Run([], v, stack) == Routed(0) { RunOfNothing(v, stack); }
    }
  }

  lemma AnsweredLater(t: Tables, a: Arrival, memo: map<nat, bool>, lo: int, hi: int, later: int)
    requires Answered(t, a, memo, lo, hi) && hi <= later
    ensures Answered(t, a, memo, lo, later)
  {
  }

  lemma SingleRule(conds: seq<Cond>, seg: Segment, v: Valuation)
    requires WellFormed(conds) && seg.cond < |conds| && FastMeans(conds, seg.cond, seg.fast, seg.preds) && seg.fast != FastNone
    requires |seg.preds| == 1 && !seg.preds[0].neg && seg.preds[0].inst.op == OP_RULE
    ensures EvalCond(conds, seg.cond, v).value == (Instr(OP_RULE, seg.preds[0].inst.param) in v)
  {
    assert seg.preds[1..] == [] && seg.preds[0].inst == Instr(OP_RULE, seg.preds[0].inst.param);
    assert AllPreds(seg.preds[1..], v).value && !AnyPreds(seg.preds[1..], v).value;
  }

  /** The rest of a program neither underflows nor outgrows the stack. */
  ghost predicate Fits(rest: seq<Instr>, depth: nat, size: nat) {
    AllowedOps(rest, SplitOp) && NoUnderflow(rest, depth) && Peak(rest, depth) <= size
  }

  lemma FitsStep(rest: seq<Instr>, depth: nat, size: nat)
    requires Fits(rest, depth, size) && rest != []
    ensures depth >= Pops(rest[0].op) && SplitOp(rest[0].op, rest[0].param)
    ensures Fits(rest[1..], depth - Pops(rest[0].op) + Pushes(rest[0].op), size)
    ensures depth - Pops(rest[0].op) + Pushes(rest[0].op) <= size
  {
    SplitTail(rest);
  }

  /** How a run goes on. */
  ghost predicate RunStep(rest: seq<Instr>, v: Valuation, st: seq<bool>) {
    && rest != [] && |st| >= Pops(rest[0].op)
    && (!IsTerminal(rest[0].op) ==> Run(rest, v, st) == Run(rest[1..], v, Apply(rest[0], v, st)))
    && (IsTerminal(rest[0].op) ==>
          Run(rest, v, st) ==
          if Last(st) then Routed(if rest[0].op == OP_SLOT then rest[0].param else 0) else Run(rest[1..], v, st[..|st| - 1]))
  }

  lemma StepOfRun(rest: seq<Instr>, v: Valuation, st: seq<bool>, size: nat)
    requires Fits(rest, |st|, size) && rest != []
    ensures RunStep(rest, v, st)
  {
    RunningStep(rest, v, st, size, Run(rest, v, st));
  }

  // ---------------------------------------------------------------- the router

  /** bytecodeSplitRouter. */
  class Router {
    const matchers: Matchers
    const clock: Clock
    const rules: Cache?<RuleKey, bool>
    const routes: Cache?<RouteKey, nat>
    const program: seq<Instr>
    const maxDepth: nat
    const conds: seq<Cond>
    const segments: seq<Segment>
    const compiled: bool
    /** The longest time that a cached route took from the start of its evaluation to its storing. */
    ghost var longest: nat

    /** The lifetime of the rule cache; without it no answer is older than the evaluation. */
    ghost function RuleAge(): int {
      if rules == null then 1 else rules.ttl
    }

    /** How much older than a cached route the answers behind it may be. */
    ghost function Span(): int
      reads this
    {
      longest + RuleAge()
    }

    ghost predicate Valid()
      reads this, rules, routes, clock
    {
      && RuleAge() > 0
      && (rules != null ==> rules.Stamped(RuleTruth(matchers.t), clock.time))
      && (routes != null ==> routes.Stamped(RouteTruth(program, matchers.t, Span()), clock.time))
      && Wired()
    }

    /** The program is validated, and its compiled form, if any, means the same for every packet. */
    ghost predicate Wired() {
      && NoUnderflow(program, 0) && AllowedOps(program, SplitOp) && maxDepth == Peak(program, 0)
      && (compiled ==>
            && SegmentsFit(conds, segments) && ProperAtoms(conds)
            && forall v: Valuation | PacketValuation(v) ::
                 Run(program, v, []) == Routed(RouteSegments(conds, segments, 0, v).slot))
    }

    /** NewBytecodeSplitRouter, after validation. */
    constructor (code: seq<byte>, t: Tables, ruleTTL: int, ruleMax: int, routeTTL: int, routeMax: int, clock: Clock)
      requires ValidProgram(code, SplitOp)
      ensures Valid() && longest == 0
      ensures Decode(code, 0) == Some(program) && matchers.t == t && this.clock == clock
      ensures rules == null <==> CacheConfig(ruleTTL, ruleMax).None?
      ensures routes == null <==> RouteCacheConfig(routeTTL, routeMax, ruleTTL, ruleMax).None?
      ensures fresh(matchers) && (rules != null ==> fresh(rules)) && (routes != null ==> fresh(routes))
    {
      matchers := new Matchers(t);
      this.clock := clock;
      longest := 0;
      var ruleCfg := CacheConfig(ruleTTL, ruleMax);
      if ruleCfg.Some? {
        rules := new Cache<RuleKey, bool>(ruleCfg.value.0, ruleCfg.value.1);
      } else {
        rules := null;
      }
      var routeCfg := RouteCacheConfig(routeTTL, routeMax, ruleTTL, ruleMax);
      if routeCfg.Some? {
        routes := new Cache<RouteKey, nat>(routeCfg.value.0, routeCfg.value.1);
      } else {
        routes := null;
      }
      var p, depth := CompileSplitBytecode(code);
      program, maxDepth := p, depth;
      var cs, segs, ok := CompileSplitRoute(code);
      conds, segments, compiled := cs, segs, ok;
    }

    ghost function Frame(): set<object> {
      {this, matchers, clock} + (if rules == null then {} else {rules}) + (if routes == null then {} else {routes})
    }

    /** Run the program for one packet: compiled or on the stack. */
    method Evaluate(ev: Eval) returns (slot: nat)
      requires Wired() && ev.Valid() && ev.cacheable && ev.matchers == matchers && ev.rules == rules && RuleAge() > 0
      modifies ev.Frame()
      ensures ev.Valid()
      ensures ev.cacheable ==> SlotWithin(program, matchers.t, ev.a, ev.start - RuleAge(), ev.clock.time, slot)
    {
      hide Run, NoUnderflow, Peak;
      if compiled {
        slot := ev.RouteCompiled(conds, segments);
      } else {
        slot := ev.RouteByStack(program, maxDepth);
      }
      if ev.cacheable {
        ghost var v := SomeCompletion(matchers.t, ev.a, ev.memo, ev.start - RuleAge(), ev.clock.time);
        CompletionIsPacket(matchers.t, ev.a, ev.memo, v);
        assert ev.Open(v);
      }
    }

    /** A fresh evaluation; cacheable tells that no matcher failed. */
    method EvaluateAnew(a: Arrival) returns (slot: nat, cacheable: bool)
      requires Valid()
      modifies Frame()
      ensures Valid() && clock.time >= old(clock.time) && longest == old(longest)
      ensures matchers.failures >= old(matchers.failures)
      ensures cacheable <==> matchers.failures == old(matchers.failures)
      ensures cacheable ==> SlotWithin(program, matchers.t, a, old(clock.time) - RuleAge(), clock.time, slot)
    {
      hide Wired, SlotWithin, Answered, Right, RightAt;
      var ev := new Eval(matchers, rules, a, clock);
      ghost var truth := RouteTruth(program, matchers.t, Span());
      slot := Evaluate(ev);
      cacheable := ev.cacheable;
      if routes != null {
        assert routes.Stamped(truth, old(clock.time));
        routes.StampedLater(truth, old(clock.time), clock.time);
      }
    }

    /** The whole-route cache is asked. */
    method Recall(a: Arrival) returns (got: Option<nat>)
      requires Valid() && routes != null
      modifies routes, clock
      ensures Valid() && clock.time >= old(clock.time)
      ensures got.Some? ==> Served(program, matchers.t, a, old(clock.time), routes.ttl, Span(), clock.time, got.value)
    {
      hide Wired, RightRoute;
      var now := clock.Now();
      ghost var truth := RouteTruth(program, matchers.t, Span());
      routes.StampedLater(truth, old(clock.time), clock.time);
      if rules != null { rules.StampedLater(RuleTruth(matchers.t), old(clock.time), clock.time); }
      got := routes.Get(KeyOf(a), now, truth, clock.time);
      if got.Some? {
        ghost var stamp: int :| now - routes.ttl < stamp <= clock.time && truth(KeyOf(a), stamp, got.value);
        assert RightRoute(program, matchers.t, Span(), a, stamp, got.value);
      }
    }

    /** A slot found without matcher failures, by an evaluation from begin until now, goes to the
        whole-route cache. */
    method Remember(a: Arrival, slot: nat, ghost begin: int)
      requires Valid() && routes != null && begin <= clock.time
      requires SlotWithin(program, matchers.t, a, begin - RuleAge(), clock.time, slot)
      modifies routes, clock, this`longest
      ensures Valid() && clock.time >= old(clock.time)
      ensures longest == Max(old(longest), clock.time - begin)
    {
      hide Wired, SlotWithin;
      ghost var end := clock.time;
      ghost var before := Span();
      var later := clock.Now();
      if rules != null { rules.StampedLater(RuleTruth(matchers.t), end, later); }
      routes.StampedLater(RouteTruth(program, matchers.t, before), end, later);
      longest := Max(longest, later - begin);
      WiderSlot(program, matchers.t, a, begin - RuleAge(), end, later - Span(), later, slot);
      WiderSpan(program, matchers.t, before, Span());
      routes.StampedWeaker(RouteTruth(program, matchers.t, before), RouteTruth(program, matchers.t, Span()), later);
      SameKey(program, matchers.t, Span(), a, later, slot);
      routes.Set(KeyOf(a), slot, later, RouteTruth(program, matchers.t, Span()));
    }

    /** Route, for a packet that parsed. Whatever the caches hold, whenever entries expire or are
        pruned, and however often matchers fail: unless a matcher failed during this very call, the
        slot is the one the stack machine chooses for this packet. Either it was evaluated in this
        call, on answers given less than the rule lifetime before the call; or it comes from a route
        entry younger than the route lifetime, and was right, in the same sense, when stored. */
    method Route(pkt: Packet, native: bool) returns (slot: nat)
      requires Valid()
      modifies Frame()
      ensures Valid() && clock.time >= old(clock.time)
      ensures old(longest) <= longest <= Max(old(longest), clock.time - old(clock.time))
      ensures matchers.failures >= old(matchers.failures)
      ensures matchers.failures == old(matchers.failures) ==>
                || SlotWithin(program, matchers.t, Arrival(pkt, native), old(clock.time) - RuleAge(), clock.time, slot)
                || (routes != null && Served(program, matchers.t, Arrival(pkt, native), old(clock.time), routes.ttl,
                                             old(Span()), clock.time, slot))
    {
      hide Valid, SlotWithin, Served;
      var a := Arrival(pkt, native);
      if routes != null {
        var got := Recall(a);
        if got.Some? {
          return got.value;
        }
      }
      ghost var begin := clock.time;
      slot := Miss(a);
      if matchers.failures == old(matchers.failures) {
        WiderSlot(program, matchers.t, a, begin - RuleAge(), clock.time, old(clock.time) - RuleAge(), clock.time, slot);
      }
    }

    /** One call: unless a matcher fails during it, the stack machine's slot for this packet. */
    method RouteConstant(pkt: Packet, native: bool) returns (slot: nat)
      requires Valid() && Constant(matchers.t)
      modifies Frame()
      ensures Valid() && matchers.failures >= old(matchers.failures)
      ensures matchers.failures == old(matchers.failures) ==> Transparent(program, matchers.t, Arrival(pkt, native), slot)
    {
      hide Valid, SlotWithin, Served, Run, Constant, Facts;
      slot := Route(pkt, native);
      ghost var a := Arrival(pkt, native);
      if matchers.failures == old(matchers.failures) {
        if SlotWithin(program, matchers.t, a, old(clock.time) - RuleAge(), clock.time, slot) {
          ConstantAnswers(program, matchers.t, a, old(clock.time) - RuleAge(), clock.time, slot);
        } else {
          ServedIsRight(program, matchers.t, a, old(clock.time), routes.ttl, old(Span()), clock.time, slot);
        }
      }
    }

    /** A run of calls: every call that is not marked as failed returns the stack machine's slot,
        and there are no more marks than matcher failures. */
    method RouteAll(pkts: seq<Packet>, native: bool) returns (slots: seq<nat>, ghost failed: seq<bool>)
      requires Valid() && Constant(matchers.t)
      modifies Frame()
      ensures Valid() && |slots| == |failed| == |pkts|
      ensures forall i | 0 <= i < |pkts| && !failed[i] :: Transparent(program, matchers.t, Arrival(pkts[i], native), slots[i])
      ensures CountTrue(failed) <= matchers.failures - old(matchers.failures)
    {
      hide Valid, Constant, Transparent;
      slots, failed := [], [];
      for i := 0 to |pkts|
        invariant Valid() && |slots| == |failed| == i
        invariant forall j | 0 <= j < i && !failed[j] :: Transparent(program, matchers.t, Arrival(pkts[j], native), slots[j])
        invariant CountTrue(failed) <= matchers.failures - old(matchers.failures)
      {
        ghost var before := matchers.failures;
        var slot := RouteConstant(pkts[i], native);
        slots := slots + [slot];
        ghost var marked := failed + [matchers.failures != before];
        assert marked[..i] == failed;
        failed := marked;
      }
    }

    /** The rest of Route when the whole-route cache has nothing. */
    method Miss(a: Arrival) returns (slot: nat)
      requires Valid()
      modifies Frame()
      ensures Valid() && clock.time >= old(clock.time)
      ensures old(longest) <= longest <= Max(old(longest), clock.time - old(clock.time))
      ensures matchers.failures >= old(matchers.failures)
      ensures matchers.failures == old(matchers.failures) ==>
                SlotWithin(program, matchers.t, a, old(clock.time) - RuleAge(), clock.time, slot)
    {
      hide Valid, SlotWithin;
      var cacheable: bool;
      slot, cacheable := EvaluateAnew(a);
      if cacheable && routes != null {
        ghost var end := clock.time;
        Remember(a, slot, old(clock.time));
        WiderSlot(program, matchers.t, a, old(clock.time) - RuleAge(), end, old(clock.time) - RuleAge(), clock.time, slot);
      }
    }
  }

  /** Stored less than age before the call, on answers given less than span before it was stored. */
  ghost predicate Served(program: seq<Instr>, t: Tables, a: Arrival, call: int, age: int, span: int, now: int, slot: nat) {
    exists stamp: int :: call - age < stamp <= now && RightRoute(program, t, span, a, stamp, slot)
  }

  lemma WiderSlot(program: seq<Instr>, t: Tables, a: Arrival, lo: int, hi: int, lower: int, higher: int, slot: nat)
    requires SlotWithin(program, t, a, lo, hi, slot) && lower <= lo && hi <= higher
    ensures SlotWithin(program, t, a, lower, higher, slot)
  {
    hide Run;
    var v: Valuation :| FactsWithin(t, a, lo, hi, v) && Run(program, v, []) == Routed(slot);
    assert FactsWithin(t, a, lower, higher, v);
  }

  /** The key of the whole-route cache has everything that a route depends on. */
  lemma SameKeySameFacts(t: Tables, a: Arrival, b: Arrival)
    requires KeyOf(a) == KeyOf(b)
    ensures a.native == b.native && a.pkt.flow == b.pkt.flow && a.pkt.hasPorts == b.pkt.hasPorts && a.pkt.flowOK == b.pkt.flowOK
    ensures forall i: Instr :: t.Plain(a, i) == t.Plain(b, i)
    ensures forall lo: int, hi: int, v: Valuation :: FactsWithin(t, a, lo, hi, v) <==> FactsWithin(t, b, lo, hi, v)
  {
  }

  lemma SameKey(program: seq<Instr>, t: Tables, span: int, a: Arrival, stamp: int, slot: nat)
    requires RightRoute(program, t, span, a, stamp, slot)
    ensures RouteTruth(program, t, span)(KeyOf(a), stamp, slot)
  {
    hide Run, FactsWithin;
    forall b: Arrival | KeyOf(b) == KeyOf(a) ensures RightRoute(program, t, span, b, stamp, slot) {
      SameKeySameFacts(t, a, b);
    }
  }

  lemma WiderSpan(program: seq<Instr>, t: Tables, span: int, wider: int)
    requires span <= wider
    ensures forall k: RouteKey, m: int, slot: nat | RouteTruth(program, t, span)(k, m, slot) ::
              RouteTruth(program, t, wider)(k, m, slot)
  {
    hide SlotWithin;
    forall k: RouteKey, m: int, slot: nat | RouteTruth(program, t, span)(k, m, slot)
      ensures RouteTruth(program, t, wider)(k, m, slot)
    {
      forall a: Arrival | KeyOf(a) == k ensures RightRoute(program, t, wider, a, m, slot) {
        assert RightRoute(program, t, span, a, m, slot);
        WiderSlot(program, t, a, m - span, m, m - wider, m, slot);
      }
    }
  }

  /** The age of what the route cache serves: every rule was answered less than both lifetimes and
      the longest evaluation before the call. */
  lemma ServedAge(program: seq<Instr>, t: Tables, a: Arrival, call: int, age: int, span: int, now: int, slot: nat)
    requires Served(program, t, a, call, age, span, now, slot)
    ensures SlotWithin(program, t, a, call - age - span, now, slot)
  {
    hide SlotWithin;
    var stamp: int :| call - age < stamp <= now && RightRoute(program, t, span, a, stamp, slot);
    WiderSlot(program, t, a, stamp - span, stamp, call - age - span, now, slot);
  }

  // ---------------------------------------------------------------- answers that do not change

  ghost predicate Constant(t: Tables) {
    forall rule: nat, f: Flow, m: int, n: int :: t.answer(rule, f, m) == t.answer(rule, f, n)
  }

  /** What is true of a packet when answers do not change with time. */
  ghost function Facts(t: Tables, a: Arrival): Valuation {
    iset i: Instr |
      if i.op != OP_RULE then t.Plain(a, i) else t.Asks(a, i.param) && t.answer(i.param, a.pkt.flow, 0)
  }

  /** Cache transparency: with matchers whose answer is fixed for a flow, a slot that was right on
      answers from any moments is the slot that the stack machine chooses. */
  lemma ConstantAnswers(program: seq<Instr>, t: Tables, a: Arrival, lo: int, hi: int, slot: nat)
    requires Constant(t) && SlotWithin(program, t, a, lo, hi, slot)
    ensures Run(program, Facts(t, a), []) == Routed(slot)
  {
    hide Run;
    var v: Valuation :| FactsWithin(t, a, lo, hi, v) && Run(program, v, []) == Routed(slot);
    forall i: Instr ensures i in v <==> i in Facts(t, a) {
      if i.op == OP_RULE && t.Asks(a, i.param) { assert t.Said(a, i.param, i in v, lo, hi); }
    }
    assert v == Facts(t, a);
  }

  lemma ServedIsRight(program: seq<Instr>, t: Tables, a: Arrival, call: int, age: int, span: int, now: int, slot: nat)
    requires Constant(t) && Served(program, t, a, call, age, span, now, slot)
    ensures Run(program, Facts(t, a), []) == Routed(slot)
  {
    hide Served, Run, Constant, Facts, SlotWithin;
    ServedAge(program, t, a, call, age, span, now, slot);
    ConstantAnswers(program, t, a, call - age - span, now, slot);
  }

  function CountTrue(s: seq<bool>): nat {
    if s == [] then 0 else CountTrue(s[..|s| - 1]) + if s[|s| - 1] then 1 else 0
  }

  /** The stack machine chooses this slot for this packet when answers do not change. */
  ghost predicate Transparent(program: seq<Instr>, t: Tables, a: Arrival, slot: nat) {
    Run(program, Facts(t, a), []) == Routed(slot)
  }
}
