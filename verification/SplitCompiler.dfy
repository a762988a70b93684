/** compileSplitRoute: stack bytecode turned into ordered route segments over a
    condition arena (routing/split_bytecode.go). Meanings record both the boolean
    result and the predicates consulted, in order, because the left-to-right
    short-circuit order decides which matchers are called. */
module SplitCompiler {
  import opened Basics
  import opened Bytecode

  /** A result together with the predicates that were consulted to reach it. */
  datatype Ev = Ev(value: bool, consulted: seq<Instr>)

  function NotEv(a: Ev): Ev {
    Ev(!a.value, a.consulted)
  }

  function AndEv(a: Ev, b: Ev): Ev {
    if a.value then Ev(b.value, a.consulted + b.consulted) else a
  }

  function OrEv(a: Ev, b: Ev): Ev {
    if a.value then a else Ev(b.value, a.consulted + b.consulted)
  }

  // ---------------------------------------------------------------- source side

  /** The boolean expression a stretch of bytecode leaves on the stack. */
  datatype Expr =
    | EConst(b: bool)
    | EAtom(atom: Instr)
    | ENot(e: Expr)
    | EAnd(l: Expr, r: Expr)
    | EOr(l: Expr, r: Expr)

  /** Left-to-right short-circuit evaluation. */
  function EvalExpr(e: Expr, v: Valuation): Ev {
    match e
    case EConst(b) => Ev(b, [])
    case EAtom(a) => Ev(a in v, [a])
    case ENot(x) => NotEv(EvalExpr(x, v))
    case EAnd(l, r) => AndEv(EvalExpr(l, v), EvalExpr(r, v))
    case EOr(l, r) => OrEv(EvalExpr(l, v), EvalExpr(r, v))
  }

  /** True before any predicate is asked. */
  ghost predicate Certain(e: Expr) {
    EvalExpr(e, iset{}) == Ev(true, [])
  }

  /** What is found without asking holds for every packet. */
  lemma {:induction false} UnaskedIsFixed(e: Expr, v: Valuation, w: Valuation)
    requires EvalExpr(e, v).consulted == []
    ensures EvalExpr(e, w) == EvalExpr(e, v)
    decreases e
  {
    match e
    case EConst(_) =>
    case EAtom(_) =>
    case ENot(x) => UnaskedIsFixed(x, v, w);
    case EAnd(l, r) =>
      UnaskedIsFixed(l, v, w);
      if EvalExpr(l, v).value { UnaskedIsFixed(r, v, w); }
    case EOr(l, r) =>
      UnaskedIsFixed(l, v, w);
      if !EvalExpr(l, v).value { UnaskedIsFixed(r, v, w); }
  }

  lemma CertainAlways(e: Expr)
    ensures Certain(e) <==> forall v: Valuation :: EvalExpr(e, v) == Ev(true, [])
  {
    var none: Valuation := iset{};
    if EvalExpr(e, none) == Ev(true, []) {
      forall v: Valuation ensures EvalExpr(e, v) == Ev(true, []) { UnaskedIsFixed(e, none, v); }
    } else {
      assert !Certain(e);
      assert exists v: Valuation :: EvalExpr(e, v) != Ev(true, []);
    }
  }

  /** One "condition, then terminal" stretch of the source program. */
  datatype SourceSegment = SourceSegment(e: Expr, slot: nat)

  /** The segments of a program, up to the first terminal that does not consume the whole stack. */
  function SourceSegments(p: seq<Instr>, es: seq<Expr>): seq<SourceSegment> {
    if p == [] || |es| < Pops(p[0].op) || IsForeignTerminal(p[0].op) then []
    else if !IsTerminal(p[0].op) then SourceSegments(p[1..], ApplyExpr(p[0], es))
    else if |es| != 1 then []
    else [SourceSegment(es[0], if p[0].op == OP_SLOT then p[0].param else 0)] + SourceSegments(p[1..], [])
  }

  function ApplyExpr(i: Instr, es: seq<Expr>): (r: seq<Expr>)
    requires !IsTerminal(i.op) && !IsForeignTerminal(i.op) && |es| >= Pops(i.op)
    ensures |r| == |es| - Pops(i.op) + Pushes(i.op)
  {
    if i.op == OP_NOT then es[..|es| - 1] + [ENot(es[|es| - 1])]
    else if i.op == OP_AND then es[..|es| - 2] + [EAnd(es[|es| - 2], es[|es| - 1])]
    else if i.op == OP_OR then es[..|es| - 2] + [EOr(es[|es| - 2], es[|es| - 1])]
    else if i.op == OP_TRUE then es + [EConst(true)]
    else if i.op == OP_FALSE || i.op == OP_FQDN || i.op == OP_LFQDN then es + [EConst(false)]
    else es + [EAtom(i)]
  }

  /** Every terminal consumes exactly the whole stack, and nothing is left at the end. */
  predicate Segmented(p: seq<Instr>, d: nat) {
    if p == [] then d == 0
    else
      && d >= Pops(p[0].op)
      && (IsTerminal(p[0].op) ==> d == 1)
      && Segmented(p[1..], d - Pops(p[0].op) + Pushes(p[0].op))
  }

  /** Every terminal consumes exactly the whole stack, and nothing is left at the end, up to the
      first terminal whose condition is certain: the rest is never looked at. */
  ghost predicate Compiles(p: seq<Instr>, es: seq<Expr>) {
    if p == [] then es == []
    else if |es| < Pops(p[0].op) || IsForeignTerminal(p[0].op) then false
    else if !IsTerminal(p[0].op) then Compiles(p[1..], ApplyExpr(p[0], es))
    else |es| == 1 && (Certain(es[0]) || Compiles(p[1..], []))
  }

  lemma {:induction false} SegmentedCompiles(p: seq<Instr>, es: seq<Expr>)
    requires AllowedOps(p, SplitOp) && Segmented(p, |es|)
    ensures Compiles(p, es)
    decreases |p|
  {
    if p != [] {
      SplitTail(p);
      SegmentedCompiles(p[1..], if IsTerminal(p[0].op) then [] else ApplyExpr(p[0], es));
    }
  }

  /** What routing returns: whether some segment fired, its slot, and what was consulted. */
  datatype RouteEv = RouteEv(fired: bool, slot: nat, consulted: seq<Instr>)

  function After(prior: seq<Instr>, r: RouteEv): RouteEv {
    r.(consulted := prior + r.consulted)
  }

  function RouteSource(segs: seq<SourceSegment>, v: Valuation): RouteEv {
    if segs == [] then RouteEv(false, 0, [])
    else
      var ev := EvalExpr(segs[0].e, v);
      if ev.value then RouteEv(true, segs[0].slot, ev.consulted)
      else After(ev.consulted, RouteSource(segs[1..], v))
  }

  /** A packet's destination is an address, never a host name. */
  ghost predicate PacketValuation(v: Valuation) {
    forall i | i in v :: i.op != OP_FQDN && i.op != OP_LFQDN
  }

  ghost function Values(es: seq<Expr>, v: Valuation): (r: seq<bool>)
    ensures |r| == |es|
  {
    seq(|es|, i requires 0 <= i < |es| => EvalExpr(es[i], v).value)
  }

  lemma ApplyExprValues(i: Instr, es: seq<Expr>, v: Valuation)
    requires !IsTerminal(i.op) && !IsForeignTerminal(i.op) && |es| >= Pops(i.op)
    requires PacketValuation(v)
    ensures Values(ApplyExpr(i, es), v) == Apply(i, v, Values(es, v))
  {
  }

  /** The stack machine, which evaluates everything, takes the route that lazy
      evaluation of the segments takes. */
  lemma {:induction false} StackRunsSegments(p: seq<Instr>, es: seq<Expr>, v: Valuation)
    requires PacketValuation(v) && AllowedOps(p, SplitOp)
    ensures var r := RouteSource(SourceSegments(p, es), v);
            && (r.fired ==> Run(p, v, Values(es, v)) == Routed(r.slot))
            && (!r.fired && Segmented(p, |es|) ==> Run(p, v, Values(es, v)) == Routed(0))
  {
    hide PacketValuation, AllowedOps, Apply, ApplyExpr, EvalExpr, Values;
    if p != [] && |es| >= Pops(p[0].op) {
      SplitTail(p);
      if !IsTerminal(p[0].op) {
        ApplyExprValues(p[0], es, v);
        StackRunsSegments(p[1..], ApplyExpr(p[0], es), v);
      } else if |es| == 1 {
        StackRunsSegments(p[1..], [], v);
        ValuesOfOne(es, v);
        FirstSegment(p, es, v);
      }
    }
  }

  lemma ValuesOfOne(es: seq<Expr>, v: Valuation)
    requires |es| == 1
    ensures Values(es, v) == [EvalExpr(es[0], v).value] && Values(es, v)[..0] == Values([], v)
  {
  }

  lemma FirstSegment(p: seq<Instr>, es: seq<Expr>, v: Valuation)
    requires p != [] && IsTerminal(p[0].op) && !IsForeignTerminal(p[0].op) && |es| == 1
    ensures var r, rest := RouteSource(SourceSegments(p, es), v), RouteSource(SourceSegments(p[1..], []), v);
            if EvalExpr(es[0], v).value then r.fired && r.slot == if p[0].op == OP_SLOT then p[0].param else 0
            else r.fired == rest.fired && r.slot == rest.slot
  {
    hide EvalExpr;
    var s := SourceSegments(p, es);
    assert s[1..] == SourceSegments(p[1..], []);
  }

  // ---------------------------------------------------------------- condition arena

  datatype Cond =
    | CConst(value: bool)
    | CAtom(atom: Instr)
    | CNot(child: nat)
    | CAnd(children: seq<nat>)
    | COr(children: seq<nat>)

  /** One more than the greatest index of a child list. */
  function Top(kids: seq<nat>): nat {
    if kids == [] then 0
    else if kids[0] >= Top(kids[1..]) then kids[0] + 1
    else Top(kids[1..])
  }

  predicate NodeBelow(c: Cond, i: nat) {
    match c
    case CConst(_) => true
    case CAtom(_) => true
    case CNot(child) => child < i
    case CAnd(kids) => Top(kids) <= i
    case COr(kids) => Top(kids) <= i
  }

  /** Nodes refer only to earlier nodes. */
  predicate WellFormed(conds: seq<Cond>) {
    forall i | 0 <= i < |conds| :: NodeBelow(conds[i], i)
  }

  /** evalCond: recursive evaluation of the arena. */
  function EvalCond(conds: seq<Cond>, idx: nat, v: Valuation): Ev
    requires WellFormed(conds) && idx < |conds|
    decreases idx + 1, 0
  {
    assert NodeBelow(conds[idx], idx);
    match conds[idx]
    case CConst(b) => Ev(b, [])
    case CAtom(a) => Ev(a in v, [a])
    case CNot(child) => NotEv(EvalCond(conds, child, v))
    case CAnd(kids) => EvalAll(conds, kids, v)
    case COr(kids) => EvalAny(conds, kids, v)
  }

  function EvalAll(conds: seq<Cond>, kids: seq<nat>, v: Valuation): Ev
    requires WellFormed(conds) && Top(kids) <= |conds|
    decreases Top(kids), |kids| + 1
  {
    if kids == [] then Ev(true, [])
    else AndEv(EvalCond(conds, kids[0], v), EvalAll(conds, kids[1..], v))
  }

  function EvalAny(conds: seq<Cond>, kids: seq<nat>, v: Valuation): Ev
    requires WellFormed(conds) && Top(kids) <= |conds|
    decreases Top(kids), |kids| + 1
  {
    if kids == [] then Ev(false, [])
    else OrEv(EvalCond(conds, kids[0], v), EvalAny(conds, kids[1..], v))
  }

  lemma TopConcat(a: seq<nat>, b: seq<nat>)
    ensures Top(a + b) == if Top(a) >= Top(b) then Top(a) else Top(b)
  {
    if a == [] {
      assert a + b == b;
    } else {
      TopConcat(a[1..], b);
      assert (a + b)[1..] == a[1..] + b;
    }
  }

  lemma TopBounds(kids: seq<nat>)
    ensures forall i | 0 <= i < |kids| :: kids[i] < Top(kids)
  {
    if kids != [] {
      TopBounds(kids[1..]);
      assert forall i | 0 < i < |kids| :: kids[i] == kids[1..][i - 1];
    }
  }

  lemma {:induction false} EvalAllConcat(conds: seq<Cond>, a: seq<nat>, b: seq<nat>, v: Valuation)
    requires WellFormed(conds) && Top(a) <= |conds| && Top(b) <= |conds|
    ensures Top(a + b) <= |conds|
    ensures EvalAll(conds, a + b, v) == AndEv(EvalAll(conds, a, v), EvalAll(conds, b, v))
    decreases |a|
  {
    TopConcat(a, b);
    if a == [] {
      assert a + b == b;
      assert [] + EvalAll(conds, b, v).consulted == EvalAll(conds, b, v).consulted;
    } else {
      assert (a + b)[1..] == a[1..] + b;
      EvalAllConcat(conds, a[1..], b, v);
      AndAssoc(EvalCond(conds, a[0], v), EvalAll(conds, a[1..], v), EvalAll(conds, b, v));
    }
  }

  lemma {:induction false} EvalAnyConcat(conds: seq<Cond>, a: seq<nat>, b: seq<nat>, v: Valuation)
    requires WellFormed(conds) && Top(a) <= |conds| && Top(b) <= |conds|
    ensures Top(a + b) <= |conds|
    ensures EvalAny(conds, a + b, v) == OrEv(EvalAny(conds, a, v), EvalAny(conds, b, v))
    decreases |a|
  {
    TopConcat(a, b);
    if a == [] {
      assert a + b == b;
      assert [] + EvalAny(conds, b, v).consulted == EvalAny(conds, b, v).consulted;
    } else {
      assert (a + b)[1..] == a[1..] + b;
      EvalAnyConcat(conds, a[1..], b, v);
      AndAssoc(NotEv(EvalCond(conds, a[0], v)), NotEv(EvalAny(conds, a[1..], v)), NotEv(EvalAny(conds, b, v)));
    }
  }

  lemma AndAssoc(a: Ev, b: Ev, c: Ev)
    ensures AndEv(a, AndEv(b, c)) == AndEv(AndEv(a, b), c)
  {
    assert a.consulted + (b.consulted + c.consulted) == (a.consulted + b.consulted) + c.consulted;
  }

  /** A single child in list form is the child itself. */
  lemma EvalSingle(conds: seq<Cond>, k: nat, v: Valuation)
    requires WellFormed(conds) && k < |conds|
    ensures EvalAll(conds, [k], v) == EvalCond(conds, k, v)
    ensures EvalAny(conds, [k], v) == EvalCond(conds, k, v)
  {
    var c := EvalCond(conds, k, v).consulted;
    assert c + [] == c;
    assert [k][1..] == [];
  }

  /** Appending nodes does not change the meaning of earlier ones. */
  lemma {:induction false} EvalStable(conds: seq<Cond>, more: seq<Cond>, idx: nat, v: Valuation)
    requires WellFormed(conds) && WellFormed(conds + more) && idx < |conds|
    ensures EvalCond(conds + more, idx, v) == EvalCond(conds, idx, v)
    decreases idx + 1, 0
  {
    assert (conds + more)[idx] == conds[idx];
    assert NodeBelow(conds[idx], idx);
    match conds[idx]
    case CConst(_) =>
    case CAtom(_) =>
    case CNot(child) => EvalStable(conds, more, child, v);
    case CAnd(kids) => EvalListStable(conds, more, kids, v);
    case COr(kids) => EvalListStable(conds, more, kids, v);
  }

  lemma {:induction false} EvalListStable(conds: seq<Cond>, more: seq<Cond>, kids: seq<nat>, v: Valuation)
    requires WellFormed(conds) && WellFormed(conds + more) && Top(kids) <= |conds|
    ensures EvalAll(conds + more, kids, v) == EvalAll(conds, kids, v)
    ensures EvalAny(conds + more, kids, v) == EvalAny(conds, kids, v)
    decreases Top(kids), |kids| + 1
  {
    if kids != [] {
      EvalStable(conds, more, kids[0], v);
      EvalListStable(conds, more, kids[1..], v);
    }
  }

  /** Atoms in the arena are proper predicates, as the compiler creates them. */
  predicate ProperAtoms(conds: seq<Cond>) {
    forall i | 0 <= i < |conds| :: conds[i].CAtom? ==> conds[i].atom.op != OP_TRUE
  }

  /** Constants are folded where they would be looked at first. */
  predicate LeanNode(conds: seq<Cond>, c: Cond) {
    match c
    case CConst(_) => true
    case CAtom(_) => true
    case CNot(child) => child < |conds| && !conds[child].CConst?
    case CAnd(kids) => kids != [] && kids[0] < |conds| && !conds[kids[0]].CConst?
    case COr(kids) => kids != [] && kids[0] < |conds| && !conds[kids[0]].CConst?
  }

  predicate Lean(conds: seq<Cond>) {
    forall i | 0 <= i < |conds| :: LeanNode(conds, conds[i])
  }

  /** So every node but a constant asks some predicate. */
  lemma {:induction false} LeanAsks(conds: seq<Cond>, idx: nat, v: Valuation)
    requires WellFormed(conds) && Lean(conds) && idx < |conds| && !conds[idx].CConst?
    ensures EvalCond(conds, idx, v).consulted != []
    decreases idx
  {
    assert LeanNode(conds, conds[idx]) && NodeBelow(conds[idx], idx);
    match conds[idx]
    case CAtom(_) =>
    case CNot(child) => LeanAsks(conds, child, v);
    case CAnd(kids) => LeanAsks(conds, kids[0], v);
    case COr(kids) => LeanAsks(conds, kids[0], v);
  }

  /** splitCondBuilder: the arena and its local rewrites. */
  class CondBuilder {
    var conds: seq<Cond>
    const falseCond: nat
    const trueCond: nat

    ghost predicate Valid()
      reads this
    {
      && falseCond < |conds| && trueCond < |conds|
      && conds[falseCond] == CConst(false) && conds[trueCond] == CConst(true)
      && WellFormed(conds) && ProperAtoms(conds) && Lean(conds)
    }

    constructor ()
      ensures Valid() && fresh(this)
    {
      conds := [CConst(false), CConst(true)];
      falseCond := 0;
      trueCond := 1;
    }

    /** Old nodes keep their meaning. */
    twostate predicate Grown()
      reads this
    {
      && old(Valid()) && Valid() && old(conds) <= conds
      && forall k: nat, v: Valuation | k < |old(conds)| :: EvalCond(conds, k, v) == old(EvalCond(conds, k, v))
    }

    method Add(c: Cond) returns (idx: nat)
      requires Valid() && NodeBelow(c, |conds|) && LeanNode(conds, c)
      requires c.CAtom? ==> c.atom.op != OP_TRUE
      modifies this
      ensures Grown()
      ensures conds == old(conds) + [c] && idx == |old(conds)|
    {
      idx := |conds|;
      conds := conds + [c];
      assert forall i | 0 <= i < |old(conds)| :: LeanNode(old(conds), conds[i]);
      forall k: nat, v: Valuation | k < |old(conds)|
        ensures EvalCond(conds, k, v) == old(EvalCond(conds, k, v))
      {
        EvalStable(old(conds), [c], k, v);
      }
    }

    method Atom(a: Instr) returns (idx: nat)
      requires Valid() && a.op != OP_TRUE
      modifies this
      ensures Grown() && idx < |conds|
      ensures forall v: Valuation :: EvalCond(conds, idx, v) == Ev(a in v, [a])
    {
      idx := Add(CAtom(a));
    }

    /** not: folds constants and removes double negation. */
    method Not(child: nat) returns (idx: nat)
      requires Valid() && child < |conds|
      modifies this
      ensures Grown() && idx < |conds|
      ensures forall v: Valuation :: EvalCond(conds, idx, v) == NotEv(old(EvalCond(conds, child, v)))
    {
      assert NodeBelow(conds[child], child) && LeanNode(conds, conds[child]);
      if conds[child].CConst? {
        idx := if conds[child].value then falseCond else trueCond;
      } else if conds[child].CNot? {
        idx := conds[child].child;
      } else {
        idx := Add(CNot(child));
      }
    }

    /** and: folds constants, otherwise joins with flattening. */
    method And(left: nat, right: nat) returns (idx: nat)
      requires Valid() && left < |conds| && right < |conds|
      modifies this
      ensures Grown() && idx < |conds|
      ensures forall v: Valuation ::
                EvalCond(conds, idx, v) == AndEv(old(EvalCond(conds, left, v)), old(EvalCond(conds, right, v)))
    {
      if conds[left].CConst? {
        idx := if !conds[left].value then falseCond else right;
      } else if conds[right].CConst? && conds[right].value {
        idx := left;
      } else {
        var kids := AndKids(conds, left) + AndKids(conds, right);
        assert LeanNode(conds, conds[left]);
        JoinTop(conds, left, right);
        idx := Add(CAnd(kids));
        forall v: Valuation
          ensures EvalCond(conds, idx, v) == AndEv(old(EvalCond(conds, left, v)), old(EvalCond(conds, right, v)))
        {
          JoinAnd(old(conds), left, right, v);
          EvalListStable(old(conds), [CAnd(kids)], kids, v);
        }
      }
    }

    /** or: the dual of and. */
    method Or(left: nat, right: nat) returns (idx: nat)
      requires Valid() && left < |conds| && right < |conds|
      modifies this
      ensures Grown() && idx < |conds|
      ensures forall v: Valuation ::
                EvalCond(conds, idx, v) == OrEv(old(EvalCond(conds, left, v)), old(EvalCond(conds, right, v)))
    {
      if conds[left].CConst? {
        idx := if conds[left].value then trueCond else right;
      } else if conds[right].CConst? && !conds[right].value {
        idx := left;
      } else {
        var kids := OrKids(conds, left) + OrKids(conds, right);
        assert LeanNode(conds, conds[left]);
        JoinTop(conds, left, right);
        idx := Add(COr(kids));
        forall v: Valuation
          ensures EvalCond(conds, idx, v) == OrEv(old(EvalCond(conds, left, v)), old(EvalCond(conds, right, v)))
        {
          JoinOr(old(conds), left, right, v);
          EvalListStable(old(conds), [COr(kids)], kids, v);
        }
      }
    }
  }

  function AndKids(conds: seq<Cond>, k: nat): seq<nat>
    requires k < |conds|
  {
    if conds[k].CAnd? then conds[k].children else [k]
  }

  function OrKids(conds: seq<Cond>, k: nat): seq<nat>
    requires k < |conds|
  {
    if conds[k].COr? then conds[k].children else [k]
  }

  lemma JoinTop(conds: seq<Cond>, left: nat, right: nat)
    requires WellFormed(conds) && left < |conds| && right < |conds|
    ensures Top(AndKids(conds, left) + AndKids(conds, right)) <= |conds|
    ensures Top(OrKids(conds, left) + OrKids(conds, right)) <= |conds|
  {
    assert NodeBelow(conds[left], left) && NodeBelow(conds[right], right);
    TopConcat(AndKids(conds, left), AndKids(conds, right));
    TopConcat(OrKids(conds, left), OrKids(conds, right));
  }

  /** join: the flattened child list means the conjunction of the operands. */
  lemma JoinAnd(conds: seq<Cond>, left: nat, right: nat, v: Valuation)
    requires WellFormed(conds) && left < |conds| && right < |conds|
    ensures Top(AndKids(conds, left) + AndKids(conds, right)) <= |conds|
    ensures EvalAll(conds, AndKids(conds, left) + AndKids(conds, right), v)
         == AndEv(EvalCond(conds, left, v), EvalCond(conds, right, v))
  {
    assert NodeBelow(conds[left], left) && NodeBelow(conds[right], right);
    EvalSingle(conds, left, v);
    EvalSingle(conds, right, v);
    EvalAllConcat(conds, AndKids(conds, left), AndKids(conds, right), v);
  }

  /** join, for disjunction. */
  lemma JoinOr(conds: seq<Cond>, left: nat, right: nat, v: Valuation)
    requires WellFormed(conds) && left < |conds| && right < |conds|
    ensures Top(OrKids(conds, left) + OrKids(conds, right)) <= |conds|
    ensures EvalAny(conds, OrKids(conds, left) + OrKids(conds, right), v)
         == OrEv(EvalCond(conds, left, v), EvalCond(conds, right, v))
  {
    assert NodeBelow(conds[left], left) && NodeBelow(conds[right], right);
    EvalSingle(conds, left, v);
    EvalSingle(conds, right, v);
    EvalAnyConcat(conds, OrKids(conds, left), OrKids(conds, right), v);
  }

  // ---------------------------------------------------------------- flat predicates

  datatype FastKind = FastNone | FastAll | FastAny

  /** splitPredicate: an atom, possibly negated, or a constant written as (negated) TRUE. */
  datatype Pred = Pred(inst: Instr, neg: bool)

  datatype Segment = Segment(cond: nat, slot: nat, drop: bool, fast: FastKind, preds: seq<Pred>)

  function EvalPred(p: Pred, v: Valuation): Ev {
    if p.inst.op == OP_TRUE then Ev(!p.neg, [])
    else Ev((p.inst in v) != p.neg, [p.inst])
  }

  function AllPreds(ps: seq<Pred>, v: Valuation): Ev {
    if ps == [] then Ev(true, []) else AndEv(EvalPred(ps[0], v), AllPreds(ps[1..], v))
  }

  function AnyPreds(ps: seq<Pred>, v: Valuation): Ev {
    if ps == [] then Ev(false, []) else OrEv(EvalPred(ps[0], v), AnyPreds(ps[1..], v))
  }

  /** The flat form of a condition means what the condition means, in the same order. */
  ghost predicate FastMeans(conds: seq<Cond>, cond: nat, fast: FastKind, preds: seq<Pred>)
    requires WellFormed(conds) && cond < |conds|
  {
    match fast
    case FastNone => true
    case FastAll => forall v: Valuation :: AllPreds(preds, v) == EvalCond(conds, cond, v)
    case FastAny => forall v: Valuation :: AnyPreds(preds, v) == EvalCond(conds, cond, v)
  }

  /** The predicate for one child of a flat list, if it has that shape. */
  function ChildPred(conds: seq<Cond>, k: nat): (r: Option<Pred>)
    requires WellFormed(conds) && k < |conds| && ProperAtoms(conds)
    ensures r.Some? ==> forall v: Valuation :: EvalPred(r.value, v) == EvalCond(conds, k, v)
  {
    assert NodeBelow(conds[k], k);
    match conds[k]
    case CAtom(a) => Some(Pred(a, false))
    case CNot(child) => if conds[child].CAtom? then Some(Pred(conds[child].atom, true)) else None
    case CConst(b) => Some(Pred(Instr(OP_TRUE, 0), !b))
    case CAnd(_) => None
    case COr(_) => None
  }

  ghost predicate PredsMean(conds: seq<Cond>, kids: seq<nat>, preds: seq<Pred>, v: Valuation)
    requires WellFormed(conds) && Top(kids) <= |conds|
  {
    && AllPreds(preds, v) == EvalAll(conds, kids, v)
    && AnyPreds(preds, v) == EvalAny(conds, kids, v)
  }

  lemma {:induction false} PredsOfKids(conds: seq<Cond>, kids: seq<nat>, preds: seq<Pred>, v: Valuation)
    requires WellFormed(conds) && ProperAtoms(conds) && Top(kids) <= |conds|
    requires |preds| == |kids|
    requires forall i | 0 <= i < |kids| :: kids[i] < |conds| && ChildPred(conds, kids[i]) == Some(preds[i])
    ensures PredsMean(conds, kids, preds, v)
  {
    if kids != [] {
      assert ChildPred(conds, kids[0]) == Some(preds[0]);
      forall i | 0 <= i < |kids[1..]|
        ensures kids[1..][i] < |conds| && ChildPred(conds, kids[1..][i]) == Some(preds[1..][i])
      {
        assert kids[1..][i] == kids[i + 1] && preds[1..][i] == preds[i + 1];
      }
      PredsOfKids(conds, kids[1..], preds[1..], v);
    }
  }

  /** fastPredicates: recognises conditions that a straight all/any loop can decide. */
  method FastPredicates(conds: seq<Cond>, idx: nat) returns (fast: FastKind, preds: seq<Pred>)
    requires WellFormed(conds) && ProperAtoms(conds) && idx < |conds|
    ensures FastMeans(conds, idx, fast, preds)
  {
    assert NodeBelow(conds[idx], idx);
    preds := [];
    if conds[idx].CConst? {
      return (if conds[idx].value then FastAll else FastNone), [];
    }
    if conds[idx].CAtom? || conds[idx].CNot? {
      var p := ChildPred(conds, idx);
      if p.None? { return FastNone, []; }
      forall v: Valuation ensures AllPreds([p.value], v) == EvalCond(conds, idx, v) {
        var c := EvalCond(conds, idx, v).consulted;
        assert c + [] == c;
        assert [p.value][1..] == [];
      }
      return FastAll, [p.value];
    }
    var kids := conds[idx].children;
    TopBounds(kids);
    for i := 0 to |kids|
      invariant |preds| == i
      invariant forall j | 0 <= j < i :: ChildPred(conds, kids[j]) == Some(preds[j])
    {
      var p := ChildPred(conds, kids[i]);
      if p.None? { return FastNone, []; }
      preds := preds + [p.value];
    }
    forall v: Valuation
      ensures conds[idx].CAnd? ==> AllPreds(preds, v) == EvalCond(conds, idx, v)
      ensures conds[idx].COr? ==> AnyPreds(preds, v) == EvalCond(conds, idx, v)
    {
      PredsOfKids(conds, kids, preds, v);
    }
    fast := if conds[idx].CAnd? then FastAll else FastAny;
  }

  // ---------------------------------------------------------------- routing by segments

  ghost predicate SegmentsFit(conds: seq<Cond>, segs: seq<Segment>) {
    WellFormed(conds) &&
    forall i | 0 <= i < |segs| ::
      segs[i].cond < |conds| && FastMeans(conds, segs[i].cond, segs[i].fast, segs[i].preds)
  }

  predicate InArena(conds: seq<Cond>, segs: seq<Segment>) {
    WellFormed(conds) && forall i | 0 <= i < |segs| :: segs[i].cond < |conds|
  }

  function SegmentSlot(s: Segment): nat {
    if s.drop then 0 else s.slot
  }

  /** The meaning of the segments from k on: the first whose condition holds decides. */
  ghost function RouteSegments(conds: seq<Cond>, segs: seq<Segment>, k: nat, v: Valuation): RouteEv
    requires InArena(conds, segs) && k <= |segs|
    decreases |segs| - k
  {
    if k == |segs| then RouteEv(false, 0, [])
    else
      var ev := EvalCond(conds, segs[k].cond, v);
      if ev.value then RouteEv(true, SegmentSlot(segs[k]), ev.consulted)
      else After(ev.consulted, RouteSegments(conds, segs, k + 1, v))
  }

  /** predicates: the flat all/any loop. */
  method Predicates(fast: FastKind, preds: seq<Pred>, v: Valuation)
    returns (matched: bool, ghost consulted: seq<Instr>)
    requires fast != FastNone
    ensures matched == if fast == FastAll then AllPreds(preds, v).value else AnyPreds(preds, v).value
    ensures consulted == if fast == FastAll then AllPreds(preds, v).consulted else AnyPreds(preds, v).consulted
  {
    hide AllPreds, AnyPreds, EvalPred;
    consulted := [];
    matched := fast == FastAll;
    assert preds[0..] == preds;
    NothingBefore(Flat(fast, preds, v));
    for i := 0 to |preds|
      invariant matched == (fast == FastAll)
      invariant Flat(fast, preds, v) == Behind(consulted, Flat(fast, preds[i..], v))
    {
      FlatStep(fast, preds, i, v, consulted);
      var got := preds[i].inst.op == OP_TRUE || preds[i].inst in v;
      if preds[i].neg { got := !got; }
      consulted := consulted + EvalPred(preds[i], v).consulted;
      if fast == FastAll && !got { return false, consulted; }
      if fast == FastAny && got { return true, consulted; }
    }
    FlatEnd(fast, preds[|preds|..], v, consulted);
  }

  function Flat(fast: FastKind, preds: seq<Pred>, v: Valuation): Ev {
    if fast == FastAll then AllPreds(preds, v) else AnyPreds(preds, v)
  }

  /** A result reached after consulting something else. */
  function Behind(prior: seq<Instr>, r: Ev): Ev {
    Ev(r.value, prior + r.consulted)
  }

  lemma NothingBefore(r: Ev)
    ensures Behind([], r) == r
  {
    assert [] + r.consulted == r.consulted;
  }

  lemma FlatEnd(fast: FastKind, none: seq<Pred>, v: Valuation, prior: seq<Instr>)
    requires none == []
    ensures Behind(prior, Flat(fast, none, v)) == Ev(fast == FastAll, prior)
  {
    assert prior + [] == prior;
  }

  lemma FlatStep(fast: FastKind, preds: seq<Pred>, i: nat, v: Valuation, prior: seq<Instr>)
    requires i < |preds|
    ensures var ev := EvalPred(preds[i], v);
            && ev.value == ((preds[i].inst.op == OP_TRUE || preds[i].inst in v) != preds[i].neg)
            && Behind(prior, Flat(fast, preds[i..], v)) ==
               if ev.value == (fast == FastAll) then Behind(prior + ev.consulted, Flat(fast, preds[i + 1..], v))
               else Ev(ev.value, prior + ev.consulted)
  {
    assert preds[i..][0] == preds[i] && preds[i..][1..] == preds[i + 1..];
    var ev, rest := EvalPred(preds[i], v), Flat(fast, preds[i + 1..], v);
    assert prior + (ev.consulted + rest.consulted) == (prior + ev.consulted) + rest.consulted;
  }

  /** The flat loop where there is one, recursive evaluation otherwise. */
  method MatchSegment(conds: seq<Cond>, seg: Segment, v: Valuation)
    returns (matched: bool, ghost consulted: seq<Instr>)
    requires WellFormed(conds) && seg.cond < |conds| && FastMeans(conds, seg.cond, seg.fast, seg.preds)
    ensures matched == EvalCond(conds, seg.cond, v).value
    ensures consulted == EvalCond(conds, seg.cond, v).consulted
  {
    if seg.fast != FastNone {
      matched, consulted := Predicates(seg.fast, seg.preds, v);
    } else {
      matched := EvalCond(conds, seg.cond, v).value;
      consulted := EvalCond(conds, seg.cond, v).consulted;
    }
  }

  lemma RouteStep(conds: seq<Cond>, segs: seq<Segment>, k: nat, prior: seq<Instr>, v: Valuation)
    requires InArena(conds, segs) && k < |segs|
    ensures var ev := EvalCond(conds, segs[k].cond, v);
            After(prior, RouteSegments(conds, segs, k, v)) ==
            if ev.value then RouteEv(true, SegmentSlot(segs[k]), prior + ev.consulted)
            else After(prior + ev.consulted, RouteSegments(conds, segs, k + 1, v))
  {
    var ev := EvalCond(conds, segs[k].cond, v);
    var rest := RouteSegments(conds, segs, k + 1, v).consulted;
    assert prior + (ev.consulted + rest) == (prior + ev.consulted) + rest;
  }

  /** routeBySegments: the first segment that matches decides. */
  method RouteBySegments(conds: seq<Cond>, segs: seq<Segment>, v: Valuation)
    returns (slot: nat, ghost consulted: seq<Instr>)
    requires SegmentsFit(conds, segs)
    ensures slot == RouteSegments(conds, segs, 0, v).slot
    ensures consulted == RouteSegments(conds, segs, 0, v).consulted
  {
    consulted := [];
    for i := 0 to |segs|
      invariant RouteSegments(conds, segs, 0, v) == After(consulted, RouteSegments(conds, segs, i, v))
    {
      ghost var asked;
      var matched;
      matched, asked := MatchSegment(conds, segs[i], v);
      RouteStep(conds, segs, i, consulted, v);
      consulted := consulted + asked;
      if matched {
        return SegmentSlot(segs[i]), consulted;
      }
    }
    assert consulted + [] == consulted;
    slot := 0;
  }

  // ---------------------------------------------------------------- the compiler

  ghost predicate Denotes(conds: seq<Cond>, idx: nat, e: Expr)
    requires WellFormed(conds)
  {
    idx < |conds| && forall v: Valuation :: EvalCond(conds, idx, v) == EvalExpr(e, v)
  }

  ghost predicate StackDenotes(conds: seq<Cond>, stack: seq<nat>, es: seq<Expr>)
    requires WellFormed(conds)
  {
    |stack| == |es| && forall i | 0 <= i < |stack| :: Denotes(conds, stack[i], es[i])
  }

  ghost predicate SameMeaning(conds: seq<Cond>, conds': seq<Cond>) {
    && WellFormed(conds) && WellFormed(conds') && |conds| <= |conds'|
    && forall k: nat, v: Valuation | k < |conds| :: EvalCond(conds', k, v) == EvalCond(conds, k, v)
  }

  lemma StackStable(conds: seq<Cond>, conds': seq<Cond>, stack: seq<nat>, es: seq<Expr>)
    requires SameMeaning(conds, conds') && StackDenotes(conds, stack, es)
    ensures StackDenotes(conds', stack, es)
  {
    forall i | 0 <= i < |stack| ensures Denotes(conds', stack[i], es[i]) {
      assert Denotes(conds, stack[i], es[i]);
    }
  }

  lemma SegmentsStable(conds: seq<Cond>, conds': seq<Cond>, segs: seq<Segment>)
    requires SameMeaning(conds, conds') && SegmentsFit(conds, segs)
    ensures SegmentsFit(conds', segs)
    ensures forall v: Valuation :: RouteSegments(conds', segs, 0, v) == RouteSegments(conds, segs, 0, v)
  {
    forall i | 0 <= i < |segs|
      ensures segs[i].cond < |conds'| && FastMeans(conds', segs[i].cond, segs[i].fast, segs[i].preds)
    {
    }
    forall v: Valuation ensures RouteSegments(conds', segs, 0, v) == RouteSegments(conds, segs, 0, v) {
      RouteStable(conds, conds', segs, 0, v);
    }
  }

  lemma {:induction false} RouteStable(conds: seq<Cond>, conds': seq<Cond>, segs: seq<Segment>, k: nat, v: Valuation)
    requires SameMeaning(conds, conds') && InArena(conds, segs) && k <= |segs|
    ensures RouteSegments(conds', segs, k, v) == RouteSegments(conds, segs, k, v)
    decreases |segs| - k
  {
    if k < |segs| { RouteStable(conds, conds', segs, k + 1, v); }
  }

  /** One more segment after those that gave r. */
  function Then(r: RouteEv, ev: Ev, slot: nat): RouteEv {
    if r.fired then r
    else RouteEv(ev.value, if ev.value then slot else 0, r.consulted + ev.consulted)
  }

  lemma {:induction false} RouteSegmentsSnoc(conds: seq<Cond>, segs: seq<Segment>, s: Segment, k: nat, v: Valuation)
    requires InArena(conds, segs) && s.cond < |conds| && k <= |segs|
    ensures RouteSegments(conds, segs + [s], k, v) ==
            Then(RouteSegments(conds, segs, k, v), EvalCond(conds, s.cond, v), SegmentSlot(s))
    decreases |segs| - k
  {
    hide EvalCond;
    var ev := EvalCond(conds, s.cond, v);
    if k == |segs| {
      assert (segs + [s])[k] == s;
      assert RouteSegments(conds, segs + [s], k + 1, v) == RouteEv(false, 0, []);
      assert ev.consulted + [] == ev.consulted == [] + ev.consulted;
    } else {
      assert (segs + [s])[k] == segs[k];
      RouteSegmentsSnoc(conds, segs, s, k + 1, v);
      ThenAfter(EvalCond(conds, segs[k].cond, v).consulted, RouteSegments(conds, segs, k + 1, v), ev, SegmentSlot(s));
      hide After;
    }
  }

  lemma ThenAfter(prior: seq<Instr>, r: RouteEv, ev: Ev, slot: nat)
    ensures Then(After(prior, r), ev, slot) == After(prior, Then(r, ev, slot))
  {
    assert prior + (r.consulted + ev.consulted) == (prior + r.consulted) + ev.consulted;
  }

  lemma {:induction false} RouteSourceConcat(a: seq<SourceSegment>, b: seq<SourceSegment>, v: Valuation)
    ensures RouteSource(a + b, v) ==
            if RouteSource(a, v).fired then RouteSource(a, v)
            else After(RouteSource(a, v).consulted, RouteSource(b, v))
  {
    if a == [] {
      assert a + b == b;
      assert [] + RouteSource(b, v).consulted == RouteSource(b, v).consulted;
    } else {
      assert (a + b)[1..] == a[1..] + b;
      RouteSourceConcat(a[1..], b, v);
      var here := EvalExpr(a[0].e, v).consulted;
      var rest := RouteSource(a[1..], v).consulted;
      assert here + (rest + RouteSource(b, v).consulted) == (here + rest) + RouteSource(b, v).consulted;
    }
  }

  lemma RouteSourceSnoc(a: seq<SourceSegment>, s: SourceSegment, v: Valuation)
    ensures RouteSource(a + [s], v) == Then(RouteSource(a, v), EvalExpr(s.e, v), s.slot)
  {
    RouteSourceConcat(a, [s], v);
    var c := EvalExpr(s.e, v).consulted;
    assert c + [] == c;
    assert [s][1..] == [];
  }

  /** The non-terminal cases of compileSplitRoute's switch. */
  method CompileStep(b: CondBuilder, stack: seq<nat>, inst: Instr, ghost es: seq<Expr>) returns (next: seq<nat>)
    requires b.Valid() && !IsTerminal(inst.op) && SplitOp(inst.op, inst.param) && |es| >= Pops(inst.op)
    requires StackDenotes(b.conds, stack, es)
    modifies b
    ensures b.Grown()
    ensures StackDenotes(b.conds, next, ApplyExpr(inst, es))
  {
    ghost var before := b.conds;
    var idx := CompileOp(b, stack, inst, es);
    next := stack[..|stack| - Pops(inst.op)] + [idx];
    hide Denotes, ApplyExpr;
    StackReplaced(before, b.conds, stack, es, Pops(inst.op), idx, Last(ApplyExpr(inst, es)));
    ApplyExprShape(inst, es);
  }

  lemma ApplyExprShape(inst: Instr, es: seq<Expr>)
    requires !IsTerminal(inst.op) && !IsForeignTerminal(inst.op) && |es| >= Pops(inst.op)
    ensures ApplyExpr(inst, es) == es[..|es| - Pops(inst.op)] + [Last(ApplyExpr(inst, es))]
  {
    assert es[..|es|] == es;
  }

  /** The top d conditions are replaced by one. */
  lemma StackReplaced(conds: seq<Cond>, conds': seq<Cond>, stack: seq<nat>, es: seq<Expr>, d: nat, idx: nat, e: Expr)
    requires SameMeaning(conds, conds') && StackDenotes(conds, stack, es) && d <= |es| && Denotes(conds', idx, e)
    ensures StackDenotes(conds', stack[..|stack| - d] + [idx], es[..|es| - d] + [e])
  {
    StackStable(conds, conds', stack, es);
    hide Denotes, SameMeaning;
  }

  /** The condition that one opcode puts on top. */
  method CompileOp(b: CondBuilder, stack: seq<nat>, inst: Instr, ghost es: seq<Expr>) returns (idx: nat)
    requires b.Valid() && !IsTerminal(inst.op) && SplitOp(inst.op, inst.param) && |es| >= Pops(inst.op)
    requires StackDenotes(b.conds, stack, es)
    modifies b
    ensures b.Grown() && Denotes(b.conds, idx, Last(ApplyExpr(inst, es)))
  {
    var n := |stack|;
    if Pops(inst.op) >= 1 { assert Denotes(b.conds, stack[n - 1], es[n - 1]); }
    if Pops(inst.op) == 2 { assert Denotes(b.conds, stack[n - 2], es[n - 2]); }
    hide StackDenotes;
    if inst.op == OP_TRUE {
      idx := b.trueCond;
    } else if inst.op == OP_FALSE || inst.op == OP_FQDN || inst.op == OP_LFQDN {
      idx := b.falseCond;
    } else if inst.op == OP_NOT {
      idx := b.Not(stack[n - 1]);
    } else if inst.op == OP_AND {
      idx := b.And(stack[n - 2], stack[n - 1]);
    } else if inst.op == OP_OR {
      idx := b.Or(stack[n - 2], stack[n - 1]);
    } else {
      idx := b.Atom(inst);
    }
  }

  /** The segments emitted so far mean what the source segments read so far mean. */
  ghost predicate Compiled(conds: seq<Cond>, segs: seq<Segment>, src: seq<SourceSegment>) {
    && SegmentsFit(conds, segs)
    && forall v: Valuation :: RouteSegments(conds, segs, 0, v) == RouteSource(src, v)
  }

  lemma ConstIsCertain(conds: seq<Cond>, cond: nat, e: Expr)
    requires WellFormed(conds) && Lean(conds) && Denotes(conds, cond, e)
    ensures conds[cond] == CConst(true) <==> Certain(e)
  {
    if !conds[cond].CConst? { LeanAsks(conds, cond, iset{}); }
    assert EvalCond(conds, cond, iset{}) == EvalExpr(e, iset{});
  }

  /** A terminal case: the segment is left out when its condition is constantly false. */
  method CompileTerminal(conds: seq<Cond>, segs: seq<Segment>, cond: nat, inst: Instr,
                         ghost src: seq<SourceSegment>, ghost e: Expr)
    returns (out: seq<Segment>, always: bool)
    requires Compiled(conds, segs, src) && ProperAtoms(conds) && Lean(conds) && Denotes(conds, cond, e)
    requires IsTerminal(inst.op)
    ensures var s := SourceSegment(e, if inst.op == OP_SLOT then inst.param else 0);
            && Compiled(conds, out, src + [s])
            && (always ==> forall v: Valuation :: RouteSource(src + [s], v).fired)
            && (always <==> Certain(e))
  {
    ghost var s := SourceSegment(e, if inst.op == OP_SLOT then inst.param else 0);
    ConstIsCertain(conds, cond, e);
    if conds[cond].CConst? && !conds[cond].value {
      forall v: Valuation ensures RouteSource(src + [s], v) == RouteSource(src, v) {
        RouteSourceSnoc(src, s, v);
        assert EvalCond(conds, cond, v) == EvalExpr(e, v);
        var c := RouteSource(src, v).consulted;
        assert c + [] == c;
        RouteSlotZero(src, v);
      }
      return segs, false;
    }
    var fast, preds := FastPredicates(conds, cond);
    var seg := Segment(cond, if inst.op == OP_SLOT then inst.param else 0, inst.op == OP_DROP, fast, preds);
    out := segs + [seg];
    assert SegmentsFit(conds, out);
    forall v: Valuation
      ensures RouteSegments(conds, out, 0, v) == RouteSource(src + [s], v)
      ensures conds[cond].CConst? ==> RouteSource(src + [s], v).fired
    {
      RouteSegmentsSnoc(conds, segs, seg, 0, v);
      RouteSourceSnoc(src, s, v);
      assert EvalCond(conds, cond, v) == EvalExpr(e, v);
    }
    always := conds[cond].CConst?;
  }

  lemma RouteSlotZero(src: seq<SourceSegment>, v: Valuation)
    ensures !RouteSource(src, v).fired ==> RouteSource(src, v).slot == 0
  {
  }

  /** Where the compiler stands in p: src read, es on the stack, rest to come. */
  ghost predicate Progress(p: seq<Instr>, rest: seq<Instr>, src: seq<SourceSegment>, es: seq<Expr>) {
    && AllowedOps(p, SplitOp)
    && AllowedOps(rest, SplitOp)
    && NoUnderflow(rest, |es|)
    && SourceSegments(p, []) == src + SourceSegments(rest, es)
    && Segmented(p, 0) == Segmented(rest, |es|)
    && Compiles(p, []) == Compiles(rest, es)
  }

  lemma ProgressStep(p: seq<Instr>, rest: seq<Instr>, src: seq<SourceSegment>, es: seq<Expr>)
    requires Progress(p, rest, src, es) && rest != []
    ensures SplitOp(rest[0].op, rest[0].param) && |es| >= Pops(rest[0].op)
    ensures !IsTerminal(rest[0].op) ==> Progress(p, rest[1..], src, ApplyExpr(rest[0], es))
    ensures IsTerminal(rest[0].op) && |es| != 1 ==> !Compiles(p, [])
    ensures IsTerminal(rest[0].op) && |es| == 1 && Certain(es[0]) ==> Compiles(p, [])
    ensures IsTerminal(rest[0].op) && |es| == 1 ==>
              SourceSegments(p, []) ==
              src + [SourceSegment(es[0], if rest[0].op == OP_SLOT then rest[0].param else 0)] + SourceSegments(rest[1..], [])
    ensures IsTerminal(rest[0].op) && |es| == 1 && !Certain(es[0]) ==>
              Progress(p, rest[1..], src + [SourceSegment(es[0], if rest[0].op == OP_SLOT then rest[0].param else 0)], [])
  {
    SplitTail(rest);
    if IsTerminal(rest[0].op) && |es| == 1 {
      var s := SourceSegment(es[0], if rest[0].op == OP_SLOT then rest[0].param else 0);
      assert src + ([s] + SourceSegments(rest[1..], [])) == (src + [s]) + SourceSegments(rest[1..], []);
    }
  }

  /** After a segment that always fires, later segments cannot matter. */
  lemma CutOff(p: seq<Instr>, src: seq<SourceSegment>, more: seq<SourceSegment>, conds: seq<Cond>, segs: seq<Segment>)
    requires AllowedOps(p, SplitOp) && SourceSegments(p, []) == src + more
    requires Compiled(conds, segs, src) && forall v: Valuation :: RouteSource(src, v).fired
    ensures Compiled(conds, segs, SourceSegments(p, []))
    ensures forall v: Valuation | PacketValuation(v) :: Run(p, v, []) == Routed(RouteSegments(conds, segs, 0, v).slot)
  {
    forall v: Valuation ensures RouteSource(SourceSegments(p, []), v) == RouteSource(src, v) {
      RouteSourceConcat(src, more, v);
    }
    CompiledRoutes(p, conds, segs);
  }

  /** compileSplitRoute. Whenever it succeeds, the segments choose the slot that the
      stack machine chooses, and consult exactly the predicates that left-to-right
      short-circuit evaluation of the source consults, in that order. It succeeds exactly on
      programs made of whole segments up to the first whose condition is certain. */
  method CompileSplitRoute(code: seq<byte>) returns (conds: seq<Cond>, segments: seq<Segment>, ok: bool)
    requires ValidProgram(code, SplitOp)
    ensures ok <==> Compiles(Decode(code, 0).value, [])
    ensures Segmented(Decode(code, 0).value, 0) ==> ok
    ensures ok ==> SegmentsFit(conds, segments) && ProperAtoms(conds)
    ensures ok ==> forall v: Valuation ::
              RouteSegments(conds, segments, 0, v) == RouteSource(SourceSegments(Decode(code, 0).value, []), v)
    ensures ok ==> forall v: Valuation | PacketValuation(v) ::
              Run(Decode(code, 0).value, v, []) == Routed(RouteSegments(conds, segments, 0, v).slot)
  {
    var b := new CondBuilder();
    var stack: seq<nat> := [];
    segments := [];
    ghost var p := Decode(code, 0).value;
    ghost var es: seq<Expr> := [];
    ghost var src: seq<SourceSegment> := [];
    ghost var rest := p;
    if Segmented(p, 0) { SegmentedCompiles(p, []); }
    var pc := 0;
    while pc < |code|
      invariant 0 <= pc <= |code|
      invariant b.Valid() && fresh(b)
      invariant StackDenotes(b.conds, stack, es)
      invariant Compiled(b.conds, segments, src)
      invariant Decode(code, pc) == Some(rest)
      invariant Progress(p, rest, src, es)
    {
      DecodeNext(code, pc, rest);
      var op := code[pc];
      var (param, next) := ReadParamUnchecked(code, pc + 1, op);
      var inst := Instr(op, param);
      pc := next;
      ProgressStep(p, rest, src, es);
      if IsTerminal(op) {
        if |stack| != 1 {
          return [], [], false;
        }
        assert Denotes(b.conds, stack[0], es[0]);
        var always;
        segments, always := CompileTerminal(b.conds, segments, stack[0], inst, src, es[0]);
        src := src + [SourceSegment(es[0], if op == OP_SLOT then param else 0)];
        es, stack := [], [];
        if always {
          CutOff(p, src, SourceSegments(rest[1..], []), b.conds, segments);
          return b.conds, segments, true;
        }
      } else {
        ghost var before := b.conds;
        stack := CompileStep(b, stack, inst, es);
        SegmentsStable(before, b.conds, segments);
        es := ApplyExpr(inst, es);
      }
      rest := rest[1..];
    }
    if |stack| != 0 {
      return [], [], false;
    }
    assert src + [] == src;
    CompiledRoutes(p, b.conds, segments);
    return b.conds, segments, true;
  }

  lemma CompiledRoutes(p: seq<Instr>, conds: seq<Cond>, segs: seq<Segment>)
    requires AllowedOps(p, SplitOp)
    requires Compiled(conds, segs, SourceSegments(p, []))
    requires Segmented(p, 0) || forall v: Valuation :: RouteSource(SourceSegments(p, []), v).fired
    ensures forall v: Valuation | PacketValuation(v) :: Run(p, v, []) == Routed(RouteSegments(conds, segs, 0, v).slot)
  {
    forall v: Valuation | PacketValuation(v) ensures Run(p, v, []) == Routed(RouteSegments(conds, segs, 0, v).slot) {
      StackRunsSegments(p, [], v);
      assert Values([], v) == [];
      RouteSlotZero(SourceSegments(p, []), v);
    }
  }
}
