/** The lifecycle protocol of DetachedNetwork (detachable.go).

    The class holds the fields that the mutex guards, with one method per critical section. The
    state machine below it interleaves those sections with the steps that run outside the lock:
    wrapped calls, cancellation, the closing of drained objects, and objects being closed. */
module Detached {
  import opened Basics
  import opened Closers

  /** The guarded fields. */
  datatype Net = Net(up: bool, closed: bool, gen: nat, done: Chan, nextId: Id, closers: map<Id, Obj>)

  const FRESH := Net(true, false, 1, 1, 0, map[])

  function Upped(n: Net): Net {
    if n.closed || n.up then n else n.(done := n.gen + 1, gen := n.gen + 1, up := true)
  }

  function Downed(n: Net): Net {
    if n.closed || !n.up then n else n.(up := false, gen := n.gen + 1, closers := map[])
  }

  function Closed(n: Net): Net {
    if n.closed then n else n.(closed := true, up := false, gen := n.gen + 1, closers := map[])
  }

  /** The channel that a Down or Close has to close. */
  function Pending(n: Net): Option<Chan> {
    if n.up && !n.closed then Some(n.done) else None
  }

  /** Tracking goes on: operations compare generations, accepted connections do not. */
  predicate Current(n: Net, gen: Option<nat>) {
    n.up && !n.closed && (gen.Some? ==> gen.value == n.gen)
  }

  class DetachedNetwork {
    var up: bool
    var closed: bool
    var gen: nat
    var done: Chan
    var nextId: Id
    var closers: map<Id, Obj>

    function Fields(): Net
      reads this
    {
      Net(up, closed, gen, done, nextId, closers)
    }

    constructor ()
      ensures Fields() == FRESH
    {
      up, closed, gen, done, nextId, closers := true, false, 1, 1, 0, map[];
    }

    method Up() returns (ok: bool)
      modifies this
      ensures ok <==> !old(closed)
      ensures ok ==> up && (!old(up) ==> gen > old(gen))
      ensures Fields() == Upped(old(Fields()))
    {
      if closed { return false; }
      if up { return true; }
      done := gen + 1;
      gen := gen + 1;
      up := true;
      return true;
    }

    /** Moves every tracked object to a list. */
    method Drain() returns (list: seq<Obj>)
      modifies this`closers
      ensures closers == map[] && Lists(list, old(closers))
    {
      list := Enumerate(closers);
      closers := map[];
    }

    /** Down's critical section; the caller then closes the channel and the list. */
    method TakeDown() returns (list: seq<Obj>, pending: Option<Chan>)
      modifies this
      ensures Fields() == Downed(old(Fields()))
      ensures pending == Pending(old(Fields()))
      ensures if pending.Some? then Lists(list, old(closers)) else list == []
    {
      if closed || !up { return [], None; }
      up := false;
      gen := gen + 1;
      pending := Some(done);
      list := Drain();
    }

    /** closePrep. */
    method TakeClose() returns (list: seq<Obj>, pending: Option<Chan>)
      modifies this
      ensures Fields() == Closed(old(Fields()))
      ensures pending == Pending(old(Fields()))
      ensures if old(closed) then list == [] else Lists(list, old(closers))
    {
      if closed { return [], None; }
      pending := if up then Some(done) else None;
      closed, up, gen := true, false, gen + 1;
      list := Drain();
    }

    method Begin() returns (begun: Option<(nat, Chan)>)
      ensures begun == if up && !closed then Some((gen, done)) else None
    {
      if !up || closed { return None; }
      return Some((gen, done));
    }

    /** The first half of trackConn and of the accept callbacks. */
    method Reserve(began: Option<nat>) returns (id: Option<Id>)
      modifies this`nextId
      ensures id == if Current(old(Fields()), began) then Some(old(nextId)) else None
      ensures nextId == old(nextId) + if id.Some? then 1 else 0
    {
      if !up || closed || (began.Some? && gen != began.value) { return None; }
      id := Some(nextId);
      nextId := nextId + 1;
    }

    /** The second half, after the object was wrapped without the lock. */
    method Finish(began: Option<nat>, id: Id, o: Obj) returns (ok: bool)
      modifies this`closers
      ensures ok <==> Current(old(Fields()), began)
      ensures closers == if ok then old(closers)[id := o] else old(closers)
    {
      if !up || closed || (began.Some? && gen != began.value) { return false; }
      closers := closers[id := o];
      return true;
    }

    method Unregister(id: Id)
      modifies this`closers
      ensures closers == old(closers) - {id}
    {
      closers := closers - {id};
    }
  }

  // ---------------------------------------------------------------- interleavings

  /** An operation on its way, up to the point where its object is handed out or closed. */
  datatype Op =
    | Calling(began: nat, done: Chan)                 // the wrapped call runs, the caller waits
    | Answered(began: nat, done: Chan, obj: Obj)      // its result lies in the channel
    | Deserted                                        // the caller left, the wrapped call runs on
    | Late(obj: Obj)                                  // a result nobody waits for, to be closed
    | Holding(gen: Option<nat>, obj: Obj)             // tracking starts
    | Reserved(gen: Option<nat>, id: Id, obj: Obj)    // wrapped under a reserved id
    | Refused(obj: Obj)                               // tracking failed, to be closed

  predicate Owns(op: Op, o: Obj) {
    !op.Calling? && !op.Deserted? && op.obj == o
  }

  /** A Down or Close past its critical section. earlier is what had been handed out by then. */
  datatype Drain = Drain(pending: Option<Chan>, todo: seq<Obj>, earlier: set<Obj>)

  /** A produced object: the operation that produced it, the id its close callback unregisters,
      whether the caller got it, whether Close was called, and whether that reached the object. */
  datatype Life = Life(op: nat, id: Option<Id>, handed: bool, closing: bool, shut: bool)

  datatype System = System(net: Net, ops: map<nat, Op>, drains: map<nat, Drain>, objs: map<Obj, Life>, shut: set<Chan>)

  const START := System(FRESH, map[], map[], map[], {})

  function Handed(s: System): set<Obj> {
    set o | o in s.objs && s.objs[o].handed
  }

  // Down and Close: the critical section, then the channel, then the objects, then the return.

  ghost predicate CanTakeDown(s: System, call: nat, order: seq<Obj>) {
    call !in s.drains && if Pending(s.net).Some? then Lists(order, s.net.closers) else order == []
  }

  ghost predicate CanTakeClose(s: System, call: nat, order: seq<Obj>) {
    call !in s.drains && if s.net.closed then order == [] else Lists(order, s.net.closers)
  }

  function Taken(s: System, call: nat, order: seq<Obj>, after: Net): System {
    s.(net := after, drains := s.drains[call := Drain(Pending(s.net), order, Handed(s))])
  }

  predicate CanCloseDone(s: System, call: nat) {
    call in s.drains && s.drains[call].pending.Some?
  }

  function DoneClosed(s: System, call: nat): System
    requires CanCloseDone(s, call)
  {
    s.(shut := s.shut + {s.drains[call].pending.value},
       drains := s.drains[call := s.drains[call].(pending := None)])
  }

  predicate CanCloseNext(s: System, call: nat) {
    && call in s.drains && s.drains[call].pending.None?
    && s.drains[call].todo != [] && s.drains[call].todo[0] in s.objs
  }

  function Dropped(s: System, call: nat): System
    requires call in s.drains && s.drains[call].todo != []
  {
    s.(drains := s.drains[call := s.drains[call].(todo := s.drains[call].todo[1..])])
  }

  function NextClosed(s: System, call: nat): System
    requires CanCloseNext(s, call)
  {
    Dropped(CloseCalled(s, s.drains[call].todo[0]), call)
  }

  predicate CanReturn(s: System, call: nat) {
    call in s.drains && s.drains[call].pending.None? && s.drains[call].todo == []
  }

  function Returned(s: System, call: nat): System {
    s.(drains := s.drains - {call})
  }

  // Operations: begin, the wrapped call, the select on its result or on cancellation.

  predicate CanBegin(s: System, op: nat) {
    op !in s.ops && s.net.up && !s.net.closed
  }

  function Begun(s: System, op: nat): System {
    s.(ops := s.ops[op := Calling(s.net.gen, s.net.done)])
  }

  predicate InCall(s: System, op: nat) {
    op in s.ops && (s.ops[op].Calling? || s.ops[op].Deserted?)
  }

  function Produced(s: System, op: nat, o: Obj): System
    requires InCall(s, op)
  {
    s.(objs := s.objs[o := Life(op, None, false, false, false)],
       ops := s.ops[op := if s.ops[op].Calling? then Answered(s.ops[op].began, s.ops[op].done, o) else Late(o)])
  }

  function Ended(s: System, op: nat): System {
    s.(ops := s.ops - {op})
  }

  predicate Waiting(s: System, op: nat) {
    op in s.ops && (s.ops[op].Calling? || s.ops[op].Answered?)
  }

  function Left(s: System, op: nat): System
    requires Waiting(s, op)
  {
    s.(ops := s.ops[op := if s.ops[op].Calling? then Deserted else Late(s.ops[op].obj)])
  }

  predicate CanReceive(s: System, op: nat) {
    op in s.ops && s.ops[op].Answered?
  }

  function Received(s: System, op: nat): System
    requires CanReceive(s, op)
  {
    s.(ops := s.ops[op := Holding(Some(s.ops[op].began), s.ops[op].obj)])
  }

  /** An accept callback starts on a new connection. */
  function Accepted(s: System, op: nat, o: Obj): System {
    s.(objs := s.objs[o := Life(op, None, false, false, false)], ops := s.ops[op := Holding(None, o)])
  }

  // Tracking: the two critical sections, and closing what could not be tracked.

  predicate CanReserve(s: System, op: nat) {
    op in s.ops && s.ops[op].Holding? && s.ops[op].obj in s.objs
  }

  function AfterReserve(s: System, op: nat): (r: System)
    requires CanReserve(s, op)
  {
    var h := s.ops[op];
    if Current(s.net, h.gen) then
      s.(net := s.net.(nextId := s.net.nextId + 1),
         objs := s.objs[h.obj := s.objs[h.obj].(id := Some(s.net.nextId))],
         ops := s.ops[op := Reserved(h.gen, s.net.nextId, h.obj)])
    else s.(ops := s.ops[op := Refused(h.obj)])
  }

  predicate CanFinish(s: System, op: nat) {
    op in s.ops && s.ops[op].Reserved? && s.ops[op].obj in s.objs
  }

  function AfterFinish(s: System, op: nat): (r: System)
    requires CanFinish(s, op)
  {
    var h := s.ops[op];
    if Current(s.net, h.gen) then
      s.(net := s.net.(closers := s.net.closers[h.id := h.obj]),
         objs := s.objs[h.obj := s.objs[h.obj].(handed := true)],
         ops := s.ops - {op})
    else s.(ops := s.ops[op := Refused(h.obj)])
  }

  predicate CanDiscard(s: System, op: nat) {
    op in s.ops && (s.ops[op].Late? || s.ops[op].Refused?) && s.ops[op].obj in s.objs
  }

  function Discarded(s: System, op: nat): System
    requires CanDiscard(s, op)
  {
    Ended(CloseCalled(s, s.ops[op].obj), op)
  }

  // Any object may be closed by anyone at any time: callback first, then the object itself.

  function CloseCalled(s: System, o: Obj): System
    requires o in s.objs
  {
    s.(objs := s.objs[o := s.objs[o].(closing := true)])
  }

  predicate CanUnregister(s: System, o: Obj) {
    o in s.objs && s.objs[o].closing && s.objs[o].id.Some?
  }

  function Unregistered(s: System, o: Obj): System
    requires CanUnregister(s, o)
  {
    s.(net := s.net.(closers := s.net.closers - {s.objs[o].id.value}))
  }

  predicate CanShut(s: System, o: Obj) {
    o in s.objs && s.objs[o].closing
  }

  function AfterShut(s: System, o: Obj): System
    requires CanShut(s, o)
  {
    s.(objs := s.objs[o := s.objs[o].(shut := true)])
  }

  // ---------------------------------------------------------------- the invariant

  predicate Tracked(s: System, o: Obj) {
    && o in s.objs && s.objs[o].id.Some?
    && s.objs[o].id.value in s.net.closers && s.net.closers[s.objs[o].id.value] == o
  }

  predicate Drained(s: System, o: Obj) {
    exists call | call in s.drains :: o in s.drains[call].todo
  }

  predicate Owned(s: System, o: Obj)
    requires o in s.objs
  {
    s.objs[o].op in s.ops && Owns(s.ops[s.objs[o].op], o)
  }

  /** Ids name one object each; what is tracked was handed out under its own id. */
  predicate IdsOk(s: System) {
    && (s.net.closed ==> !s.net.up)
    && (!s.net.up ==> s.net.closers == map[])
    && (forall o | o in s.objs && s.objs[o].id.Some? :: s.objs[o].id.value < s.net.nextId)
    && (forall a, b | a in s.objs && b in s.objs && s.objs[a].id.Some? && s.objs[a].id == s.objs[b].id :: a == b)
    && (forall id | id in s.net.closers ::
          var o := s.net.closers[id]; o in s.objs && s.objs[o].handed && s.objs[o].id == Some(id))
  }

  /** An operation owns the object it produced, and only until that is handed out. */
  predicate OpsOk(s: System) {
    forall op | op in s.ops && !s.ops[op].Calling? && !s.ops[op].Deserted? ::
      var o := s.ops[op].obj;
      && o in s.objs && !s.objs[o].handed && s.objs[o].op == op
      && (s.ops[op].Reserved? ==> s.objs[o].id == Some(s.ops[op].id))
  }

  /** Whatever is not closing yet has someone who will close it. */
  predicate NothingLost(s: System) {
    forall o | o in s.objs && !s.objs[o].closing ::
      if s.objs[o].handed then Tracked(s, o) || Drained(s, o) else Owned(s, o)
  }

  predicate DrainsOk(s: System) {
    forall call | call in s.drains ::
      && (forall o | o in s.drains[call].todo :: o in s.drains[call].earlier)
      && (forall o | o in s.drains[call].earlier :: o in s.objs && s.objs[o].handed && !Tracked(s, o))
  }

  predicate ObjectsOk(s: System) {
    IdsOk(s) && OpsOk(s) && NothingLost(s) && DrainsOk(s)
  }

  /** The channel is closed, or a Down or Close is about to close it. */
  predicate Ending(s: System, c: Chan) {
    c in s.shut || exists call | call in s.drains :: s.drains[call].pending == Some(c)
  }

  /** No channel is closed twice, and operations of an earlier generation are told to stop. */
  predicate ChansOk(s: System) {
    && s.net.done <= s.net.gen
    && (s.net.closed ==> !s.net.up)
    && (s.net.up ==> !Ending(s, s.net.done))
    && (forall c | c in s.shut :: c <= s.net.gen)
    && (forall call | call in s.drains && s.drains[call].pending.Some? ::
          s.drains[call].pending.value <= s.net.gen && s.drains[call].pending.value !in s.shut)
    && (forall a, b | a in s.drains && b in s.drains && s.drains[a].pending.Some? && s.drains[a].pending == s.drains[b].pending ::
          a == b)
    && (forall op | op in s.ops && Waiting(s, op) ::
          && s.ops[op].began <= s.net.gen
          && if s.ops[op].began == s.net.gen then s.net.up && s.ops[op].done == s.net.done
             else Ending(s, s.ops[op].done))
  }

  predicate Inv(s: System) {
    ObjectsOk(s) && ChansOk(s)
  }

  lemma DrainedStays(s: System, t: System, o: Obj)
    requires Drained(s, o)
    requires forall call | call in s.drains && o in s.drains[call].todo ::
               call in t.drains && o in t.drains[call].todo
    ensures Drained(t, o)
  {
  }

  lemma EndingStays(s: System, t: System, c: Chan)
    requires Ending(s, c) && s.shut <= t.shut
    requires forall call | call in s.drains && s.drains[call].pending == Some(c) ::
               c in t.shut || (call in t.drains && t.drains[call].pending == Some(c))
    ensures Ending(t, c)
  {
  }

  lemma UpKeepsObjects(s: System)
    requires ObjectsOk(s)
    ensures ObjectsOk(s.(net := Upped(s.net)))
  {
  }

  lemma UpKeepsChans(s: System)
    requires ChansOk(s)
    ensures ChansOk(s.(net := Upped(s.net)))
  {
  }

  lemma DownKeepsIds(s: System, call: nat, order: seq<Obj>)
    requires ObjectsOk(s) && CanTakeDown(s, call, order)
    ensures IdsOk(Taken(s, call, order, Downed(s.net))) && DrainsOk(Taken(s, call, order, Downed(s.net)))
  {
    hide NothingLost;
  }

  lemma DownLosesNothing(s: System, call: nat, order: seq<Obj>)
    requires ObjectsOk(s) && CanTakeDown(s, call, order)
    ensures OpsOk(Taken(s, call, order, Downed(s.net))) && NothingLost(Taken(s, call, order, Downed(s.net)))
  {
    hide DrainsOk;
    var t := Taken(s, call, order, Downed(s.net));
    forall o | Drained(s, o) ensures Drained(t, o) { DrainedStays(s, t, o); }
    assert t.drains[call].todo == order;
  }

  lemma DownKeepsObjects(s: System, call: nat, order: seq<Obj>)
    requires ObjectsOk(s) && CanTakeDown(s, call, order)
    ensures ObjectsOk(Taken(s, call, order, Downed(s.net)))
  {
    hide IdsOk, OpsOk, NothingLost, DrainsOk;
    DownKeepsIds(s, call, order);
    DownLosesNothing(s, call, order);
  }

  lemma DownKeepsChans(s: System, call: nat, order: seq<Obj>)
    requires ChansOk(s) && CanTakeDown(s, call, order)
    ensures ChansOk(Taken(s, call, order, Downed(s.net)))
  {
    var t := Taken(s, call, order, Downed(s.net));
    forall c | Ending(s, c) ensures Ending(t, c) { EndingStays(s, t, c); }
    assert t.drains[call].pending == Pending(s.net);
  }

  lemma CloseKeepsIds(s: System, call: nat, order: seq<Obj>)
    requires ObjectsOk(s) && CanTakeClose(s, call, order)
    ensures IdsOk(Taken(s, call, order, Closed(s.net))) && DrainsOk(Taken(s, call, order, Closed(s.net)))
  {
    hide NothingLost;
  }

  lemma CloseLosesNothing(s: System, call: nat, order: seq<Obj>)
    requires ObjectsOk(s) && CanTakeClose(s, call, order)
    ensures OpsOk(Taken(s, call, order, Closed(s.net))) && NothingLost(Taken(s, call, order, Closed(s.net)))
  {
    hide DrainsOk;
    var t := Taken(s, call, order, Closed(s.net));
    forall o | Drained(s, o) ensures Drained(t, o) { DrainedStays(s, t, o); }
    assert t.drains[call].todo == order;
  }

  lemma CloseKeepsObjects(s: System, call: nat, order: seq<Obj>)
    requires ObjectsOk(s) && CanTakeClose(s, call, order)
    ensures ObjectsOk(Taken(s, call, order, Closed(s.net)))
  {
    hide IdsOk, OpsOk, NothingLost, DrainsOk;
    CloseKeepsIds(s, call, order);
    CloseLosesNothing(s, call, order);
  }

  lemma CloseKeepsChans(s: System, call: nat, order: seq<Obj>)
    requires ChansOk(s) && CanTakeClose(s, call, order)
    ensures ChansOk(Taken(s, call, order, Closed(s.net)))
  {
    var t := Taken(s, call, order, Closed(s.net));
    forall c | Ending(s, c) ensures Ending(t, c) { EndingStays(s, t, c); }
    assert t.drains[call].pending == Pending(s.net);
  }

  lemma CloseDoneKeepsIds(s: System, call: nat)
    requires ObjectsOk(s) && CanCloseDone(s, call)
    ensures IdsOk(DoneClosed(s, call)) && DrainsOk(DoneClosed(s, call))
  {
    hide NothingLost;
  }

  lemma CloseDoneLosesNothing(s: System, call: nat)
    requires ObjectsOk(s) && CanCloseDone(s, call)
    ensures OpsOk(DoneClosed(s, call)) && NothingLost(DoneClosed(s, call))
  {
    hide DrainsOk;
    var t := DoneClosed(s, call);
    forall o | Drained(s, o) ensures Drained(t, o) { DrainedStays(s, t, o); }
  }

  lemma CloseDoneKeepsObjects(s: System, call: nat)
    requires ObjectsOk(s) && CanCloseDone(s, call)
    ensures ObjectsOk(DoneClosed(s, call))
  {
    hide IdsOk, OpsOk, NothingLost, DrainsOk;
    CloseDoneKeepsIds(s, call);
    CloseDoneLosesNothing(s, call);
  }

  lemma CloseDoneKeepsChans(s: System, call: nat)
    requires ChansOk(s) && CanCloseDone(s, call)
    ensures ChansOk(DoneClosed(s, call))
  {
    var t := DoneClosed(s, call);
    forall c | Ending(s, c) ensures Ending(t, c) { EndingStays(s, t, c); }
  }

  lemma ReturnKeepsObjects(s: System, call: nat)
    requires ObjectsOk(s) && CanReturn(s, call)
    ensures ObjectsOk(Returned(s, call))
  {
    var t := Returned(s, call);
    forall o | Drained(s, o) ensures Drained(t, o) { DrainedStays(s, t, o); }
  }

  lemma ReturnKeepsChans(s: System, call: nat)
    requires ChansOk(s) && CanReturn(s, call)
    ensures ChansOk(Returned(s, call))
  {
    var t := Returned(s, call);
    forall c | Ending(s, c) ensures Ending(t, c) { EndingStays(s, t, c); }
  }

  lemma BeginKeepsObjects(s: System, op: nat)
    requires ObjectsOk(s) && CanBegin(s, op)
    ensures ObjectsOk(Begun(s, op))
  {
  }

  lemma BeginKeepsChans(s: System, op: nat)
    requires ChansOk(s) && CanBegin(s, op)
    ensures ChansOk(Begun(s, op))
  {
  }

  lemma ProduceKeepsIds(s: System, op: nat, o: Obj)
    requires ObjectsOk(s) && InCall(s, op) && o !in s.objs
    ensures IdsOk(Produced(s, op, o)) && DrainsOk(Produced(s, op, o))
  {
    hide NothingLost;
  }

  lemma ProduceLosesNothing(s: System, op: nat, o: Obj)
    requires ObjectsOk(s) && InCall(s, op) && o !in s.objs
    ensures OpsOk(Produced(s, op, o)) && NothingLost(Produced(s, op, o))
  {
    hide DrainsOk;
  }

  lemma ProduceKeepsObjects(s: System, op: nat, o: Obj)
    requires ObjectsOk(s) && InCall(s, op) && o !in s.objs
    ensures ObjectsOk(Produced(s, op, o))
  {
    hide IdsOk, OpsOk, NothingLost, DrainsOk;
    ProduceKeepsIds(s, op, o);
    ProduceLosesNothing(s, op, o);
  }

  lemma ProduceKeepsChans(s: System, op: nat, o: Obj)
    requires ChansOk(s) && InCall(s, op) && o !in s.objs
    ensures ChansOk(Produced(s, op, o))
  {
  }

  lemma DesertKeepsObjects(s: System, op: nat)
    requires ObjectsOk(s) && Waiting(s, op)
    ensures ObjectsOk(Left(s, op))
  {
  }

  lemma DesertKeepsChans(s: System, op: nat)
    requires ChansOk(s) && Waiting(s, op)
    ensures ChansOk(Left(s, op))
  {
  }

  lemma ReceiveKeepsObjects(s: System, op: nat)
    requires ObjectsOk(s) && CanReceive(s, op)
    ensures ObjectsOk(Received(s, op))
  {
  }

  lemma ReceiveKeepsChans(s: System, op: nat)
    requires ChansOk(s) && CanReceive(s, op)
    ensures ChansOk(Received(s, op))
  {
  }

  lemma AcceptKeepsIds(s: System, op: nat, o: Obj)
    requires ObjectsOk(s) && op !in s.ops && o !in s.objs
    ensures IdsOk(Accepted(s, op, o)) && DrainsOk(Accepted(s, op, o))
  {
    hide NothingLost;
  }

  lemma AcceptLosesNothing(s: System, op: nat, o: Obj)
    requires ObjectsOk(s) && op !in s.ops && o !in s.objs
    ensures OpsOk(Accepted(s, op, o)) && NothingLost(Accepted(s, op, o))
  {
    hide DrainsOk;
  }

  lemma AcceptKeepsObjects(s: System, op: nat, o: Obj)
    requires ObjectsOk(s) && op !in s.ops && o !in s.objs
    ensures ObjectsOk(Accepted(s, op, o))
  {
    hide IdsOk, OpsOk, NothingLost, DrainsOk;
    AcceptKeepsIds(s, op, o);
    AcceptLosesNothing(s, op, o);
  }

  lemma AcceptKeepsChans(s: System, op: nat, o: Obj)
    requires ChansOk(s) && op !in s.ops && o !in s.objs
    ensures ChansOk(Accepted(s, op, o))
  {
  }

  lemma ReserveKeepsIds(s: System, op: nat)
    requires ObjectsOk(s) && CanReserve(s, op)
    ensures IdsOk(AfterReserve(s, op)) && DrainsOk(AfterReserve(s, op))
  {
    hide NothingLost;
  }

  lemma ReserveLosesNothing(s: System, op: nat)
    requires ObjectsOk(s) && CanReserve(s, op)
    ensures OpsOk(AfterReserve(s, op)) && NothingLost(AfterReserve(s, op))
  {
    hide DrainsOk;
  }

  lemma ReserveKeepsObjects(s: System, op: nat)
    requires ObjectsOk(s) && CanReserve(s, op)
    ensures ObjectsOk(AfterReserve(s, op))
  {
    hide IdsOk, OpsOk, NothingLost, DrainsOk;
    ReserveKeepsIds(s, op);
    ReserveLosesNothing(s, op);
  }

  lemma ReserveKeepsChans(s: System, op: nat)
    requires ChansOk(s) && CanReserve(s, op)
    ensures ChansOk(AfterReserve(s, op))
  {
  }

  lemma FinishKeepsIds(s: System, op: nat)
    requires ObjectsOk(s) && CanFinish(s, op)
    ensures IdsOk(AfterFinish(s, op))
  {
    hide NothingLost, DrainsOk;
  }

  lemma FinishKeepsDrains(s: System, op: nat)
    requires ObjectsOk(s) && CanFinish(s, op)
    ensures DrainsOk(AfterFinish(s, op))
  {
    hide NothingLost;
  }

  lemma FinishLosesNothing(s: System, op: nat)
    requires ObjectsOk(s) && CanFinish(s, op)
    ensures OpsOk(AfterFinish(s, op)) && NothingLost(AfterFinish(s, op))
  {
    hide DrainsOk;
  }

  lemma FinishKeepsObjects(s: System, op: nat)
    requires ObjectsOk(s) && CanFinish(s, op)
    ensures ObjectsOk(AfterFinish(s, op))
  {
    hide IdsOk, OpsOk, NothingLost, DrainsOk;
    FinishKeepsIds(s, op);
    FinishKeepsDrains(s, op);
    FinishLosesNothing(s, op);
  }

  lemma FinishKeepsChans(s: System, op: nat)
    requires ChansOk(s) && CanFinish(s, op)
    ensures ChansOk(AfterFinish(s, op))
  {
  }

  lemma CallCloseKeepsIds(s: System, o: Obj)
    requires ObjectsOk(s) && o in s.objs
    ensures IdsOk(CloseCalled(s, o)) && DrainsOk(CloseCalled(s, o))
  {
    hide NothingLost;
  }

  lemma CallCloseLosesNothing(s: System, o: Obj)
    requires ObjectsOk(s) && o in s.objs
    ensures OpsOk(CloseCalled(s, o)) && NothingLost(CloseCalled(s, o))
  {
    hide DrainsOk;
  }

  lemma CallCloseKeepsObjects(s: System, o: Obj)
    requires ObjectsOk(s) && o in s.objs
    ensures ObjectsOk(CloseCalled(s, o))
  {
    hide IdsOk, OpsOk, NothingLost, DrainsOk;
    CallCloseKeepsIds(s, o);
    CallCloseLosesNothing(s, o);
  }

  lemma CallCloseKeepsChans(s: System, o: Obj)
    requires ChansOk(s) && o in s.objs
    ensures ChansOk(CloseCalled(s, o))
  {
  }

  lemma UnregisterKeepsObjects(s: System, o: Obj)
    requires ObjectsOk(s) && CanUnregister(s, o)
    ensures ObjectsOk(Unregistered(s, o))
  {
  }

  lemma UnregisterKeepsChans(s: System, o: Obj)
    requires ChansOk(s) && CanUnregister(s, o)
    ensures ChansOk(Unregistered(s, o))
  {
  }

  lemma ShutKeepsIds(s: System, o: Obj)
    requires ObjectsOk(s) && CanShut(s, o)
    ensures IdsOk(AfterShut(s, o)) && DrainsOk(AfterShut(s, o))
  {
    hide NothingLost;
  }

  lemma ShutLosesNothing(s: System, o: Obj)
    requires ObjectsOk(s) && CanShut(s, o)
    ensures OpsOk(AfterShut(s, o)) && NothingLost(AfterShut(s, o))
  {
    hide DrainsOk;
  }

  lemma ShutKeepsObjects(s: System, o: Obj)
    requires ObjectsOk(s) && CanShut(s, o)
    ensures ObjectsOk(AfterShut(s, o))
  {
    hide IdsOk, OpsOk, NothingLost, DrainsOk;
    ShutKeepsIds(s, o);
    ShutLosesNothing(s, o);
  }

  lemma ShutKeepsChans(s: System, o: Obj)
    requires ChansOk(s) && CanShut(s, o)
    ensures ChansOk(AfterShut(s, o))
  {
  }

  lemma DropKeepsObjects(s: System, call: nat)
    requires ObjectsOk(s) && call in s.drains && s.drains[call].todo != []
    requires s.drains[call].todo[0] in s.objs && s.objs[s.drains[call].todo[0]].closing
    ensures ObjectsOk(Dropped(s, call))
  {
    var t := Dropped(s, call);
    forall o | Drained(s, o) && o != s.drains[call].todo[0] ensures Drained(t, o) { DrainedStays(s, t, o); }
  }

  lemma DropKeepsChans(s: System, call: nat)
    requires ChansOk(s) && call in s.drains && s.drains[call].todo != []
    ensures ChansOk(Dropped(s, call))
  {
    var t := Dropped(s, call);
    forall c | Ending(s, c) ensures Ending(t, c) { EndingStays(s, t, c); }
  }

  /** An operation may end once its object, if it has one, is closing. */
  predicate CanEnd(s: System, op: nat) {
    op in s.ops && (InCall(s, op) || (s.ops[op].obj in s.objs && s.objs[s.ops[op].obj].closing))
  }

  lemma EndKeepsObjects(s: System, op: nat)
    requires ObjectsOk(s) && CanEnd(s, op)
    ensures ObjectsOk(Ended(s, op))
  {
  }

  lemma EndKeepsChans(s: System, op: nat)
    requires ChansOk(s)
    ensures ChansOk(Ended(s, op))
  {
  }

  // ---------------------------------------------------------------- whole runs

  datatype Action =
    | Up
    | Down(call: nat, order: seq<Obj>)
    | Close(call: nat, order: seq<Obj>)
    | CloseDone(call: nat)
    | CloseNext(call: nat)
    | Return(call: nat)
    | Begin(op: nat)
    | Produce(op: nat, obj: Obj)
    | Fail(op: nat)
    | Desert(op: nat)
    | Receive(op: nat)
    | Accept(op: nat, obj: Obj)
    | Reserve(op: nat)
    | Finish(op: nat)
    | Discard(op: nat)
    | CallClose(obj: Obj)
    | Unregister(obj: Obj)
    | Shut(obj: Obj)

  ghost predicate Enabled(s: System, a: Action) {
    match a
    case Up => true
    case Down(call, order) => CanTakeDown(s, call, order)
    case Close(call, order) => CanTakeClose(s, call, order)
    case CloseDone(call) => CanCloseDone(s, call)
    case CloseNext(call) => CanCloseNext(s, call)
    case Return(call) => CanReturn(s, call)
    case Begin(op) => CanBegin(s, op)
    case Produce(op, obj) => InCall(s, op) && obj !in s.objs
    case Fail(op) => InCall(s, op)
    case Desert(op) => Waiting(s, op)
    case Receive(op) => CanReceive(s, op)
    case Accept(op, obj) => op !in s.ops && obj !in s.objs
    case Reserve(op) => CanReserve(s, op)
    case Finish(op) => CanFinish(s, op)
    case Discard(op) => CanDiscard(s, op)
    case CallClose(obj) => obj in s.objs
    case Unregister(obj) => CanUnregister(s, obj)
    case Shut(obj) => CanShut(s, obj)
  }

  function Apply(s: System, a: Action): System
    requires Enabled(s, a)
  {
    match a
    case Up => s.(net := Upped(s.net))
    case Down(call, order) => Taken(s, call, order, Downed(s.net))
    case Close(call, order) => Taken(s, call, order, Closed(s.net))
    case CloseDone(call) => DoneClosed(s, call)
    case CloseNext(call) => NextClosed(s, call)
    case Return(call) => Returned(s, call)
    case Begin(op) => Begun(s, op)
    case Produce(op, obj) => Produced(s, op, obj)
    case Fail(op) => Ended(s, op)
    case Desert(op) => Left(s, op)
    case Receive(op) => Received(s, op)
    case Accept(op, obj) => Accepted(s, op, obj)
    case Reserve(op) => AfterReserve(s, op)
    case Finish(op) => AfterFinish(s, op)
    case Discard(op) => Discarded(s, op)
    case CallClose(obj) => CloseCalled(s, obj)
    case Unregister(obj) => Unregistered(s, obj)
    case Shut(obj) => AfterShut(s, obj)
  }

  /** Every step of the protocol keeps the invariant. */
  lemma StepKeeps(s: System, a: Action)
    requires Inv(s) && Enabled(s, a)
    ensures Inv(Apply(s, a))
  {
    hide ObjectsOk, ChansOk;
    match a
    case Up => UpKeepsObjects(s); UpKeepsChans(s);
    case Down(call, order) => DownKeepsObjects(s, call, order); DownKeepsChans(s, call, order);
    case Close(call, order) => CloseKeepsObjects(s, call, order); CloseKeepsChans(s, call, order);
    case CloseDone(call) => CloseDoneKeepsObjects(s, call); CloseDoneKeepsChans(s, call);
    case CloseNext(call) =>
      var o := s.drains[call].todo[0];
      CallCloseKeepsObjects(s, o);
      CallCloseKeepsChans(s, o);
      DropKeepsObjects(CloseCalled(s, o), call);
      DropKeepsChans(CloseCalled(s, o), call);
    case Return(call) => ReturnKeepsObjects(s, call); ReturnKeepsChans(s, call);
    case Begin(op) => BeginKeepsObjects(s, op); BeginKeepsChans(s, op);
    case Produce(op, obj) => ProduceKeepsObjects(s, op, obj); ProduceKeepsChans(s, op, obj);
    case Fail(op) => EndKeepsObjects(s, op); EndKeepsChans(s, op);
    case Desert(op) => DesertKeepsObjects(s, op); DesertKeepsChans(s, op);
    case Receive(op) => ReceiveKeepsObjects(s, op); ReceiveKeepsChans(s, op);
    case Accept(op, obj) => AcceptKeepsObjects(s, op, obj); AcceptKeepsChans(s, op, obj);
    case Reserve(op) => ReserveKeepsObjects(s, op); ReserveKeepsChans(s, op);
    case Finish(op) => FinishKeepsObjects(s, op); FinishKeepsChans(s, op);
    case Discard(op) =>
      var o := s.ops[op].obj;
      CallCloseKeepsObjects(s, o);
      CallCloseKeepsChans(s, o);
      EndKeepsObjects(CloseCalled(s, o), op);
      EndKeepsChans(CloseCalled(s, o), op);
    case CallClose(obj) => CallCloseKeepsObjects(s, obj); CallCloseKeepsChans(s, obj);
    case Unregister(obj) => UnregisterKeepsObjects(s, obj); UnregisterKeepsChans(s, obj);
    case Shut(obj) => ShutKeepsObjects(s, obj); ShutKeepsChans(s, obj);
  }

  /** t is reached from s by these actions, in this order. */
  ghost predicate Runs(s: System, run: seq<Action>, t: System)
    decreases |run|
  {
    if run == [] then t == s else Enabled(s, run[0]) && Runs(Apply(s, run[0]), run[1..], t)
  }

  lemma {:induction false} RunsKeep(s: System, run: seq<Action>, t: System)
    requires Inv(s) && Runs(s, run, t)
    ensures Inv(t)
    decreases |run|
  {
    hide Inv, Enabled, Apply;
    if run != [] {
      StepKeeps(s, run[0]);
      RunsKeep(Apply(s, run[0]), run[1..], t);
    }
  }

  ghost predicate Reachable(s: System) {
    exists run: seq<Action> :: Runs(START, run, s)
  }

  lemma ReachableInv(s: System)
    requires Reachable(s)
    ensures Inv(s)
  {
    hide Runs, Inv;
    var run: seq<Action> :| Runs(START, run, s);
    StartOk();
    RunsKeep(START, run, s);
  }

  lemma StartOk()
    ensures Inv(START)
  {
  }

  /** In every interleaving, each object handed out is tracked, already closing, or in a drain list. */
  lemma HandedOutIsAccountedFor(s: System, o: Obj)
    requires Reachable(s) && o in Handed(s)
    ensures s.objs[o].closing || Tracked(s, o) || Drained(s, o)
  {
    hide Reachable;
    ReachableInv(s);
  }

  /** Every object the wrapped network produced was handed out, is closing, or is still on its way
      through an operation; once no operation is in flight none can be lost. */
  lemma ProducedIsNeverLost(s: System, o: Obj)
    requires Reachable(s) && o in s.objs
    ensures s.objs[o].handed || s.objs[o].closing || Owned(s, o)
    ensures s.ops == map[] ==> s.objs[o].handed || s.objs[o].closing
  {
    hide Reachable;
    ReachableInv(s);
  }

  /** When Down or Close returns, whatever was handed out before its critical section is closing or
      lies in the list of another Down or Close that has not returned. */
  lemma ReturnLeavesNothingOpen(s: System, call: nat, o: Obj)
    requires Reachable(s) && CanReturn(s, call) && o in s.drains[call].earlier
    ensures o in s.objs
    ensures s.objs[o].closing || exists other | other in s.drains && other != call :: o in s.drains[other].todo
  {
    hide Reachable;
    ReachableInv(s);
  }

  /** When Down or Close returns, everything handed out earlier is closing if and only if no other
      running call still lists such an object that is not closing. */
  lemma ReturnClosesAllIff(s: System, call: nat)
    requires Reachable(s) && CanReturn(s, call)
    ensures (forall o | o in s.drains[call].earlier :: o in s.objs && s.objs[o].closing) <==> OthersClear(s, call)
  {
    hide Reachable;
    ReachableInv(s);
    if OthersClear(s, call) {
      forall o | o in s.drains[call].earlier ensures o in s.objs && s.objs[o].closing {
        ReturnLeavesNothingOpen(s, call, o);
      }
    }
  }

  // ---------------------------------------------------------------- when Down keeps its promise

  /** No other running call lists an open object that had been handed out before this call. */
  predicate OthersClear(s: System, call: nat) {
    call in s.drains &&
    forall other, o | other in s.drains && other != call && o in s.drains[other].todo && o in s.drains[call].earlier ::
      o in s.objs && s.objs[o].closing
  }

  /** No running call lists an open object: what a caller of Down or Close can hope to find. */
  predicate NothingPending(s: System) {
    forall call, o | call in s.drains && o in s.drains[call].todo :: o in s.objs && s.objs[o].closing
  }

  /** However the run goes on, this call returns with everything handed out earlier closing. */
  ghost predicate KeepsPromise(s: System, call: nat) {
    forall run: seq<Action>, t: System ::
      Runs(s, run, t) && Return(call) !in run && CanReturn(t, call) ==>
        forall o | o in t.drains[call].earlier :: o in t.objs && t.objs[o].closing
  }

  /** Closing objects stay closing. */
  lemma ClosingStays(s: System, a: Action)
    requires Enabled(s, a)
    ensures forall o | o in s.objs && s.objs[o].closing :: o in Apply(s, a).objs && Apply(s, a).objs[o].closing
  {
    hide Lists, Handed, Upped, Downed, Closed, Current;
  }

  /** Running calls only work off their lists. */
  lemma DrainsShrink(s: System, a: Action)
    requires Enabled(s, a) && !a.Down? && !a.Close?
    ensures var t := Apply(s, a);
            forall k | k in s.drains && a != Return(k) ::
              && k in t.drains && t.drains[k].earlier == s.drains[k].earlier
              && forall o | o in t.drains[k].todo :: o in s.drains[k].todo
    ensures forall k | k in Apply(s, a).drains :: k in s.drains && a != Return(k)
  {
    hide Lists, Handed, Upped, Downed, Closed, Current;
  }

  /** Later calls list only what is tracked, and nothing handed out before is tracked any more. */
  lemma StepKeepsOthersClear(s: System, a: Action, call: nat)
    requires Inv(s) && Enabled(s, a) && OthersClear(s, call) && a != Return(call)
    ensures OthersClear(Apply(s, a), call)
  {
    ClosingStays(s, a);
    if a.Down? || a.Close? {
      TakenIsNew(s, a.call, a.order, call);
      hide Inv, Lists;
    } else {
      DrainsShrink(s, a);
      hide Inv, Apply, Enabled;
    }
  }

  lemma TakenIsNew(s: System, fresher: nat, order: seq<Obj>, call: nat)
    requires IdsOk(s) && DrainsOk(s) && call in s.drains && fresher !in s.drains
    requires order == [] || Lists(order, s.net.closers)
    ensures forall o | o in order :: o !in s.drains[call].earlier
  {
    forall o | o in order ensures o !in s.drains[call].earlier {
      var id :| id in s.net.closers && s.net.closers[id] == o;
      assert Tracked(s, o);
    }
  }

  lemma {:induction false} RunKeepsOthersClear(s: System, run: seq<Action>, t: System, call: nat)
    requires Inv(s) && Runs(s, run, t) && OthersClear(s, call) && Return(call) !in run
    ensures OthersClear(t, call)
    decreases |run|
  {
    hide Inv, Enabled, Apply, OthersClear;
    if run != [] {
      StepKeeps(s, run[0]);
      StepKeepsOthersClear(s, run[0], call);
      RunKeepsOthersClear(Apply(s, run[0]), run[1..], t, call);
    }
  }

  /** A run in which only this call moves: it closes what it lists and nothing else. */
  lemma {:induction false} FinishAlone(s: System, call: nat) returns (run: seq<Action>, t: System)
    requires call in s.drains && forall o | o in s.drains[call].todo :: o in s.objs
    ensures Runs(s, run, t) && Return(call) !in run && CanReturn(t, call)
    ensures t.drains[call].earlier == s.drains[call].earlier && t.objs.Keys == s.objs.Keys
    ensures forall o | o in s.objs && o !in s.drains[call].todo :: t.objs[o].closing == s.objs[o].closing
    decreases s.drains[call].pending.Some?, |s.drains[call].todo|
  {
    var d := s.drains[call];
    if d.pending.None? && d.todo == [] {
      run, t := [], s;
    } else {
      var a := if d.pending.Some? then CloseDone(call) else CloseNext(call);
      var next := Apply(s, a);
      var rest;
      rest, t := FinishAlone(next, call);
      run := [a] + rest;
      assert run[1..] == rest;
    }
  }

  /** The documented promise, decided when Down is called: it is kept in every continuation if and
      only if no call that is still running lists an open object. */
  lemma DownKeepsPromiseIff(s: System, call: nat, order: seq<Obj>)
    requires Reachable(s) && CanTakeDown(s, call, order)
    ensures KeepsPromise(Taken(s, call, order, Downed(s.net)), call) <==> NothingPending(s)
  {
    hide Reachable, Inv, Runs;
    ReachableInv(s);
    StepKeeps(s, Down(call, order));
    TakenKeepsPromiseIff(s, call, order, Downed(s.net));
  }

  lemma CloseKeepsPromiseIff(s: System, call: nat, order: seq<Obj>)
    requires Reachable(s) && CanTakeClose(s, call, order)
    ensures KeepsPromise(Taken(s, call, order, Closed(s.net)), call) <==> NothingPending(s)
  {
    hide Reachable, Inv, Runs;
    ReachableInv(s);
    StepKeeps(s, Close(call, order));
    TakenKeepsPromiseIff(s, call, order, Closed(s.net));
  }

  lemma TakenKeepsPromiseIff(s: System, call: nat, order: seq<Obj>, after: Net)
    requires Inv(s) && Inv(Taken(s, call, order, after)) && call !in s.drains && (order == [] || Lists(order, s.net.closers))
    ensures KeepsPromise(Taken(s, call, order, after), call) <==> NothingPending(s)
  {
    var t := Taken(s, call, order, after);
    if NothingPending(s) {
      assert OthersClear(t, call);
      PromiseKept(t, call);
    } else {
      var other, o :| other in s.drains && o in s.drains[other].todo && !(o in s.objs && s.objs[o].closing);
      TakenIsNew(s, call, order, other);
      PromiseBroken(t, call, o);
    }
  }

  lemma PromiseKept(t: System, call: nat)
    requires Inv(t) && OthersClear(t, call)
    ensures KeepsPromise(t, call)
  {
    hide Inv, OthersClear, Runs;
    forall run: seq<Action>, u: System | Runs(t, run, u) && Return(call) !in run && CanReturn(u, call)
      ensures forall o | o in u.drains[call].earlier :: o in u.objs && u.objs[o].closing
    {
      RunKeepsOthersClear(t, run, u, call);
      RunsKeep(t, run, u);
      AllClosing(u, call);
    }
  }

  lemma AllClosing(u: System, call: nat)
    requires Inv(u) && OthersClear(u, call) && CanReturn(u, call)
    ensures forall o | o in u.drains[call].earlier :: o in u.objs && u.objs[o].closing
  {
  }

  lemma PromiseBroken(t: System, call: nat, o: Obj)
    requires Inv(t) && call in t.drains && o in t.drains[call].earlier && o !in t.drains[call].todo && o in t.objs && !t.objs[o].closing
    ensures !KeepsPromise(t, call)
  {
    hide Runs;
    assert forall x | x in t.drains[call].todo :: x in t.objs;
    var run, u := FinishAlone(t, call);
  }

  /** The step that closes a done channel finds it open, so no channel is closed twice. */
  lemma DoneClosesOnce(s: System, call: nat)
    requires Reachable(s) && CanCloseDone(s, call)
    ensures s.drains[call].pending.value !in s.shut
  {
    hide Reachable;
    ReachableInv(s);
  }

  /** A caller that waits in an operation begun before the last Down or Close is being woken. */
  lemma StaleWaiterIsWoken(s: System, op: nat)
    requires Reachable(s) && op in s.ops && (s.ops[op].Calling? || s.ops[op].Answered?)
    ensures s.ops[op].began != s.net.gen || !s.net.up ==> Ending(s, s.ops[op].done)
    ensures s.ops[op].began == s.net.gen ==> s.ops[op].done == s.net.done
  {
    hide Reachable;
    ReachableInv(s);
  }

  /** Only Finish hands out, only while the wrapper is up, and for an operation only in the
      generation in which it began. */
  lemma HandoutIsCurrent(s: System, a: Action, o: Obj)
    requires Enabled(s, a) && o in Handed(Apply(s, a)) && o !in Handed(s)
    ensures a.Finish? && s.ops[a.op].obj == o && Current(s.net, s.ops[a.op].gen)
  {
  }

  lemma ClosedStays(s: System, a: Action)
    requires Enabled(s, a) && s.net.closed && !s.net.up
    ensures Apply(s, a).net.closed && !Apply(s, a).net.up
    ensures Handed(Apply(s, a)) <= Handed(s)
  {
  }

  /** Close is terminal: nothing is handed out afterwards. */
  lemma {:induction false} NothingHandedOutAfterClose(s: System, run: seq<Action>, t: System)
    requires s.net.closed && !s.net.up && Runs(s, run, t)
    ensures t.net.closed && !t.net.up && Handed(t) <= Handed(s)
    decreases |run|
  {
    hide Enabled, Apply, Handed;
    if run != [] {
      ClosedStays(s, run[0]);
      NothingHandedOutAfterClose(Apply(s, run[0]), run[1..], t);
    }
  }

  /** Two Down calls that overlap: the second returns at once while the first has not yet closed
      the object, so "everything is closed when Down returns" needs the sole-call condition. */
  lemma OverlappingDownReturnsEarly() returns (s: System)
    ensures Reachable(s) && CanReturn(s, 1) && 0 in s.drains[1].earlier
    ensures 0 in s.objs && !s.objs[0].closing
  {
    assert Runs(START, [], START);
    assert Reachable(START);
    hide Reachable, Runs;
    var h := AcceptedIsHandedOut(START, 0, 0);
    assert h.net.closers[0] == 0;
    var first := Taken(h, 0, [0], Downed(h.net));
    s := Taken(first, 1, [], Downed(first.net));
    assert CanTakeDown(h, 0, [0]);
    ReachableStep(h, Down(0, [0]), first);
    ReachableStep(first, Down(1, []), s);
    assert 0 in Handed(first);
  }

  /** A connection accepted while the wrapper is up can be handed out. */
  lemma AcceptedIsHandedOut(s: System, op: nat, o: Obj) returns (t: System)
    requires Reachable(s) && s.net.up && !s.net.closed && op !in s.ops && o !in s.objs
    ensures Reachable(t)
    ensures t.net == s.net.(nextId := s.net.nextId + 1, closers := s.net.closers[s.net.nextId := o])
    ensures t.drains == s.drains && o in t.objs && t.objs[o].handed && !t.objs[o].closing
  {
    hide Reachable, Runs, Lists, Handed;
    var held := Accepted(s, op, o);
    ReachableStep(s, Accept(op, o), held);
    var reserved := AfterReserve(held, op);
    ReachableStep(held, Reserve(op), reserved);
    t := AfterFinish(reserved, op);
    ReachableStep(reserved, Finish(op), t);
  }

  /** Up brings a wrapper up that is not closed: in a generation that no waiting operation began in,
      with a channel that nobody has closed or is about to close. */
  lemma UpLeadsUp(s: System) returns (t: System)
    requires Reachable(s) && !s.net.closed
    ensures Enabled(s, Up) && t == Apply(s, Up) && Reachable(t)
    ensures t.net.up && !t.net.closed && !Ending(t, t.net.done)
    ensures s.net.up ==> t == s
    ensures !s.net.up ==> t.net.gen > s.net.gen && forall op | op in t.ops && Waiting(t, op) :: t.ops[op].began < t.net.gen
    ensures t.net.closers == s.net.closers && t.ops == s.ops && t.drains == s.drains && t.objs == s.objs
  {
    hide Reachable, Runs;
    t := Apply(s, Up);
    ReachableStep(s, Up, t);
    ReachableInv(s);
    ReachableInv(t);
  }

  /** An operation that nothing interrupts is carried through: its object is handed out, and tracked
      under a new id. */
  lemma OperationIsHandedOut(s: System, op: nat, o: Obj) returns (t: System)
    requires Reachable(s) && s.net.up && !s.net.closed && op !in s.ops && o !in s.objs
    ensures Runs(s, [Begin(op), Produce(op, o), Receive(op), Reserve(op), Finish(op)], t) && Reachable(t)
    ensures t.net == s.net.(nextId := s.net.nextId + 1, closers := s.net.closers[s.net.nextId := o])
    ensures t.ops == s.ops && t.drains == s.drains && o in t.objs && t.objs[o].handed && !t.objs[o].closing
  {
    hide Reachable, Runs, Lists, Handed, Enabled, Apply;
    var begun, answered, held := HeldByOperation(s, op, o);
    var reserved;
    reserved, t := HandedOutOnceHeld(held, op, o, Some(s.net.gen));
    FiveSteps(s, Begin(op), begun, Produce(op, o), answered, Receive(op), held, Reserve(op), reserved, Finish(op), t);
    assert t.ops == s.ops;
  }

  lemma HeldByOperation(s: System, op: nat, o: Obj) returns (begun: System, answered: System, held: System)
    requires s.net.up && !s.net.closed && op !in s.ops && o !in s.objs
    ensures Enabled(s, Begin(op)) && begun == Apply(s, Begin(op))
    ensures Enabled(begun, Produce(op, o)) && answered == Apply(begun, Produce(op, o))
    ensures Enabled(answered, Receive(op)) && held == Apply(answered, Receive(op))
    ensures held.net == s.net && held.drains == s.drains && held.objs == s.objs[o := Life(op, None, false, false, false)]
    ensures held.ops == s.ops[op := Holding(Some(s.net.gen), o)]
  {
    begun := Begun(s, op);
    answered := Produced(begun, op, o);
    held := Received(answered, op);
  }

  lemma HandedOutOnceHeld(held: System, op: nat, o: Obj, gen: Option<nat>) returns (reserved: System, t: System)
    requires op in held.ops && held.ops[op] == Holding(gen, o) && o in held.objs && Current(held.net, gen)
    ensures Enabled(held, Reserve(op)) && reserved == Apply(held, Reserve(op))
    ensures Enabled(reserved, Finish(op)) && t == Apply(reserved, Finish(op))
    ensures t.net == held.net.(nextId := held.net.nextId + 1, closers := held.net.closers[held.net.nextId := o])
    ensures t.ops == held.ops - {op} && t.drains == held.drains
    ensures o in t.objs && t.objs[o].handed && t.objs[o].closing == held.objs[o].closing
  {
    reserved := AfterReserve(held, op);
    t := AfterFinish(reserved, op);
    assert t.ops == held.ops - {op};
  }

  lemma FiveSteps(s: System, a: Action, s1: System, b: Action, s2: System, c: Action, s3: System, d: Action, s4: System,
                  e: Action, t: System)
    requires Reachable(s) && Enabled(s, a) && s1 == Apply(s, a) && Enabled(s1, b) && s2 == Apply(s1, b)
    requires Enabled(s2, c) && s3 == Apply(s2, c) && Enabled(s3, d) && s4 == Apply(s3, d) && Enabled(s4, e) && t == Apply(s4, e)
    ensures Runs(s, [a, b, c, d, e], t) && Reachable(t)
  {
    hide Enabled, Apply, Reachable;
    ReachableStep(s, a, s1);
    ReachableStep(s1, b, s2);
    ReachableStep(s2, c, s3);
    ReachableStep(s3, d, s4);
    ReachableStep(s4, e, t);
    assert Runs(t, [], t);
    assert [e][1..] == [] && [d, e][1..] == [e] && [c, d, e][1..] == [d, e];
    assert Runs(s4, [e], t);
    assert Runs(s3, [d, e], t);
    assert Runs(s2, [c, d, e], t);
    assert [b, c, d, e][1..] == [c, d, e] && [a, b, c, d, e][1..] == [b, c, d, e];
    assert Runs(s1, [b, c, d, e], t);
  }

  /** Nothing is ever stuck. Whatever an operation or a Down or Close is at, it can take its next step:
      the wrapped call can return or fail, a caller can leave at any time, what arrived can be
      tracked, and what cannot be handed out can be closed. */
  lemma NothingIsStuck(s: System, op: nat, call: nat, o: Obj)
    requires Reachable(s) && o !in s.objs
    ensures op in s.ops ==>
              match s.ops[op]
              case Calling(_, _) => Enabled(s, Produce(op, o)) && Enabled(s, Fail(op)) && Enabled(s, Desert(op))
              case Answered(_, _, _) => Enabled(s, Receive(op)) && Enabled(s, Desert(op))
              case Deserted => Enabled(s, Produce(op, o)) && Enabled(s, Fail(op))
              case Late(_) => Enabled(s, Discard(op))
              case Holding(_, _) => Enabled(s, Reserve(op))
              case Reserved(_, _, _) => Enabled(s, Finish(op))
              case Refused(_) => Enabled(s, Discard(op))
    ensures call in s.drains ==>
              if s.drains[call].pending.Some? then Enabled(s, CloseDone(call))
              else if s.drains[call].todo != [] then Enabled(s, CloseNext(call))
              else Enabled(s, Return(call))
  {
    ReachableInv(s);
    hide Reachable, IdsOk, OpsOk, NothingLost, DrainsOk, ChansOk, Enabled;
    if op in s.ops { OperationGoesOn(s, op, o); }
    if call in s.drains { DrainGoesOn(s, call); }
  }

  lemma OperationGoesOn(s: System, op: nat, o: Obj)
    requires OpsOk(s) && o !in s.objs && op in s.ops
    ensures match s.ops[op]
            case Calling(_, _) => Enabled(s, Produce(op, o)) && Enabled(s, Fail(op)) && Enabled(s, Desert(op))
            case Answered(_, _, _) => Enabled(s, Receive(op)) && Enabled(s, Desert(op))
            case Deserted => Enabled(s, Produce(op, o)) && Enabled(s, Fail(op))
            case Late(_) => Enabled(s, Discard(op))
            case Holding(_, _) => Enabled(s, Reserve(op))
            case Reserved(_, _, _) => Enabled(s, Finish(op))
            case Refused(_) => Enabled(s, Discard(op))
  {
  }

  lemma DrainGoesOn(s: System, call: nat)
    requires DrainsOk(s) && call in s.drains
    ensures if s.drains[call].pending.Some? then Enabled(s, CloseDone(call))
            else if s.drains[call].todo != [] then Enabled(s, CloseNext(call))
            else Enabled(s, Return(call))
  {
    if s.drains[call].todo != [] {
      assert s.drains[call].todo[0] in s.drains[call].todo;
    }
  }

  /** What these steps do to an object that is not handed out: a caller who leaves makes it late, and
      discarding it closes it and ends the operation. */
  lemma LeftBehindIsClosed(s: System, op: nat)
    requires op in s.ops
    ensures s.ops[op].Answered? && Enabled(s, Desert(op)) ==> Apply(s, Desert(op)).ops == s.ops[op := Late(s.ops[op].obj)]
    ensures s.ops[op].Calling? && Enabled(s, Desert(op)) ==> Apply(s, Desert(op)).ops == s.ops[op := Deserted]
    ensures Enabled(s, Discard(op)) ==>
              var t := Apply(s, Discard(op));
              op !in t.ops && s.ops[op].obj in t.objs && t.objs[s.ops[op].obj].closing && !(s.ops[op].Calling? || s.ops[op].Deserted?)
  {
  }

  /** Whatever an operation of an earlier generation produced is not handed out, even after Up. */
  lemma StaleIsRefused(s: System, op: nat)
    requires op in s.ops
    ensures CanReserve(s, op) && s.ops[op].gen.Some? && s.ops[op].gen.value != s.net.gen ==>
              AfterReserve(s, op).ops[op] == Refused(s.ops[op].obj)
    ensures CanFinish(s, op) && s.ops[op].gen.Some? && s.ops[op].gen.value != s.net.gen ==>
              AfterFinish(s, op).ops[op] == Refused(s.ops[op].obj) && Handed(AfterFinish(s, op)) == Handed(s)
  {
  }

  lemma ReachableStep(s: System, a: Action, t: System)
    requires Reachable(s) && Enabled(s, a) && t == Apply(s, a)
    ensures Reachable(t)
  {
    hide Enabled, Apply;
    var run: seq<Action> :| Runs(START, run, s);
    Extend(START, run, s, a);
  }

  lemma {:induction false} Extend(s: System, run: seq<Action>, t: System, a: Action)
    requires Runs(s, run, t) && Enabled(t, a)
    ensures Runs(s, run + [a], Apply(t, a))
    decreases |run|
  {
    hide Enabled, Apply;
    if run == [] {
      assert Runs(Apply(t, a), [], Apply(t, a));
      assert (run + [a])[1..] == [];
    } else {
      assert (run + [a])[1..] == run[1..] + [a];
      Extend(Apply(s, run[0]), run[1..], t, a);
    }
  }
}
