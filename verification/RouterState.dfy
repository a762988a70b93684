/** The state of Router (router.go): slots, the up/down decision, and the objects opened through
    the router. One method per critical section; the state machine below runs them in any order. */
module RouterState {
  import opened Basics
  import opened Closers

  /** An attached backend, by name. */
  type Backend = nat

  const ROUTER_SLOTS: nat := 16

  /** The guarded fields. A done channel is named by the generation that made it. */
  datatype State = State(
    wantUp: bool, autoUp: bool, up: bool, closed: bool, gen: nat, done: Chan, nextId: Id,
    slots: seq<Option<Backend>>, slotUp: seq<bool>, slotGen: seq<nat>,
    closers: map<Id, Obj>, bySlot: seq<map<Id, Obj>>, udp: map<Id, Obj>)

  predicate Shaped(s: State) {
    |s.slots| == ROUTER_SLOTS && |s.slotUp| == ROUTER_SLOTS && |s.slotGen| == ROUTER_SLOTS && |s.bySlot| == ROUTER_SLOTS
  }

  /** The same value in every slot. */
  function Sixteen<T>(x: T): (r: seq<T>)
    ensures |r| == ROUTER_SLOTS && forall i | 0 <= i < ROUTER_SLOTS :: r[i] == x
  {
    [x, x, x, x, x, x, x, x, x, x, x, x, x, x, x, x]
  }

  function NoObjects(): (r: seq<map<Id, Obj>>)
    ensures |r| == ROUTER_SLOTS && forall i | 0 <= i < ROUTER_SLOTS :: r[i] == map[]
  {
    Sixteen(map[])
  }

  const NEW_ROUTER := State(
    true, false, false, false, 1, 1, 0, Sixteen(None), Sixteen(false), Sixteen(0), map[], NoObjects(), map[])

  predicate SomeSlotUp(slots: seq<Option<Backend>>, slotUp: seq<bool>)
    requires |slots| == |slotUp|
  {
    exists i | 0 <= i < |slots| :: slots[i].Some? && slotUp[i]
  }

  /** drainTrackedLocked. */
  function Emptied(s: State): State {
    s.(closers := map[], bySlot := NoObjects(), udp := map[])
  }

  /** applyEffectiveStateLocked. */
  function Effective(s: State): State {
    var up := s.wantUp && s.autoUp && !s.closed;
    if s.up == up then s
    else if up then s.(up := true, gen := s.gen + 1, done := s.gen + 1, closers := map[], udp := map[])
    else Emptied(s.(up := false, gen := s.gen + 1))
  }

  function Decided(s: State, autoUp: bool): State {
    Effective(s.(autoUp := autoUp))
  }

  /** applyAutoStateLocked. */
  function Automatic(s: State): State
    requires Shaped(s)
  {
    Decided(s, SomeSlotUp(s.slots, s.slotUp))
  }

  /** The channel a transition has to close: the router was up and is not any more. */
  function Stopped(before: State, after: State): Option<Chan> {
    if before.up && !after.up then Some(before.done) else None
  }

  /** replaceSlot up to the decision about the router as a whole. */
  function Swapped(s: State, i: nat, backend: Option<Backend>, up: bool): State
    requires Shaped(s) && i < ROUTER_SLOTS
  {
    s.(slotGen := s.slotGen[i := s.slotGen[i] + 1], slots := s.slots[i := backend], slotUp := s.slotUp[i := up],
       closers := s.closers - s.bySlot[i].Keys, bySlot := s.bySlot[i := map[]])
  }

  function Replaced(s: State, i: nat, backend: Option<Backend>, up: bool): State
    requires Shaped(s) && i < ROUTER_SLOTS
  {
    if s.closed then s else Automatic(Swapped(s, i, backend, up))
  }

  function SlotSet(s: State, i: nat, gen: nat, up: bool): State
    requires Shaped(s) && i < ROUTER_SLOTS
  {
    if s.closed || s.slotGen[i] != gen then s else Automatic(s.(slotUp := s.slotUp[i := up]))
  }

  function Wanted(s: State, up: bool): State {
    if s.closed then s else Effective(s.(wantUp := up))
  }

  function Shutdown(s: State): State {
    if s.closed then s
    else Emptied(s.(closed := true, wantUp := false, autoUp := false, up := false, gen := s.gen + 1))
  }

  /** Store an object under an id; slot 0 belongs to no backend. */
  function Stored(s: State, slot: nat, id: Id, o: Obj): State
    requires Shaped(s) && slot <= ROUTER_SLOTS
  {
    s.(closers := s.closers[id := o],
       bySlot := if slot == 0 then s.bySlot else s.bySlot[slot - 1 := Put(s.bySlot[slot - 1], id, o)])
  }

  predicate Open(s: State, gen: nat) {
    s.up && !s.closed && s.gen == gen
  }

  function Forgotten(s: State, id: Id, slot: nat): State
    requires Shaped(s) && slot <= ROUTER_SLOTS
  {
    s.(closers := s.closers - {id}, udp := s.udp - {id},
       bySlot := if slot == 0 then s.bySlot else s.bySlot[slot - 1 := s.bySlot[slot - 1] - {id}])
  }

  class Router {
    var wantUp: bool
    var autoUp: bool
    var up: bool
    var closed: bool
    var gen: nat
    var done: Chan
    var nextId: Id
    var slots: seq<Option<Backend>>
    var slotUp: seq<bool>
    var slotGen: seq<nat>
    var closers: map<Id, Obj>
    var bySlot: seq<map<Id, Obj>>
    var udp: map<Id, Obj>

    function Fields(): State
      reads this
    {
      State(wantUp, autoUp, up, closed, gen, done, nextId, slots, slotUp, slotGen, closers, bySlot, udp)
    }

    constructor ()
      ensures Fields() == NEW_ROUTER
    {
      wantUp, autoUp, up, closed, gen, done, nextId := true, false, false, false, 1, 1, 0;
      slots, slotUp, slotGen := NEW_ROUTER.slots, NEW_ROUTER.slotUp, NEW_ROUTER.slotGen;
      closers, bySlot, udp := map[], NoObjects(), map[];
    }

    method DrainTracked() returns (list: seq<Obj>)
      modifies this`closers, this`bySlot, this`udp
      ensures Fields() == Emptied(old(Fields()))
      ensures Lists(list, old(closers))
    {
      list := Enumerate(closers);
      closers, bySlot, udp := map[], NoObjects(), map[];
    }

    /** The transition that the caller completes without the lock. */
    method ApplyEffectiveState() returns (stopped: Option<Chan>, list: seq<Obj>)
      modifies this
      ensures Fields() == Effective(old(Fields()))
      ensures stopped == Stopped(old(Fields()), Fields())
      ensures if stopped.Some? then Lists(list, old(closers)) else list == []
    {
      hide Lists, Emptied;
      var nowUp := wantUp && autoUp && !closed;
      if up == nowUp { return None, []; }
      up := nowUp;
      gen := gen + 1;
      if nowUp {
        done := gen;
        closers, udp := map[], map[];
        return None, [];
      }
      stopped := Some(done);
      list := DrainTracked();
    }

    method ApplyAutoState() returns (stopped: Option<Chan>, list: seq<Obj>)
      requires Shaped(Fields())
      modifies this
      ensures Fields() == Automatic(old(Fields()))
      ensures stopped == Stopped(old(Fields()), Fields())
      ensures if stopped.Some? then Lists(list, old(closers)) else list == []
    {
      var anyUp := false;
      for i := 0 to |slots|
        invariant !anyUp && forall k | 0 <= k < i :: !(slots[k].Some? && slotUp[k])
      {
        if slots[i].Some? && slotUp[i] {
          anyUp := true;
          break;
        }
      }
      autoUp := anyUp;
      stopped, list := ApplyEffectiveState();
    }

    /** The first part of replaceSlot: the new backend, and what was opened through the old one. */
    method SwapBackend(i: nat, backend: Option<Backend>, backendUp: bool) returns (previous: seq<Obj>)
      requires Shaped(Fields()) && i < ROUTER_SLOTS
      modifies this
      ensures Fields() == Swapped(old(Fields()), i, backend, backendUp)
      ensures Lists(previous, old(bySlot[i]))
    {
      hide Lists;
      previous := Enumerate(bySlot[i]);
      slotGen := slotGen[i := slotGen[i] + 1];
      slots := slots[i := backend];
      slotUp := slotUp[i := backendUp];
      closers := closers - bySlot[i].Keys;
      bySlot := bySlot[i := map[]];
    }

    /** replaceSlot: what was opened through the slot, and the router's own transition. */
    method ReplaceSlot(i: nat, backend: Option<Backend>, backendUp: bool)
      returns (previous: seq<Obj>, stopped: Option<Chan>, list: seq<Obj>)
      requires Shaped(Fields()) && i < ROUTER_SLOTS
      modifies this
      ensures Fields() == Replaced(old(Fields()), i, backend, backendUp)
      ensures stopped == Stopped(old(Fields()), Fields())
      ensures old(closed) ==> previous == [] && list == []
      ensures !old(closed) ==> Lists(previous, old(bySlot[i]))
      ensures stopped.Some? ==> Lists(list, old(closers - bySlot[i].Keys))
    {
      hide Lists, Automatic;
      if closed { return [], None, []; }
      previous := SwapBackend(i, backend, backendUp);
      stopped, list := ApplyAutoState();
    }

    method SetSlotUp(i: nat, slotGeneration: nat, backendUp: bool) returns (stopped: Option<Chan>, list: seq<Obj>)
      requires Shaped(Fields()) && i < ROUTER_SLOTS
      modifies this
      ensures Fields() == SlotSet(old(Fields()), i, slotGeneration, backendUp)
      ensures stopped == Stopped(old(Fields()), Fields())
      ensures if stopped.Some? then Lists(list, old(closers)) else list == []
    {
      if closed || slotGen[i] != slotGeneration { return None, []; }
      slotUp := slotUp[i := backendUp];
      stopped, list := ApplyAutoState();
    }

    /** Up and Down. */
    method Want(wanted: bool) returns (stopped: Option<Chan>, list: seq<Obj>)
      modifies this
      ensures Fields() == Wanted(old(Fields()), wanted)
      ensures stopped == Stopped(old(Fields()), Fields())
      ensures if stopped.Some? then Lists(list, old(closers)) else list == []
    {
      if closed { return None, []; }
      wantUp := wanted;
      stopped, list := ApplyEffectiveState();
    }

    method ClosePrep() returns (stopped: Option<Chan>, list: seq<Obj>)
      modifies this
      ensures Fields() == Shutdown(old(Fields()))
      ensures stopped == if old(closed) then None else Stopped(old(Fields()), Fields())
      ensures if old(closed) then list == [] else Lists(list, old(closers))
    {
      hide Lists, Emptied;
      if closed { return None, []; }
      stopped := if up then Some(done) else None;
      closed, wantUp, autoUp, up := true, false, false, false;
      gen := gen + 1;
      list := DrainTracked();
    }

    /** subscribeCloser for a slot: an accepted connection. */
    method SubscribeInSlot(slot: nat, o: Obj) returns (id: Option<Id>)
      requires Shaped(Fields()) && 1 <= slot <= ROUTER_SLOTS
      modifies this
      ensures if old(up && !closed)
              then id == Some(old(nextId)) &&
                   Fields() == Stored(old(Fields()).(nextId := old(nextId) + 1), slot, old(nextId), o)
              else id == None && Fields() == old(Fields())
    {
      if closed || !up { return None; }
      id := Some(nextId);
      closers := closers[nextId := o];
      bySlot := bySlot[slot - 1 := Put(bySlot[slot - 1], nextId, o)];
      nextId := nextId + 1;
    }

    method ReserveTracked(g: nat) returns (id: Option<Id>)
      modifies this`nextId
      ensures id == if Open(old(Fields()), g) then Some(old(nextId)) else None
      ensures nextId == old(nextId) + if id.Some? then 1 else 0
    {
      if !up || closed || gen != g { return None; }
      id := Some(nextId);
      nextId := nextId + 1;
    }

    method FinishTracked(g: nat, slot: nat, id: Id, o: Obj) returns (ok: bool)
      requires Shaped(Fields()) && slot <= ROUTER_SLOTS
      modifies this`closers, this`bySlot
      ensures ok <==> Open(old(Fields()), g)
      ensures Fields() == if ok then Stored(old(Fields()), slot, id, o) else old(Fields())
    {
      if !up || closed || gen != g { return false; }
      closers := closers[id := o];
      if slot > 0 {
        bySlot := bySlot[slot - 1 := Put(bySlot[slot - 1], id, o)];
      }
      return true;
    }

    /** The second half of trackRouterUDPConn. */
    method FinishUdp(g: nat, id: Id, o: Obj) returns (ok: bool)
      requires Shaped(Fields())
      modifies this`closers, this`udp
      ensures ok <==> Open(old(Fields()), g)
      ensures Fields() == if ok then Stored(old(Fields()), 0, id, o).(udp := old(udp)[id := o]) else old(Fields())
    {
      if !up || closed || gen != g { return false; }
      closers := closers[id := o];
      udp := udp[id := o];
      return true;
    }

    method Unregister(id: Id, slot: nat)
      requires Shaped(Fields()) && slot <= ROUTER_SLOTS
      modifies this`closers, this`udp, this`bySlot
      ensures Fields() == Forgotten(old(Fields()), id, slot)
    {
      closers := closers - {id};
      udp := udp - {id};
      if slot > 0 {
        bySlot := bySlot[slot - 1 := bySlot[slot - 1] - {id}];
      }
    }
  }

  // ---------------------------------------------------------------- any order of critical sections

  /** The router, the ids reserved and not finished, the slot each finished id belongs to (0 for
      none), and the channels handed to a transition for closing. */
  datatype System = System(r: State, reserved: set<Id>, owner: map<Id, nat>, taken: set<Chan>)

  datatype Action =
    | Replace(slot: nat, backend: Option<Backend>, backendUp: bool)
    | SetSlotUp(slot: nat, slotGen: nat, backendUp: bool)
    | Want(wanted: bool)
    | Close
    | Subscribe(slot: nat, obj: Obj)
    | Reserve(gen: nat)
    | Finish(gen: nat, slot: nat, id: Id, obj: Obj)
    | FinishUdp(gen: nat, id: Id, obj: Obj)
    | Unregister(id: Id, slot: nat)

  /** Ids are used as the tracking functions use them: finished once, unregistered for their slot. */
  predicate Enabled(s: System, a: Action) {
    match a
    case Replace(slot, _, _) => slot < ROUTER_SLOTS
    case SetSlotUp(slot, _, _) => slot < ROUTER_SLOTS
    case Want(_) => true
    case Close => true
    case Subscribe(slot, _) => 1 <= slot <= ROUTER_SLOTS
    case Reserve(_) => true
    case Finish(_, slot, id, _) => slot <= ROUTER_SLOTS && id in s.reserved
    case FinishUdp(_, id, _) => id in s.reserved
    case Unregister(id, slot) => slot <= ROUTER_SLOTS && (id in s.owner ==> s.owner[id] == slot) && (id !in s.owner ==> id in s.reserved)
  }

  /** The router decides anew; a channel it stops using is handed to the transition. */
  function Moved(s: System, after: State): System {
    s.(r := after, taken := s.taken + match Stopped(s.r, after) { case Some(c) => {c} case None => {} })
  }

  function Apply(s: System, a: Action): System
    requires Shaped(s.r) && Enabled(s, a)
  {
    match a
    case Replace(slot, backend, up) => Moved(s, Replaced(s.r, slot, backend, up))
    case SetSlotUp(slot, gen, up) => Moved(s, SlotSet(s.r, slot, gen, up))
    case Want(wanted) => Moved(s, Wanted(s.r, wanted))
    case Close => Moved(s, Shutdown(s.r))
    case Subscribe(slot, o) =>
      if s.r.up && !s.r.closed then
        s.(r := Stored(s.r.(nextId := s.r.nextId + 1), slot, s.r.nextId, o), owner := s.owner[s.r.nextId := slot])
      else s
    case Reserve(gen) =>
      if Open(s.r, gen) then s.(r := s.r.(nextId := s.r.nextId + 1), reserved := s.reserved + {s.r.nextId}) else s
    case Finish(gen, slot, id, o) =>
      if Open(s.r, gen) then Owning(s, id, slot).(r := Stored(s.r, slot, id, o)) else Owning(s, id, slot)
    case FinishUdp(gen, id, o) =>
      if Open(s.r, gen) then Owning(s, id, 0).(r := Stored(s.r, 0, id, o).(udp := s.r.udp[id := o])) else Owning(s, id, 0)
    case Unregister(id, slot) => s.(r := Forgotten(s.r, id, slot))
  }

  function Owning(s: System, id: Id, slot: nat): System {
    s.(reserved := s.reserved - {id}, owner := s.owner[id := slot])
  }

  const START := System(NEW_ROUTER, {}, map[], {})

  // ---------------------------------------------------------------- the invariant

  /** The up/down decision. */
  predicate DecisionOk(r: State) {
    && Shaped(r)
    && (!r.closed ==> (r.autoUp <==> SomeSlotUp(r.slots, r.slotUp)))
    && (r.up <==> r.wantUp && r.autoUp && !r.closed)
  }

  /** The three maps agree, and an object opened through a slot is listed there. */
  predicate Agree(closers: map<Id, Obj>, bySlot: seq<map<Id, Obj>>, udp: map<Id, Obj>, owner: map<Id, nat>) {
    && (forall i, id | 0 <= i < |bySlot| && id in bySlot[i] ::
          id in closers && closers[id] == bySlot[i][id] && id in owner && owner[id] == i + 1)
    && (forall id | id in udp :: id in closers && closers[id] == udp[id] && id in owner && owner[id] == 0)
    && (forall id | id in closers ::
          id in owner && (owner[id] > 0 ==> owner[id] <= |bySlot| && id in bySlot[owner[id] - 1]))
  }

  predicate MapsOk(s: System) {
    Agree(s.r.closers, s.r.bySlot, s.r.udp, s.owner)
  }

  predicate EmptyWhenDown(r: State) {
    !r.up ==> r.closers == map[] && r.udp == map[] && forall i | 0 <= i < |r.bySlot| :: r.bySlot[i] == map[]
  }

  predicate IdsOk(s: System) {
    && (forall id | id in s.reserved :: id < s.r.nextId && id !in s.owner)
    && (forall id | id in s.owner :: id < s.r.nextId)
  }

  predicate ChansOk(s: System) {
    && s.r.done <= s.r.gen
    && (forall c | c in s.taken :: c <= s.r.gen)
    && (s.r.up ==> s.r.done !in s.taken)
  }

  predicate Inv(s: System) {
    DecisionOk(s.r) && MapsOk(s) && EmptyWhenDown(s.r) && IdsOk(s) && ChansOk(s)
  }

  lemma DecisionKept(s: System, a: Action)
    requires DecisionOk(s.r) && EmptyWhenDown(s.r) && Enabled(s, a)
    ensures DecisionOk(Apply(s, a).r) && EmptyWhenDown(Apply(s, a).r)
  {
  }

  /** Deciding anew either leaves the maps alone, empties all three, or resets maps that were
      empty, so going up loses nothing. */
  lemma EffectiveKeepsMaps(s: System)
    requires Shaped(s.r) && MapsOk(s) && EmptyWhenDown(s.r)
    ensures MapsOk(s.(r := Effective(s.r)))
    ensures Effective(s.r).up ==>
              Effective(s.r).closers == s.r.closers && Effective(s.r).udp == s.r.udp && Effective(s.r).bySlot == s.r.bySlot
  {
  }

  lemma SwappedKeepsMaps(s: System, i: nat, backend: Option<Backend>, up: bool)
    requires Shaped(s.r) && MapsOk(s) && EmptyWhenDown(s.r) && i < ROUTER_SLOTS
    ensures MapsOk(s.(r := Swapped(s.r, i, backend, up))) && EmptyWhenDown(Swapped(s.r, i, backend, up))
    ensures forall id | id in s.r.closers ::
              id in Swapped(s.r, i, backend, up).closers <==> id in s.owner && s.owner[id] != i + 1
  {
    SwappedAgree(s.r.closers, s.r.bySlot, s.r.udp, s.owner, i);
    hide Agree;
  }

  lemma SwappedAgree(closers: map<Id, Obj>, bySlot: seq<map<Id, Obj>>, udp: map<Id, Obj>, owner: map<Id, nat>, k: nat)
    requires Agree(closers, bySlot, udp, owner) && k < |bySlot|
    ensures Agree(closers - bySlot[k].Keys, bySlot[k := map[]], udp, owner)
    ensures forall x | x in closers :: x in closers - bySlot[k].Keys <==> x in owner && owner[x] != k + 1
  {
    forall x | x in closers ensures x in owner && (x in bySlot[k] <==> owner[x] == k + 1) {}
    var left := bySlot[k := map[]];
    forall i, x | 0 <= i < |left| && x in left[i] ensures i != k && x in bySlot[i] && x !in bySlot[k] {}
    forall x | x in closers - bySlot[k].Keys && owner[x] > 0 ensures x in left[owner[x] - 1] {
      assert x in bySlot[owner[x] - 1];
    }
  }

  lemma StoredAgree(closers: map<Id, Obj>, bySlot: seq<map<Id, Obj>>, udp: map<Id, Obj>, owner: map<Id, nat>,
                    slot: nat, id: Id, o: Obj)
    requires Agree(closers, bySlot, udp, owner) && slot <= |bySlot| && id !in owner
    ensures var filed := if slot == 0 then bySlot else bySlot[slot - 1 := Put(bySlot[slot - 1], id, o)];
            Agree(closers[id := o], filed, udp, owner[id := slot])
  {
    if slot > 0 {
      FiledAgree(closers, bySlot, udp, owner, slot - 1, id, o);
    }
  }

  lemma FiledAgree(closers: map<Id, Obj>, bySlot: seq<map<Id, Obj>>, udp: map<Id, Obj>, owner: map<Id, nat>,
                   k: nat, id: Id, o: Obj)
    requires Agree(closers, bySlot, udp, owner) && k < |bySlot| && id !in owner
    ensures Agree(closers[id := o], bySlot[k := Put(bySlot[k], id, o)], udp, owner[id := k + 1])
  {
    var filed := bySlot[k := Put(bySlot[k], id, o)];
    assert id !in closers;
    assert id in filed[k];
    forall i, x | 0 <= i < |filed| && x in filed[i] && x != id ensures x in bySlot[i] && filed[i][x] == bySlot[i][x] {}
    forall i | 0 <= i < |filed| && id in filed[i] ensures i == k {}
    forall x | x in closers && owner[x] > 0 ensures x in filed[owner[x] - 1] {
      assert x in bySlot[owner[x] - 1];
    }
  }

  lemma ForgottenAgree(closers: map<Id, Obj>, bySlot: seq<map<Id, Obj>>, udp: map<Id, Obj>, owner: map<Id, nat>,
                       id: Id, slot: nat)
    requires Agree(closers, bySlot, udp, owner) && slot <= |bySlot| && (id in owner ==> owner[id] == slot)
    ensures var filed := if slot == 0 then bySlot else bySlot[slot - 1 := bySlot[slot - 1] - {id}];
            Agree(closers - {id}, filed, udp - {id}, owner)
  {
    var filed := if slot == 0 then bySlot else bySlot[slot - 1 := bySlot[slot - 1] - {id}];
    forall i, x | 0 <= i < |filed| && x in filed[i]
      ensures x != id && x in closers && closers[x] == filed[i][x] && x in owner && owner[x] == i + 1
    {
      assert x in bySlot[i];
    }
    forall x | x in closers && x != id && owner[x] > 0 ensures x in filed[owner[x] - 1] {
      assert x in bySlot[owner[x] - 1];
    }
  }

  lemma OwningAgrees(closers: map<Id, Obj>, bySlot: seq<map<Id, Obj>>, udp: map<Id, Obj>, owner: map<Id, nat>,
                     id: Id, slot: nat)
    requires Agree(closers, bySlot, udp, owner) && id !in owner
    ensures Agree(closers, bySlot, udp, owner[id := slot])
  {
  }

  lemma UdpAgrees(closers: map<Id, Obj>, bySlot: seq<map<Id, Obj>>, udp: map<Id, Obj>, owner: map<Id, nat>, id: Id)
    requires Agree(closers, bySlot, udp, owner) && id in closers && owner[id] == 0
    ensures Agree(closers, bySlot, udp[id := closers[id]], owner)
  {
  }

  lemma NoMaps(s: System)
    requires s.r.closers == map[] && s.r.bySlot == NoObjects() && s.r.udp == map[]
    ensures MapsOk(s)
  {
  }

  lemma DecidedKeepsMaps(s: System, r: State, autoUp: bool)
    requires Shaped(r) && MapsOk(s.(r := r)) && EmptyWhenDown(r)
    ensures MapsOk(Moved(s, Decided(r, autoUp)))
  {
    hide Agree, EmptyWhenDown, NoObjects;
    var d := s.(r := r.(autoUp := autoUp));
    assert EmptyWhenDown(d.r) by { EmptyAgrees(r, d.r); }
    EffectiveKeepsMaps(d);
  }

  lemma EmptyAgrees(a: State, b: State)
    requires EmptyWhenDown(a) && (!b.up ==> !a.up) && b.closers == a.closers && b.bySlot == a.bySlot && b.udp == a.udp
    ensures EmptyWhenDown(b)
  {
  }

  lemma MovesKeepMaps(s: System, a: Action)
    requires Inv(s) && Enabled(s, a) && (a.Replace? || a.SetSlotUp? || a.Want? || a.Close?)
    ensures Shaped(Apply(s, a).r) && MapsOk(Apply(s, a))
  {
    hide Agree, EmptyWhenDown, NoObjects;
    match a
    case Replace(slot, backend, up) =>
      SwappedKeepsMaps(s, slot, backend, up);
      var r := Swapped(s.r, slot, backend, up);
      DecidedKeepsMaps(s, r, SomeSlotUp(r.slots, r.slotUp));
    case SetSlotUp(slot, gen, up) =>
      var r := s.r.(slotUp := s.r.slotUp[slot := up]);
      EmptyAgrees(s.r, r);
      DecidedKeepsMaps(s, r, SomeSlotUp(r.slots, r.slotUp));
    case Want(wanted) =>
      var r := s.r.(wantUp := wanted);
      EmptyAgrees(s.r, r);
      DecidedKeepsMaps(s, r, r.autoUp);
    case Close =>
      if !s.r.closed { NoMaps(Apply(s, a)); }
  }

  lemma MapsKept(s: System, a: Action)
    requires Inv(s) && Enabled(s, a)
    ensures Shaped(Apply(s, a).r) && MapsOk(Apply(s, a))
  {
    hide Agree;
    var r := s.r;
    match a
    case Replace(_, _, _) => MovesKeepMaps(s, a);
    case SetSlotUp(_, _, _) => MovesKeepMaps(s, a);
    case Want(_) => MovesKeepMaps(s, a);
    case Close => MovesKeepMaps(s, a);
    case Subscribe(slot, o) => StoredAgree(r.closers, r.bySlot, r.udp, s.owner, slot, r.nextId, o);
    case Reserve(gen) =>
    case Finish(gen, slot, id, o) =>
      OwningAgrees(r.closers, r.bySlot, r.udp, s.owner, id, slot);
      StoredAgree(r.closers, r.bySlot, r.udp, s.owner, slot, id, o);
    case FinishUdp(gen, id, o) =>
      OwningAgrees(r.closers, r.bySlot, r.udp, s.owner, id, 0);
      StoredAgree(r.closers, r.bySlot, r.udp, s.owner, 0, id, o);
      UdpAgrees(r.closers[id := o], r.bySlot, r.udp, s.owner[id := 0], id);
    case Unregister(id, slot) => ForgottenAgree(r.closers, r.bySlot, r.udp, s.owner, id, slot);
  }

  lemma IdsKept(s: System, a: Action)
    requires Inv(s) && Enabled(s, a)
    ensures IdsOk(Apply(s, a))
  {
  }

  lemma ChansKept(s: System, a: Action)
    requires Inv(s) && Enabled(s, a)
    ensures ChansOk(Apply(s, a))
  {
  }

  /** Every critical section keeps the invariant. */
  lemma StepKeeps(s: System, a: Action)
    requires Inv(s) && Enabled(s, a)
    ensures Inv(Apply(s, a))
  {
    hide MapsOk, EmptyWhenDown, IdsOk, ChansOk, Apply, Enabled;
    DecisionKept(s, a);
    MapsKept(s, a);
    IdsKept(s, a);
    ChansKept(s, a);
  }

  ghost predicate Runs(s: System, run: seq<Action>, t: System)
    decreases |run|
  {
    if run == [] then t == s else Shaped(s.r) && Enabled(s, run[0]) && Runs(Apply(s, run[0]), run[1..], t)
  }

  lemma {:induction false} RunsKeep(s: System, run: seq<Action>, t: System)
    requires Inv(s) && Runs(s, run, t)
    ensures Inv(t)
    decreases |run|
  {
    hide Inv, Enabled, Apply;
    if run != [] {
      StepKeeps(s, run[0]);
      RunsKeep(Apply(s, run[0]), run[1..], t);
    }
  }

  ghost predicate Reachable(s: System) {
    exists run: seq<Action> :: Runs(START, run, s)
  }

  lemma ReachableInv(s: System)
    requires Reachable(s)
    ensures Inv(s)
  {
    hide Runs, Inv;
    var run: seq<Action> :| Runs(START, run, s);
    StartOk();
    RunsKeep(START, run, s);
  }

  lemma StartOk()
    ensures Inv(START)
  {
  }

  /** The documented rule: operational exactly when not closed, not forced down, and some attached
      backend is operational. */
  lemma UpIsDecided(s: System)
    requires Reachable(s)
    ensures Shaped(s.r)
    ensures s.r.up <==> !s.r.closed && s.r.wantUp && SomeSlotUp(s.r.slots, s.r.slotUp)
    ensures !s.r.closed ==> (s.r.autoUp <==> SomeSlotUp(s.r.slots, s.r.slotUp))
  {
    hide Reachable;
    ReachableInv(s);
  }

  /** What bySlot and udp list is tracked, as the same object; a router that is down tracks nothing. */
  lemma TrackedConsistently(s: System)
    requires Reachable(s)
    ensures forall i, id | 0 <= i < |s.r.bySlot| && id in s.r.bySlot[i] :: id in s.r.closers && s.r.closers[id] == s.r.bySlot[i][id]
    ensures forall id | id in s.r.udp :: id in s.r.closers && s.r.closers[id] == s.r.udp[id]
    ensures !s.r.up ==> s.r.closers == map[] && s.r.udp == map[] && forall i | 0 <= i < |s.r.bySlot| :: s.r.bySlot[i] == map[]
  {
    hide Reachable;
    ReachableInv(s);
  }

  /** Replacing or detaching a backend takes exactly the objects opened through its slot, and no
      object of another slot or of no slot, unless the router itself goes down. */
  lemma ReplaceTakesTheSlot(s: System, slot: nat, backend: Option<Backend>, up: bool, id: Id)
    requires Reachable(s) && slot < ROUTER_SLOTS && !s.r.closed && id in s.r.closers
    ensures Shaped(s.r) && id in s.owner
    ensures id in s.r.bySlot[slot] <==> s.owner[id] == slot + 1
    ensures Replaced(s.r, slot, backend, up).up ==>
              (id in Replaced(s.r, slot, backend, up).closers <==> s.owner[id] != slot + 1)
    ensures !Replaced(s.r, slot, backend, up).up ==> Stopped(s.r, Replaced(s.r, slot, backend, up)) == Some(s.r.done)
  {
    hide Reachable;
    ReachableInv(s);
    SwappedKeepsMaps(s, slot, backend, up);
  }

  /** A channel is handed to a transition for closing at most once. */
  lemma DoneTakenOnce(s: System, a: Action)
    requires Reachable(s) && Shaped(s.r) && Enabled(s, a)
    ensures var c := Stopped(s.r, Apply(s, a).r); c.Some? ==> c.value !in s.taken
  {
    hide Reachable, Apply;
    ReachableInv(s);
  }

  /** While the router is up, an operation of the current generation is tracked: under a new id, in
      its slot if it has one, and nothing else changes. */
  lemma OperationIsTracked(s: System, slot: nat, o: Obj) returns (t: System)
    requires Reachable(s) && s.r.up && slot <= ROUTER_SLOTS
    ensures Runs(s, [Reserve(s.r.gen), Finish(s.r.gen, slot, s.r.nextId, o)], t)
    ensures Shaped(s.r) && t.r == Stored(s.r.(nextId := s.r.nextId + 1), slot, s.r.nextId, o)
    ensures t.r.closers == s.r.closers[s.r.nextId := o]
    ensures slot > 0 ==> s.r.nextId in t.r.bySlot[slot - 1] && t.r.bySlot[slot - 1][s.r.nextId] == o
  {
    hide Reachable;
    ReachableInv(s);
    var reserved := Apply(s, Reserve(s.r.gen));
    t := Apply(reserved, Finish(s.r.gen, slot, s.r.nextId, o));
    TwoSteps(s, Reserve(s.r.gen), reserved, Finish(s.r.gen, slot, s.r.nextId, o), t);
  }

  /** A connection accepted in any of the sixteen slots while the router is up is tracked there at once. */
  lemma AcceptedIsTracked(s: System, slot: nat, o: Obj) returns (t: System)
    requires Reachable(s) && s.r.up && 1 <= slot <= 16
    ensures Shaped(s.r) && Enabled(s, Subscribe(slot, o)) && t == Apply(s, Subscribe(slot, o))
    ensures t.r.closers == s.r.closers[s.r.nextId := o] && t.r.nextId == s.r.nextId + 1
    ensures s.r.nextId in t.r.bySlot[slot - 1] && t.r.bySlot[slot - 1][s.r.nextId] == o && t.owner[s.r.nextId] == slot
  {
    hide Reachable;
    ReachableInv(s);
    t := Apply(s, Subscribe(slot, o));
  }

  /** The same for a UDP connection. */
  lemma UdpIsTracked(s: System, o: Obj) returns (t: System)
    requires Reachable(s) && s.r.up
    ensures Runs(s, [Reserve(s.r.gen), FinishUdp(s.r.gen, s.r.nextId, o)], t)
    ensures t.r.closers == s.r.closers[s.r.nextId := o] && t.r.udp == s.r.udp[s.r.nextId := o]
  {
    hide Reachable;
    ReachableInv(s);
    var reserved := Apply(s, Reserve(s.r.gen));
    t := Apply(reserved, FinishUdp(s.r.gen, s.r.nextId, o));
    TwoSteps(s, Reserve(s.r.gen), reserved, FinishUdp(s.r.gen, s.r.nextId, o), t);
  }

  lemma TwoSteps(s: System, a: Action, s1: System, b: Action, t: System)
    requires Shaped(s.r) && Enabled(s, a) && s1 == Apply(s, a) && Shaped(s1.r) && Enabled(s1, b) && t == Apply(s1, b)
    ensures Runs(s, [a, b], t)
  {
    hide Enabled, Apply, Shaped;
    assert [b][1..] == [] && [a, b][1..] == [b];
    assert Runs(t, [], t);
    assert Runs(s1, [b], t);
  }

  /** An operation of an earlier generation is not tracked, even if the router is up again. */
  lemma StaleIsNotTracked(s: System, gen: nat, slot: nat, id: Id, o: Obj)
    requires Reachable(s) && gen != s.r.gen && slot <= ROUTER_SLOTS
    ensures Shaped(s.r) && Apply(s, Reserve(gen)) == s
    ensures id in s.reserved ==> Apply(s, Finish(gen, slot, id, o)).r == s.r && Apply(s, FinishUdp(gen, id, o)).r == s.r
  {
    hide Reachable;
    ReachableInv(s);
  }

  /** Going up or down starts a new generation, so operations that overlap a change are stale. */
  lemma ChangeIsNewGeneration(s: System, a: Action)
    requires Reachable(s) && Shaped(s.r) && Enabled(s, a)
    ensures Apply(s, a).r.gen >= s.r.gen
    ensures Apply(s, a).r.up != s.r.up ==> Apply(s, a).r.gen > s.r.gen
    ensures !s.r.up && Apply(s, a).r.up ==> Apply(s, a).r.done !in Apply(s, a).taken
  {
    hide Reachable;
    ReachableInv(s);
  }
}
