/** Shared by the two lifecycle models: objects tracked under ids, and the lists that drain them. */
module Closers {
  type Obj = nat
  type Id = nat
  /** A done channel, named by the generation that made it. */
  type Chan = nat

  function Put(m: map<Id, Obj>, id: Id, o: Obj): map<Id, Obj> {
    m[id := o]
  }

  /** A drain list: what the map held, each entry once, in some order. */
  ghost predicate Lists(order: seq<Obj>, closers: map<Id, Obj>) {
    |order| == |closers| && forall o: Obj :: o in order <==> exists id | id in closers :: closers[id] == o
  }

  /** The values of a map, each entry once, in the order in which the map gives them out. */
  method Enumerate(closers: map<Id, Obj>) returns (list: seq<Obj>)
    ensures Lists(list, closers)
  {
    list := [];
    var rest := closers;
    while rest != map[]
      invariant rest.Keys <= closers.Keys && forall id | id in rest :: rest[id] == closers[id]
      invariant |list| + |rest| == |closers|
      invariant forall o: Obj :: o in list <==> exists id | id in closers && id !in rest :: closers[id] == o
      decreases |rest|
    {
      var id :| id in rest;
      DropOne(closers, rest, id, list);
      list := list + [rest[id]];
      rest := rest - {id};
    }
  }

  lemma DropOne(before: map<Id, Obj>, now: map<Id, Obj>, id: Id, list: seq<Obj>)
    requires id in now && now.Keys <= before.Keys && now[id] == before[id]
    requires forall o: Obj :: o in list <==> exists x | x in before && x !in now :: before[x] == o
    ensures forall o: Obj :: o in list + [now[id]] <==> exists x | x in before && x !in now - {id} :: before[x] == o
    ensures |now - {id}| == |now| - 1
  {
    assert (now - {id}).Keys == now.Keys - {id};
    assert |(now - {id}).Keys| == |now.Keys| - 1;
    assert |now| == |now.Keys| && |now - {id}| == |(now - {id}).Keys|;
    forall o: Obj ensures o in list + [now[id]] <==> exists x | x in before && x !in now - {id} :: before[x] == o {
      if x :| x in before && x !in now - {id} && before[x] == o {
        assert x == id || x !in now;
      }
    }
  }
}
