/** The port allocator of the loopback network (loopback_helpers.go). */
module PortAllocator {
  import opened Basics

  datatype Result<T> = Ok(value: T) | AddrInUse(port: uint16) | Refused

  const FIRST := 49152
  const COUNT := 16384
  /** alloc gives up at this many ephemeral ports. */
  const LIMIT := 16382

  predicate Ephemeral(p: uint16) {
    p >= FIRST
  }

  function High(inUse: set<uint16>): set<uint16> {
    set p | p in inUse && Ephemeral(p)
  }

  /** The k-th port after start, going round the ephemeral range. */
  function Round(start: uint16, k: nat): uint16
    requires Ephemeral(start)
  {
    FIRST + (start - FIRST + k) % COUNT
  }

  ghost function Range(n: nat): set<uint16>
    requires n <= COUNT
  {
    set p: uint16 | Ephemeral(p) && p < FIRST + n
  }

  lemma {:induction false} RangeSize(n: nat)
    requires n <= COUNT
    ensures |Range(n)| == n
    decreases n
  {
    if n == 0 {
      assert Range(0) == {};
    } else {
      RangeSize(n - 1);
      assert Range(n) == Range(n - 1) + {FIRST + n - 1};
    }
  }

  /** Pigeonhole: with fewer than 16384 ephemeral ports in use, one is free. */
  lemma SomeFree(inUse: set<uint16>) returns (free: uint16)
    requires |High(inUse)| < COUNT
    ensures Ephemeral(free) && free !in inUse
  {
    if forall p: uint16 | Ephemeral(p) :: p in inUse {
      assert Range(COUNT) <= High(inUse);
      RangeSize(COUNT);
      SubsetSize(Range(COUNT), High(inUse));
      assert false;
    }
    free :| Ephemeral(free) && free !in inUse;
  }

  lemma SubsetSize(a: set<uint16>, b: set<uint16>)
    requires a <= b
    ensures |a| <= |b|
  {
    assert b == a + (b - a);
    assert |b| == |a| + |b - a|;
  }

  lemma RoundTurns(start: uint16, k: nat)
    requires Ephemeral(start)
    ensures Round(start, k + 1) == if Round(start, k) < 65535 then Round(start, k) + 1 else FIRST
  {
    var x := start - FIRST + k;
    assert x == COUNT * (x / COUNT) + x % COUNT;
    if x % COUNT == COUNT - 1 {
      assert x + 1 == COUNT * (x / COUNT + 1);
    } else {
      assert x + 1 == COUNT * (x / COUNT) + (x % COUNT + 1);
    }
  }

  /** Every ephemeral port comes up within one turn. */
  lemma RoundReaches(start: uint16, p: uint16) returns (k: nat)
    requires Ephemeral(start) && Ephemeral(p)
    ensures k < COUNT && Round(start, k) == p
  {
    k := if start <= p then p - start else p - start + COUNT;
    if start > p { assert start - FIRST + k == COUNT + (p - FIRST); }
  }

  class Allocator {
    var next: uint16
    var taken: uint16
    var inUse: set<uint16>

    /** taken (the allocated field) counts the ephemeral ports in use. */
    ghost predicate Valid()
      reads this
    {
      taken == |High(inUse)|
    }

    constructor ()
      ensures Valid() && inUse == {} && next == 0
    {
      next, taken, inUse := 0, 0, {};
      assert High({}) == {};
    }

    method IsVoid() returns (r: bool)
      requires Valid()
      ensures r <==> inUse == {}
    {
      if taken > 0 { return false; }
      if |inUse| > 0 { return false; }
      return true;
    }

    method Reserve(port: uint16) returns (ok: bool)
      requires Valid()
      modifies this`taken, this`inUse
      ensures Valid()
      ensures ok <==> port !in old(inUse)
      ensures inUse == old(inUse) + {port}
    {
      if port in inUse {
        return false;
      }
      CountStays(inUse, port);
      inUse := inUse + {port};
      if Ephemeral(port) {
        taken := (taken + 1) % 65536;
      }
      return true;
    }

    method Free(port: uint16)
      requires Valid()
      modifies this`taken, this`inUse
      ensures Valid() && inUse == old(inUse) - {port}
    {
      if port !in inUse {
        return;
      }
      CountStays(inUse - {port}, port);
      assert inUse == inUse - {port} + {port};
      inUse := inUse - {port};
      if Ephemeral(port) {
        taken := (taken + 65535) % 65536;
      }
    }

    /** The search of alloc(nil): the first free ephemeral port on the way round from next. */
    method FindFree()
      requires Valid() && taken < COUNT
      modifies this`next
      ensures Ephemeral(next) && next !in inUse && FirstFree(inUse, Start(old(next)), next)
    {
      if next < FIRST {
        next := FIRST;
      }
      ghost var start := next;
      ghost var free := SomeFree(inUse);
      ghost var stop := RoundReaches(start, free);
      ghost var k: nat := 0;
      RoundStart(start);
      hide Round;
      while next in inUse
        invariant Ephemeral(next) && next == Round(start, k) && k <= stop
        invariant forall j | 0 <= j < k :: Round(start, j) in inUse
        decreases stop - k
      {
        RoundTurns(start, k);
        if next < 65535 {
          next := next + 1;
        } else {
          next := FIRST;
        }
        k := k + 1;
      }
    }

    /** alloc: a given port, or a free ephemeral one. */
    method Alloc(port: Option<uint16>) returns (r: Result<uint16>)
      requires Valid()
      modifies this
      ensures Valid() && inUse == old(inUse) + if r.Ok? then {r.value} else {}
      ensures r.Ok? ==> r.value !in old(inUse)
      ensures port.Some? ==> r == (if port.value in old(inUse) then AddrInUse(port.value) else Ok(port.value))
      ensures port.None? ==> (r == Refused <==> old(taken) >= LIMIT) && (r == Refused || r.Ok?)
      ensures port.None? && r.Ok? ==> Ephemeral(r.value) && FirstFree(old(inUse), Start(old(next)), r.value)
      ensures next == if port.None? && r.Ok? then (r.value + 1) % 65536 else old(next)
    {
      hide High, FirstFree;
      if port.Some? {
        var ok := Reserve(port.value);
        return if ok then Ok(port.value) else AddrInUse(port.value);
      }
      if taken >= LIMIT {
        return Refused;
      }
      FindFree();
      var p := next;
      next := (next + 1) % 65536;
      CountStays(inUse, p);
      taken := (taken + 1) % 65536;
      inUse := inUse + {p};
      return Ok(p);
    }
  }

  /** The first port not in use, going round from start. */
  ghost predicate FirstFree(inUse: set<uint16>, start: uint16, p: uint16)
    requires Ephemeral(start)
  {
    p !in inUse && exists k :: 0 <= k < COUNT && Round(start, k) == p && forall j | 0 <= j < k :: Round(start, j) in inUse
  }

  lemma RoundStart(start: uint16)
    requires Ephemeral(start)
    ensures Round(start, 0) == start
  {
  }

  /** Where the search starts: an index below the range, as after wrapping past 65535, starts over. */
  function Start(next: uint16): (s: uint16)
    ensures Ephemeral(s)
  {
    if next < FIRST then FIRST else next
  }

  lemma CountStays(inUse: set<uint16>, port: uint16)
    requires port !in inUse
    ensures High(inUse + {port}) == if Ephemeral(port) then High(inUse) + {port} else High(inUse)
    ensures |High(inUse + {port})| == |High(inUse)| + if Ephemeral(port) then 1 else 0
    ensures |High(inUse)| <= COUNT
  {
    assert High(inUse) <= Range(COUNT);
    RangeSize(COUNT);
    SubsetSize(High(inUse), Range(COUNT));
  }

  /** The limit is lower than it need be: alloc refuses although two ephemeral ports are still free. */
  lemma RefusesTooEarly(inUse: set<uint16>) returns (a: uint16, b: uint16)
    requires |High(inUse)| == LIMIT
    ensures a != b && Ephemeral(a) && Ephemeral(b) && a !in inUse && b !in inUse
  {
    a := SomeFree(inUse);
    CountStays(inUse, a);
    b := SomeFree(inUse + {a});
  }
}
