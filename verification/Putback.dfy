/** A connection whose unread input can be extended at the front (putback/conn.go). */
module Putback {
  import opened Basics
  import opened Streams

  /** A read or write error, by name. */
  type Error = nat

  const EOF: Error := 0
  const SHORT_WRITE: Error := 1

  /** The underlying connection: some bytes, then an error that stays. Read cuts the bytes anywhere
      and may report the error together with the last of them. */
  class Source {
    var data: seq<byte>
    const end: Error

    constructor (data: seq<byte>, end: Error)
      ensures this.data == data && this.end == end
    {
      this.data, this.end := data, end;
    }

    method Read(p: array<byte>, lo: nat) returns (n: nat, err: Option<Error>)
      requires lo < p.Length
      modifies this, p
      ensures n <= |old(data)| && lo + n <= p.Length && (n == 0 <==> old(data) == [])
      ensures p[..] == old(p[..lo]) + old(data)[..n] + old(p[lo + n..])
      ensures data == old(data)[n..]
      ensures err.Some? ==> data == [] && err.value == end
      ensures n == 0 ==> err.Some?
    {
      if data == [] {
        assert p[..] == p[..lo] + [] + p[lo..];
        return 0, Some(end);
      }
      n :| 1 <= n <= |data| && lo + n <= p.Length;
      Fill(p, lo, data[..n]);
      assert p[..] == old(p[..lo]) + old(data)[..n] + old(p[lo + n..]);
      data := data[n..];
      var early: bool := *;
      err := if data == [] && early then Some(end) else None;
    }
  }

  /** A writer that takes what it likes and may fail or break the io.Writer contract. */
  class Sink {
    var got: seq<byte>

    constructor ()
      ensures got == []
    {
      got := [];
    }

    method Write(p: seq<byte>) returns (n: int, err: Option<Error>)
      modifies this
      ensures got == if 0 <= n <= |p| then old(got) + p[..n] else old(got)
    {
      n := *;
      err := *;
      if 0 <= n <= |p| { got := got + p[..n]; }
    }
  }

  class Conn {
    const source: Source
    var extra: seq<byte>
    var deferredErr: Option<Error>

    /** The bytes that reading will still produce. */
    ghost function Unread(): seq<byte>
      reads this, source
    {
      extra + source.data
    }

    /** An error is deferred only when the bytes before it are all in extra. */
    ghost predicate Valid()
      reads this, source
    {
      deferredErr.Some? ==> source.data == [] && deferredErr.value == source.end
    }

    constructor (source: Source)
      ensures Valid() && this.source == source && Unread() == source.data && extra == [] && deferredErr == None
    {
      this.source := source;
      extra, deferredErr := [], None;
    }

    /** What was put back is read first, in order. */
    method PutBack(p: seq<byte>)
      requires Valid()
      modifies this
      ensures Valid() && Unread() == p + old(Unread())
    {
      extra := p + extra;
    }

    /** A prefix of the unread bytes, or the error once there are none; never both, never neither. */
    method Read(p: array<byte>, lo: nat) returns (n: nat, err: Option<Error>)
      requires Valid() && lo <= p.Length
      modifies this, source, p
      ensures Valid()
      ensures n <= |old(Unread())| && lo + n <= p.Length
      ensures p[..] == old(p[..lo]) + old(Unread())[..n] + old(p[lo + n..])
      ensures Unread() == old(Unread())[n..]
      ensures lo < p.Length ==> (n == 0 <==> old(Unread()) == [])
      ensures err == if lo < p.Length && n == 0 then Some(source.end) else None
    {
      assert p[..] == p[..lo] + [] + p[lo..];
      if lo == p.Length { return 0, None; }
      if |extra| != 0 {
        n := Min(p.Length - lo, |extra|);
        assert extra[..n] == Unread()[..n];
        Fill(p, lo, extra[..n]);
        assert p[..] == old(p[..lo]) + old(Unread())[..n] + old(p[lo + n..]);
        extra := extra[n..];
        return n, None;
      }
      if deferredErr.Some? {
        err := deferredErr;
        deferredErr := None;
        return 0, err;
      }
      assert Unread() == source.data;
      n, err := source.Read(p, lo);
      if n > 0 && err.Some? {
        deferredErr := err;
        err := None;
      }
    }

    /** writeBufferedTo: bytes leave the buffer exactly as they reach the writer. */
    method WriteBufferedTo(w: Sink) returns (written: nat, done: bool, err: Option<Error>)
      requires Valid()
      modifies this, w
      ensures Valid() && source.data == old(source.data)
      ensures w.got + Unread() == old(w.got) + old(Unread())
      ensures |w.got| == |old(w.got)| + written
      ensures !done ==> extra == [] && deferredErr == None && err == None
    {
      written := 0;
      while |extra| != 0
        invariant Valid() && source.data == old(source.data) && deferredErr == old(deferredErr)
        invariant w.got + extra == old(w.got) + old(extra) && |w.got| == |old(w.got)| + written
        decreases |extra|
      {
        var n, failed := w.Write(extra);
        if n < 0 || n > |extra| {
          assert w.got + Unread() == old(w.got) + old(Unread()) by { Regroup(w.got, extra, old(w.got), old(extra), source.data); }
          return written, true, Some(SHORT_WRITE);
        }
        if n > 0 {
          ghost var rest := extra;
          extra := extra[n..];
          written := written + n;
          assert rest == rest[..n] + extra;
        }
        Regroup(w.got, extra, old(w.got), old(extra), source.data);
        if failed.Some? {
          return written, true, failed;
        }
        if n == 0 {
          return written, true, Some(SHORT_WRITE);
        }
      }
      Regroup(w.got, extra, old(w.got), old(extra), source.data);
      if deferredErr.Some? {
        err := if deferredErr.value == EOF then None else deferredErr;
        deferredErr := None;
        done := true;
      } else {
        done := false;
        err := None;
      }
    }
  }

  lemma Regroup(a: seq<byte>, b: seq<byte>, c: seq<byte>, d: seq<byte>, rest: seq<byte>)
    requires a + b == c + d
    ensures a + (b + rest) == c + (d + rest)
  {
    assert a + (b + rest) == (a + b) + rest;
    assert c + (d + rest) == (c + d) + rest;
  }
}
