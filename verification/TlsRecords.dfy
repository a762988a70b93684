/** What the TLS parser finds (parseTLSClientHello, sniffer/tls.go): exactly the ClientHello that
    handshake records carry, however it is cut into records. Messages and records are written here
    byte by byte, as section 4 of RFC 8446 and section 6.2 of RFC 5246 lay them out. */
module TlsRecords {
  import opened Basics
  import opened Streams
  import opened TlsHello

  /** A handshake message of type ClientHello: the type, the length in three bytes, the body. */
  function Message(body: seq<byte>): seq<byte>
    requires |body| < 16777216
  {
    [1, |body| / 65536, |body| / 256 % 256, |body| % 256] + body
  }

  /** One handshake record, of version 3.minor. */
  function Record(minor: byte, fragment: seq<byte>): seq<byte>
    requires |fragment| < 65536
  {
    [22, 3, minor, |fragment| / 256, |fragment| % 256] + fragment
  }

  predicate Sendable(minor: byte, fragment: seq<byte>) {
    minor <= 4 && 1 <= |fragment| <= 16384
  }

  /** The bytes of several records. */
  function Records(minors: seq<byte>, fragments: seq<seq<byte>>): seq<byte>
    requires |minors| == |fragments| && forall i | 0 <= i < |fragments| :: Sendable(minors[i], fragments[i])
  {
    if fragments == [] then []
    else
      assert Sendable(minors[0], fragments[0]);
      Record(minors[0], fragments[0]) + Records(minors[1..], fragments[1..])
  }

  /** A length in two bytes, the high one first. */
  function Size(hi: byte, lo: byte): nat {
    256 * hi + lo
  }

  /** The header of a handshake record. */
  predicate StartsRecord(data: seq<byte>) {
    |data| >= 5 && data[0] == 22 && data[1] == 3 && data[2] <= 4 && 1 <= Size(data[3], data[4]) <= 16384
  }

  /** What the first record holds, as far as the data goes. */
  function Contents(data: seq<byte>): seq<byte>
    requires StartsRecord(data)
  {
    data[5..Min(5 + Size(data[3], data[4]), |data|)]
  }

  /** The first record is complete. */
  predicate IsComplete(data: seq<byte>)
    requires StartsRecord(data)
  {
    5 + Size(data[3], data[4]) <= |data|
  }

  function Behind(data: seq<byte>): seq<byte>
    requires StartsRecord(data) && IsComplete(data)
  {
    data[5 + Size(data[3], data[4])..]
  }

  /** The data starts with records that carry these fragments; the last record may go on beyond the
      data. */
  predicate Carries(data: seq<byte>, fragments: seq<seq<byte>>)
    decreases |fragments|
  {
    fragments == [] ||
    (&& StartsRecord(data) && fragments[0] == Contents(data)
     && (|fragments| > 1 ==> IsComplete(data) && Carries(Behind(data), fragments[1..])))
  }

  /** A whole message in fragments is in the data. */
  ghost predicate Announces(data: seq<byte>, body: seq<byte>, fragments: seq<seq<byte>>) {
    1 <= |body| < 16777216 && Carries(data, fragments) && Message(body) <= Flatten(fragments)
  }

  // ---------------------------------------------------------------- headers and messages

  /** The header check against whole messages. */
  lemma CheckOfMessage(h: seq<byte>, body: seq<byte>)
    requires 1 <= |body| < 16777216
    ensures Message(body) <= h ==> CheckHeader(h) == Match && Body(h) == body
    ensures h < Message(body) ==> CheckHeader(h) == NeedMore
  {
    var m := Message(body);
    var n := |body|;
    assert n / 65536 * 65536 + n / 256 % 256 * 256 + n % 256 == n;
    if m <= h {
      assert h[0] == m[0] && h[1] == m[1] && h[2] == m[2] && h[3] == m[3];
      assert h[4..4 + n] == m[4..4 + n] == body;
    }
    if h < m {
      assert forall i | 0 <= i < |h| :: h[i] == m[i];
    }
  }

  lemma ThreeBytes(a: byte, b: byte, c: byte)
    ensures var n := Uint24(a, b, c); n / 65536 == a && n / 256 % 256 == b && n % 256 == c
  {
    var n := Uint24(a, b, c);
    assert n == 65536 * a + (256 * b + c);
    assert n == 256 * (256 * a + b) + c;
  }

  lemma MessageOfCheck(h: seq<byte>)
    requires CheckHeader(h) == Match
    ensures 1 <= |Body(h)| < 16777216 && Message(Body(h)) <= h
  {
    var n := Uint24(h[1], h[2], h[3]);
    ThreeBytes(h[1], h[2], h[3]);
    assert h[..4] == [1, h[1], h[2], h[3]];
    assert h[..4 + n] == h[..4] + Body(h);
  }

  // ---------------------------------------------------------------- found if and only if sent

  /** The record at an offset, read from the data behind it. */
  lemma RecordAt(data: seq<byte>, at: nat)
    requires at <= |data|
    ensures var rest := data[at..];
            && (StartsRecord(rest) <==> at + 5 <= |data| && HeaderOk(data, at))
            && (StartsRecord(rest) ==>
                  && Fragment(data, at) == Contents(rest)
                  && (IsComplete(rest) <==> RecordEnd(data, at) <= |data|)
                  && (IsComplete(rest) ==> Behind(rest) == data[RecordEnd(data, at)..]))
  {
    var rest := data[at..];
    if at + 5 <= |data| { assert forall i | 0 <= i < 5 :: rest[i] == data[at + i]; }
  }

  lemma {:induction false} FlattenFirst(chunks: seq<seq<byte>>)
    requires chunks != []
    ensures Flatten(chunks) == chunks[0] + Flatten(chunks[1..])
    decreases |chunks|
  {
    var n := |chunks| - 1;
    if n == 0 {
      assert chunks[..0] == [] && chunks[1..] == [];
    } else {
      FlattenFirst(chunks[..n]);
      assert chunks[..n][1..] == chunks[1..][..n - 1] && chunks[1..][n - 1] == chunks[n];
      assert (chunks[0] + Flatten(chunks[1..][..n - 1])) + chunks[n] == chunks[0] + (Flatten(chunks[1..][..n - 1]) + chunks[n]);
    }
  }

  /** What records announce, behind what was read before, is found. */
  lemma {:induction false} AnnouncedIsFound(data: seq<byte>, at: nat, h: seq<byte>, body: seq<byte>, fragments: seq<seq<byte>>)
    requires at <= |data| && fragments != [] && Carries(data[at..], fragments)
    requires 1 <= |body| < 16777216 && Message(body) <= h + Flatten(fragments)
    ensures ParseFrom(data, at, h) == Hello(body)
    decreases |fragments|
  {
    hide CheckHeader, Body, NeedBytes, Message, Carries, Fragment, RecordEnd, HeaderOk;
    hide StartsRecord, Contents, IsComplete, Behind, Flatten;
    RecordAt(data, at);
    CarriesFirst(data[at..], fragments);
    var end := RecordEnd(data, at);
    var grown, more := h + fragments[0], Flatten(fragments[1..]);
    FlattenFirst(fragments);
    assert h + (fragments[0] + more) == grown + more;
    CheckOfMessage(grown, body);
    PrefixesCompare(Message(body), grown, grown + more);
    if !(Message(body) <= grown) {
      assert |fragments| > 1 by { NoMore(fragments, grown); }
      AnnouncedIsFound(data, end, grown, body, fragments[1..]);
    }
  }

  lemma CarriesFirst(data: seq<byte>, fragments: seq<seq<byte>>)
    requires fragments != []
    ensures Carries(data, fragments) <==>
            && StartsRecord(data) && fragments[0] == Contents(data)
            && (|fragments| > 1 ==> IsComplete(data) && Carries(Behind(data), fragments[1..]))
  {
  }

  lemma NoMore(fragments: seq<seq<byte>>, grown: seq<byte>)
    requires fragments != []
    ensures |fragments| == 1 ==> grown + Flatten(fragments[1..]) == grown
  {
  }

  lemma PrefixesCompare(a: seq<byte>, b: seq<byte>, c: seq<byte>)
    requires a <= c && b <= c
    ensures a <= b || b < a
  {
    if |a| <= |b| {
      assert a == c[..|a|] == b[..|a|];
    } else {
      assert b == c[..|b|] == a[..|b|];
    }
  }

  /** What is found was announced. */
  lemma {:induction false} FoundIsAnnounced(data: seq<byte>, at: nat, h: seq<byte>) returns (fragments: seq<seq<byte>>)
    requires at <= |data| && ParseFrom(data, at, h).Hello?
    ensures fragments != [] && Carries(data[at..], fragments)
    ensures var body := ParseFrom(data, at, h).body; 1 <= |body| < 16777216 && Message(body) <= h + Flatten(fragments)
    decreases |data| - at
  {
    hide CheckHeader, Body, NeedBytes, Message, Carries, Fragment, RecordEnd, HeaderOk;
    hide StartsRecord, Contents, IsComplete, Behind, Flatten;
    RecordAt(data, at);
    var f := Fragment(data, at);
    var grown := h + f;
    if CheckHeader(grown) == Match {
      MessageOfCheck(grown);
      fragments := [f];
      CarriesFirst(data[at..], fragments);
      FlattenFirst(fragments);
      NoMore(fragments, f);
    } else {
      var rest := FoundIsAnnounced(data, RecordEnd(data, at), grown);
      fragments := [f] + rest;
      assert fragments[1..] == rest;
      CarriesFirst(data[at..], fragments);
      FlattenFirst(fragments);
      assert h + (f + Flatten(rest)) == grown + Flatten(rest);
    }
  }

  /** The parser finds a ClientHello if and only if handshake records carry it: from the first byte
      on, cut in any way, and whatever follows it. */
  lemma HelloIff(data: seq<byte>, body: seq<byte>)
    ensures Parse(data) == Hello(body) <==> exists fragments: seq<seq<byte>> :: Announces(data, body, fragments)
  {
    hide ParseFrom, Carries, Message, Flatten;
    assert data[0..] == data;
    if Parse(data) == Hello(body) {
      var fragments := FoundIsAnnounced(data, 0, []);
      assert [] + Flatten(fragments) == Flatten(fragments);
      assert Announces(data, body, fragments);
    }
    if exists fragments: seq<seq<byte>> :: Announces(data, body, fragments) {
      var fragments: seq<seq<byte>> :| Announces(data, body, fragments);
      NotEmpty(body, fragments);
      assert [] + Flatten(fragments) == Flatten(fragments);
      AnnouncedIsFound(data, 0, [], body, fragments);
    }
  }

  lemma NotEmpty(body: seq<byte>, fragments: seq<seq<byte>>)
    requires |body| < 16777216 && Message(body) <= Flatten(fragments)
    ensures fragments != []
  {
  }

  lemma RecordOpens(minor: byte, fragment: seq<byte>, tail: seq<byte>)
    requires Sendable(minor, fragment)
    ensures var data := Record(minor, fragment) + tail;
            StartsRecord(data) && Contents(data) == fragment && IsComplete(data) && Behind(data) == tail
  {
    var data := Record(minor, fragment) + tail;
    assert Size(data[3], data[4]) == |fragment|;
  }

  lemma {:induction false} RecordsCarry(minors: seq<byte>, fragments: seq<seq<byte>>, ext: seq<byte>)
    requires |minors| == |fragments| && forall i | 0 <= i < |fragments| :: Sendable(minors[i], fragments[i])
    ensures Carries(Records(minors, fragments) + ext, fragments)
    decreases |fragments|
  {
    if fragments != [] {
      assert Sendable(minors[0], fragments[0]);
      var first, rest := Record(minors[0], fragments[0]), Records(minors[1..], fragments[1..]);
      RecordOpens(minors[0], fragments[0], rest + ext);
      RecordsCarry(minors[1..], fragments[1..], ext);
      hide StartsRecord, Contents, IsComplete, Behind, Record, Sendable;
      assert Records(minors, fragments) + ext == first + (rest + ext);
      CarriesFirst(first + (rest + ext), fragments);
    }
  }

  /** Every ClientHello is found, whatever the versions of its records, however it is cut into
      fragments of 1 to 16384 bytes, and whatever bytes follow. */
  lemma SentIsFound(body: seq<byte>, minors: seq<byte>, fragments: seq<seq<byte>>, ext: seq<byte>)
    requires 1 <= |body| < 16777216 && Flatten(fragments) == Message(body)
    requires |minors| == |fragments| && forall i | 0 <= i < |fragments| :: Sendable(minors[i], fragments[i])
    ensures Parse(Records(minors, fragments) + ext) == Hello(body)
  {
    RecordsCarry(minors, fragments, ext);
    var data := Records(minors, fragments) + ext;
    assert Announces(data, body, fragments);
    HelloIff(data, body);
  }
}
