/** The TLS classifier (sniffer/tls.go): the ClientHello over any number of records, and a
    classifier that parses again only when enough bytes have arrived. */
module TlsHello {
  import opened Basics
  import opened Streams

  const RECORD_HEADER := 5
  const HANDSHAKE_HEADER := 4
  const MAX_PLAINTEXT := 16384
  const CONTENT_HANDSHAKE: byte := 22
  const CLIENT_HELLO: byte := 1

  function Uint16(hi: byte, lo: byte): nat {
    hi * 256 + lo
  }

  function Uint24(a: byte, b: byte, c: byte): nat {
    a * 65536 + b * 256 + c
  }

  /** What parsing finds: more bytes needed, no ClientHello, or the body of one. */
  datatype Answer = More(need: nat) | Bad | Hello(body: seq<byte>)

  predicate HeaderOk(data: seq<byte>, at: nat)
    requires at + RECORD_HEADER <= |data|
  {
    && data[at] == CONTENT_HANDSHAKE
    && data[at + 1] == 3 && data[at + 2] <= 4
    && 0 < Uint16(data[at + 3], data[at + 4]) <= MAX_PLAINTEXT
  }

  /** checkTLSClientHelloHeader. */
  function CheckHeader(h: seq<byte>): State {
    if h == [] then NeedMore
    else if h[0] != CLIENT_HELLO then Mismatch
    else if |h| < HANDSHAKE_HEADER then NeedMore
    else if Uint24(h[1], h[2], h[3]) == 0 then Mismatch
    else if |h| < HANDSHAKE_HEADER + Uint24(h[1], h[2], h[3]) then NeedMore
    else Match
  }

  /** The handshake length at which the header check can say more. */
  function Wanted(h: seq<byte>): nat {
    if h == [] then 1
    else if |h| < HANDSHAKE_HEADER then HANDSHAKE_HEADER
    else HANDSHAKE_HEADER + Uint24(h[1], h[2], h[3])
  }

  /** tlsClientHelloNeedBytes. */
  function NeedBytes(h: seq<byte>, before: nat, start: nat, end: nat): int {
    var inRecord := Wanted(h) - before;
    if inRecord > 0 && start + inRecord <= end then start + inRecord else end + RECORD_HEADER
  }

  function Body(h: seq<byte>): seq<byte>
    requires CheckHeader(h) == Match
  {
    h[HANDSHAKE_HEADER..HANDSHAKE_HEADER + Uint24(h[1], h[2], h[3])]
  }

  /** What a record, complete or cut off by the end of the data, adds to the handshake. */
  function Fragment(data: seq<byte>, at: nat): seq<byte>
    requires at + RECORD_HEADER <= |data|
  {
    data[at + RECORD_HEADER..Min(RecordEnd(data, at), |data|)]
  }

  function RecordEnd(data: seq<byte>, at: nat): (end: nat)
    requires at + RECORD_HEADER <= |data|
    ensures end >= at + RECORD_HEADER
  {
    at + RECORD_HEADER + Uint16(data[at + 3], data[at + 4])
  }

  /** parseTLSClientHello from the record at an offset, with the handshake bytes before it. */
  function ParseFrom(data: seq<byte>, at: nat, h: seq<byte>): Answer
    decreases |data| - at
  {
    if |data| < at + RECORD_HEADER then More(at + RECORD_HEADER)
    else if !HeaderOk(data, at) then Bad
    else
      var grown := h + Fragment(data, at);
      match CheckHeader(grown)
      case Mismatch => Bad
      case Match => Hello(Body(grown))
      case NeedMore =>
        if |data| < RecordEnd(data, at) then
          NeedMoreBytes(grown, |h|, at + RECORD_HEADER, RecordEnd(data, at));
          More(NeedBytes(grown, |h|, at + RECORD_HEADER, RecordEnd(data, at)))
        else ParseFrom(data, RecordEnd(data, at), grown)
  }

  function Parse(data: seq<byte>): Answer {
    ParseFrom(data, 0, [])
  }

  lemma NeedMoreBytes(h: seq<byte>, before: nat, start: nat, end: nat)
    ensures NeedBytes(h, before, start, end) >= 0
  {
  }

  /** The record loop. */
  method ParseClientHello(data: seq<byte>) returns (answer: Answer)
    ensures answer == Parse(data)
  {
    hide CheckHeader, Body, NeedBytes, Uint16;
    var handshake: seq<byte> := [];
    var at := 0;
    while |data| >= at + RECORD_HEADER
      invariant 0 <= at <= |data|
      invariant ParseFrom(data, at, handshake) == Parse(data)
      decreases |data| - at
    {
      if data[at] != CONTENT_HANDSHAKE { return Bad; }
      if data[at + 1] != 3 || data[at + 2] > 4 { return Bad; }
      var length := Uint16(data[at + 3], data[at + 4]);
      if length == 0 || length > MAX_PLAINTEXT { return Bad; }
      var start := at + RECORD_HEADER;
      var end := start + length;
      var available := if end > |data| then |data| else end;
      var before := |handshake|;
      handshake := handshake + data[start..available];
      var state := CheckHeader(handshake);
      if state == Mismatch { return Bad; }
      if state == Match { return Hello(Body(handshake)); }
      if available < end { return More(NeedBytes(handshake, before, start, end)); }
      at := end;
    }
    return More(at + RECORD_HEADER);
  }

  // ---------------------------------------------------------------- growing data

  lemma CheckPersists(h: seq<byte>, more: seq<byte>)
    requires CheckHeader(h) != NeedMore
    ensures CheckHeader(h + more) == CheckHeader(h)
    ensures CheckHeader(h) == Match ==> Body(h + more) == Body(h)
  {
  }

  lemma FragmentGrows(data: seq<byte>, ext: seq<byte>, at: nat) returns (more: seq<byte>)
    requires at + RECORD_HEADER <= |data|
    ensures RecordEnd(data + ext, at) == RecordEnd(data, at) && HeaderOk(data + ext, at) == HeaderOk(data, at)
    ensures Fragment(data + ext, at) == Fragment(data, at) + more
    ensures RecordEnd(data, at) <= |data| ==> more == []
    ensures |Fragment(data + ext, at)| == Min(RecordEnd(data, at), |data + ext|) - at - RECORD_HEADER
  {
    var end := RecordEnd(data, at);
    more := (data + ext)[Min(end, |data|)..Min(end, |data + ext|)];
    assert (data + ext)[at + RECORD_HEADER..Min(end, |data + ext|)]
        == (data + ext)[at + RECORD_HEADER..Min(end, |data|)] + more;
    assert (data + ext)[at + RECORD_HEADER..Min(end, |data|)] == data[at + RECORD_HEADER..Min(end, |data|)];
  }

  /** A verdict on a prefix is the verdict on every extension. */
  lemma {:induction false} VerdictPersists(data: seq<byte>, ext: seq<byte>, at: nat, h: seq<byte>)
    requires !ParseFrom(data, at, h).More?
    ensures ParseFrom(data + ext, at, h) == ParseFrom(data, at, h)
    decreases |data| - at
  {
    var more := FragmentGrows(data, ext, at);
    if HeaderOk(data, at) {
      var grown := h + Fragment(data, at);
      assert h + Fragment(data + ext, at) == grown + more;
      if CheckHeader(grown) != NeedMore {
        CheckPersists(grown, more);
      } else {
        assert grown + more == grown;
        VerdictPersists(data, ext, RecordEnd(data, at), grown);
      }
    }
  }

  /** Before enough bytes have arrived, nothing changes: the answer on every extension shorter than
      the need is the same need. */
  lemma {:induction false} NeedPersists(data: seq<byte>, ext: seq<byte>, at: nat, h: seq<byte>)
    requires ParseFrom(data, at, h).More? && CheckHeader(h) == NeedMore
    ensures ParseFrom(data, at, h).need > |data|
    ensures |data + ext| < ParseFrom(data, at, h).need ==> ParseFrom(data + ext, at, h) == ParseFrom(data, at, h)
    decreases |data| - at
  {
    hide CheckHeader, NeedBytes, Uint16, Body;
    if |data| >= at + RECORD_HEADER {
      var more := FragmentGrows(data, ext, at);
      var nothing := FragmentGrows(data, [], at);
      assert data + [] == data;
      var grown := h + Fragment(data, at);
      assert h + Fragment(data + ext, at) == grown + more;
      if RecordEnd(data, at) <= |data| {
        assert grown + more == grown;
        NeedPersists(data, ext, RecordEnd(data, at), grown);
      } else {
        CutRecord(data, ext, at, h, more);
      }
    }
  }

  /** The last record is cut off. */
  lemma CutRecord(data: seq<byte>, ext: seq<byte>, at: nat, h: seq<byte>, more: seq<byte>)
    requires at + RECORD_HEADER <= |data| < RecordEnd(data, at) && HeaderOk(data, at) && CheckHeader(h) == NeedMore
    requires ParseFrom(data, at, h).More?
    requires RecordEnd(data + ext, at) == RecordEnd(data, at) && HeaderOk(data + ext, at)
    requires Fragment(data + ext, at) == Fragment(data, at) + more
    ensures ParseFrom(data, at, h).need > |data|
    ensures |data + ext| < ParseFrom(data, at, h).need ==> ParseFrom(data + ext, at, h) == ParseFrom(data, at, h)
  {
    var start, end := at + RECORD_HEADER, RecordEnd(data, at);
    var grown := h + Fragment(data, at);
    assert CheckHeader(grown) == NeedMore;
    assert |grown| == |h| + |data| - start;
    StillShort(grown);
    RecordParsed(data, at, h);
    hide ParseFrom, CheckHeader, Body, Wanted, HeaderOk;
    var need := NeedBytes(grown, |h|, start, end);
    assert need > |data|;
    if |data + ext| < need {
      var longer := h + Fragment(data + ext, at);
      assert longer == grown + more;
      assert |longer| == |h| + Min(end, |data + ext|) - start;
      assert |longer| < Wanted(grown);
      ShortStaysShort(grown, more);
      RecordParsed(data + ext, at, h);
      if |data + ext| >= end { HeaderMissing(data + ext, end, longer); }
    }
  }

  /** A record that does not complete the message. */
  lemma RecordParsed(data: seq<byte>, at: nat, h: seq<byte>)
    requires at + RECORD_HEADER <= |data| && HeaderOk(data, at) && CheckHeader(h + Fragment(data, at)) == NeedMore
    ensures var grown, end := h + Fragment(data, at), RecordEnd(data, at);
            if |data| < end then NeedBytes(grown, |h|, at + RECORD_HEADER, end) >= 0 &&
                                 ParseFrom(data, at, h) == More(NeedBytes(grown, |h|, at + RECORD_HEADER, end))
            else ParseFrom(data, at, h) == ParseFrom(data, end, grown)
  {
    NeedMoreBytes(h + Fragment(data, at), |h|, at + RECORD_HEADER, RecordEnd(data, at));
  }

  lemma HeaderMissing(data: seq<byte>, at: nat, h: seq<byte>)
    requires |data| < at + RECORD_HEADER
    ensures ParseFrom(data, at, h) == More(at + RECORD_HEADER)
  {
  }

  lemma StillShort(h: seq<byte>)
    requires CheckHeader(h) == NeedMore
    ensures |h| < Wanted(h)
  {
  }

  lemma ShortStaysShort(h: seq<byte>, more: seq<byte>)
    requires CheckHeader(h) == NeedMore && |h + more| < Wanted(h)
    ensures CheckHeader(h + more) == NeedMore && Wanted(h + more) == Wanted(h)
  {
  }

  // ---------------------------------------------------------------- the classifier

  /** The state a classifier is in once these bytes have been fed to it. */
  function Verdict(accept: seq<byte> -> bool, max: nat, data: seq<byte>): State {
    var seen := Take(data, max);
    match Parse(seen)
    case More(need) => if need > max || |seen| == max then Mismatch else NeedMore
    case Bad => Mismatch
    case Hello(body) => if accept(body) then Match else Mismatch
  }

  lemma VerdictIsTerminal(accept: seq<byte> -> bool, max: nat, data: seq<byte>, ext: seq<byte>)
    requires Verdict(accept, max, data) != NeedMore
    ensures Verdict(accept, max, data + ext) == Verdict(accept, max, data)
  {
    var seen, later := Take(data, max), Take(data + ext, max);
    var more := later[|seen|..];
    assert later == seen + more;
    if Parse(seen).More? {
      NeedPersists(seen, more, 0, []);
      assert |seen| == max ==> later == seen;
    } else {
      VerdictPersists(seen, more, 0, []);
    }
  }

  // ---------------------------------------------------------------- the two machines

  /** The fields of a classifier. */
  datatype Machine = Machine(buf: seq<byte>, needBytes: nat, state: State)

  const FRESH := Machine([], RECORD_HEADER, NeedMore)

  /** Feed's buffering: at most max bytes are kept. */
  function Buffered(max: nat, buf: seq<byte>, p: seq<byte>): seq<byte> {
    buf + Take(p, if max > |buf| then max - |buf| else 0)
  }

  /** Feed, once it has decided to parse. */
  function Parsed(accept: seq<byte> -> bool, max: nat, buf: seq<byte>, needBytes: nat): Machine {
    match Parse(buf)
    case More(need) => Machine(buf, need, if need > max || |buf| == max then Mismatch else NeedMore)
    case Bad => Machine(buf, needBytes, Mismatch)
    case Hello(body) => Machine(buf, needBytes, if accept(body) then Match else Mismatch)
  }

  /** tlsClassifier.Feed: parse again only once needBytes have arrived. */
  function LazyStep(accept: seq<byte> -> bool, max: nat, m: Machine, p: seq<byte>): Machine {
    if m.state != NeedMore then m
    else if p != [] && |m.buf| >= max then m.(state := Mismatch)
    else
      var buf := Buffered(max, m.buf, p);
      if |buf| < m.needBytes then Machine(buf, m.needBytes, if |buf| == max then Mismatch else NeedMore)
      else Parsed(accept, max, buf, m.needBytes)
  }

  /** The same classifier, parsing again in every call. */
  function EagerStep(accept: seq<byte> -> bool, max: nat, m: Machine, p: seq<byte>): Machine {
    if m.state != NeedMore then m
    else if p != [] && |m.buf| >= max then m.(state := Mismatch)
    else Parsed(accept, max, Buffered(max, m.buf, p), m.needBytes)
  }

  /** A fresh classifier after these calls. */
  function LazyRun(accept: seq<byte> -> bool, max: nat, chunks: seq<seq<byte>>): Machine {
    if chunks == [] then FRESH
    else LazyStep(accept, max, LazyRun(accept, max, chunks[..|chunks| - 1]), chunks[|chunks| - 1])
  }

  function EagerRun(accept: seq<byte> -> bool, max: nat, chunks: seq<seq<byte>>): Machine {
    if chunks == [] then FRESH
    else EagerStep(accept, max, EagerRun(accept, max, chunks[..|chunks| - 1]), chunks[|chunks| - 1])
  }

  class TlsClassifier {
    const accept: seq<byte> -> bool
    const max: nat
    var buf: seq<byte>
    var needBytes: nat
    var state: State

    function Fields(): Machine
      reads this
    {
      Machine(buf, needBytes, state)
    }

    constructor (accept: seq<byte> -> bool, max: nat)
      ensures Fields() == FRESH && this.accept == accept && this.max == max
    {
      this.accept, this.max := accept, max;
      buf, needBytes, state := [], RECORD_HEADER, NeedMore;
    }

    method Feed(p: seq<byte>) returns (r: State)
      modifies this
      ensures Fields() == LazyStep(accept, max, old(Fields()), p) && r == state
    {
      hide Parse;
      if state != NeedMore { return state; }
      if |p| != 0 {
        var remaining := max - |buf|;
        if remaining <= 0 {
          state := Mismatch;
          return state;
        }
        if |p| > remaining {
          buf := buf + p[..remaining];
        } else {
          buf := buf + p;
        }
      }
      assert buf == Buffered(max, old(buf), p);
      if |buf| < needBytes {
        if |buf| == max { state := Mismatch; }
        return state;
      }
      var answer := ParseClientHello(buf);
      match answer {
        case More(need) =>
          needBytes := need;
          if needBytes > max || |buf| == max { state := Mismatch; }
        case Bad => state := Mismatch;
        case Hello(body) => state := if accept(body) then Match else Mismatch;
      }
      return state;
    }
  }

  // ---------------------------------------------------------------- what the machines compute

  /** A waiting machine holds everything fed, and knows how much more parsing needs. */
  predicate Waiting(max: nat, m: Machine, fed: seq<byte>) {
    m.state == NeedMore && m.buf == fed && |fed| < max && Parse(fed) == More(m.needBytes) && m.needBytes <= max
  }

  /** One call of either machine, for a limit of at least one record header. */
  lemma StepsAgree(accept: seq<byte> -> bool, max: nat, m: Machine, fed: seq<byte>, p: seq<byte>)
    requires max >= RECORD_HEADER && Waiting(max, m, fed)
    ensures LazyStep(accept, max, m, p) == EagerStep(accept, max, m, p)
    ensures LazyStep(accept, max, m, p).state == Verdict(accept, max, fed + p)
    ensures LazyStep(accept, max, m, p).state == NeedMore ==> Waiting(max, LazyStep(accept, max, m, p), fed + p)
  {
    hide ParseFrom;
    var buf := Buffered(max, fed, p);
    assert buf == Take(fed + p, max);
    assert |buf| < max ==> buf == fed + p;
    var more := buf[|fed|..];
    assert buf == fed + more;
    NeedPersists(fed, more, 0, []);
  }

  /** In step, call by call: the same fields, and the state that all bytes so far determine. */
  lemma {:induction false} RunsAgree(accept: seq<byte> -> bool, max: nat, chunks: seq<seq<byte>>)
    requires max >= RECORD_HEADER
    ensures LazyRun(accept, max, chunks) == EagerRun(accept, max, chunks)
    ensures chunks != [] ==> LazyRun(accept, max, chunks).state == Verdict(accept, max, Flatten(chunks))
    ensures LazyRun(accept, max, chunks).state == NeedMore ==> Waiting(max, LazyRun(accept, max, chunks), Flatten(chunks))
    decreases |chunks|
  {
    hide Verdict, LazyStep, EagerStep, Parsed;
    if chunks != [] {
      var before, p := chunks[..|chunks| - 1], chunks[|chunks| - 1];
      RunsAgree(accept, max, before);
      var m := LazyRun(accept, max, before);
      if m.state == NeedMore {
        StepsAgree(accept, max, m, Flatten(before), p);
      } else {
        Stopped(accept, max, m, p);
        VerdictIsTerminal(accept, max, Flatten(before), p);
      }
    } else {
      FreshWaits(max);
    }
  }

  lemma FreshWaits(max: nat)
    requires max >= RECORD_HEADER
    ensures Waiting(max, FRESH, [])
  {
  }

  lemma Stopped(accept: seq<byte> -> bool, max: nat, m: Machine, p: seq<byte>)
    requires m.state != NeedMore
    ensures LazyStep(accept, max, m, p) == EagerStep(accept, max, m, p) == m
  {
  }

  /** Laziness is invisible after every call, however the stream is cut, if and only if the limit is
      at least one record header. For limits of 1 to 4 the first, empty Feed tells them apart. */
  lemma LazinessIsInvisibleIff(accept: seq<byte> -> bool, max: nat)
    requires max > 0
    ensures (forall chunks: seq<seq<byte>> :: LazyRun(accept, max, chunks).state == EagerRun(accept, max, chunks).state)
       <==> max >= RECORD_HEADER
  {
    if max >= RECORD_HEADER {
      forall chunks: seq<seq<byte>> ensures LazyRun(accept, max, chunks).state == EagerRun(accept, max, chunks).state {
        RunsAgree(accept, max, chunks);
      }
    } else {
      var first: seq<seq<byte>> := [[]];
      assert first[..0] == [];
      assert Buffered(max, [], []) == [];
      assert LazyRun(accept, max, first) == LazyStep(accept, max, FRESH, []);
      assert EagerRun(accept, max, first) == EagerStep(accept, max, FRESH, []);
      assert LazyRun(accept, max, first).state != EagerRun(accept, max, first).state;
    }
  }

  /** The state as a function of the bytes fed, for every limit. A limit below one record header is
      never parsed at all. */
  function Lazy(accept: seq<byte> -> bool, max: nat, data: seq<byte>): State {
    if max >= RECORD_HEADER then Verdict(accept, max, data)
    else if |data| >= max then Mismatch else NeedMore
  }

  lemma LazyIsTerminal(accept: seq<byte> -> bool, max: nat, data: seq<byte>, ext: seq<byte>)
    requires Lazy(accept, max, data) != NeedMore
    ensures Lazy(accept, max, data + ext) == Lazy(accept, max, data)
  {
    hide Verdict;
    if max >= RECORD_HEADER { VerdictIsTerminal(accept, max, data, ext); }
  }

  /** Chunk independence, for every limit: the state depends on the bytes and not on the calls. */
  lemma LazyRunState(accept: seq<byte> -> bool, max: nat, chunks: seq<seq<byte>>)
    requires chunks != []
    ensures LazyRun(accept, max, chunks).state == Lazy(accept, max, Flatten(chunks))
  {
    if max >= RECORD_HEADER { RunsAgree(accept, max, chunks); } else { ShortLimit(accept, max, chunks); }
  }

  lemma {:induction false} ShortLimit(accept: seq<byte> -> bool, max: nat, chunks: seq<seq<byte>>)
    requires max < RECORD_HEADER
    ensures chunks != [] ==> LazyRun(accept, max, chunks).state == if |Flatten(chunks)| >= max then Mismatch else NeedMore
    ensures var m := LazyRun(accept, max, chunks);
            m.state == NeedMore ==> m.buf == Flatten(chunks) && m.needBytes == RECORD_HEADER && (|m.buf| < max || chunks == [])
    decreases |chunks|
  {
    if chunks != [] {
      ShortLimit(accept, max, chunks[..|chunks| - 1]);
    }
  }
}
