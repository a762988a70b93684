/** Where numbers stand on the wire: the built packets (dns/ip_packet_adapter.go) read by a receiver
    that knows only sections 3.1 of RFC 791 and RFC 768, and the record data of dns/wire.go byte by
    byte. Nothing here reads or adds numbers as the builders do. */
module WireLayout {
  import opened Basics
  import opened Checksum
  import W = WireName

  /** A number in two bytes, the high one first. */
  predicate Shows(p: seq<byte>, at: nat, v: int)
    requires at + 2 <= |p|
  {
    v == 256 * (p[at] as int) + p[at + 1]
  }

  lemma U16Shows(before: seq<byte>, v: uint16, after: seq<byte>)
    ensures Shows(before + U16(v) + after, |before|, v)
  {
    var p := before + U16(v) + after;
    assert p[|before|] == U16(v)[0] && p[|before| + 1] == U16(v)[1];
  }

  // ---------------------------------------------------------------- checksums

  /** The sum of 16-bit words, as each byte contributes to it: the first byte of a word 256 times. */
  function Tally(p: seq<byte>): nat {
    if p == [] then 0 else Tally(p[..|p| - 1]) + (if |p| % 2 == 1 then 256 else 1) * (p[|p| - 1] as int)
  }

  lemma {:induction false} TallyConcat(a: seq<byte>, b: seq<byte>)
    requires |a| % 2 == 0
    ensures Tally(a + b) == Tally(a) + Tally(b)
    decreases |b|
  {
    if b == [] {
      assert a + b == a;
    } else {
      TallyConcat(a, b[..|b| - 1]);
      assert (a + b)[..|a + b| - 1] == a + b[..|b| - 1];
    }
  }

  lemma {:induction false} SumIsTally(p: seq<byte>)
    ensures Sum(p) == Tally(p)
    decreases |p|
  {
    if |p| == 1 {
      assert p[..0] == [];
    } else if |p| >= 2 {
      SumIsTally(p[2..]);
      TallyConcat(p[..2], p[2..]);
      assert p == p[..2] + p[2..];
      assert p[..2][..1][..0] == [] && p[..2][..1] == [p[0]];
      assert Tally([p[0]]) == 256 * (p[0] as int);
    }
  }

  /** A complement of zero: the words add up to a multiple of 65535 and are not all zero. */
  lemma ZeroComplement(sum: nat)
    requires Complement(sum) == 0
    ensures sum % 65535 == 0 && sum > 0
  {
    FoldMeaning(sum);
  }

  // ---------------------------------------------------------------- packets

  /** A receiver of an IPv4 packet reads: version and header length, total length, protocol,
      addresses, a header that adds up; then ports, UDP length and payload, and a UDP checksum that is
      present and adds up with the addresses, the protocol and the length. */
  ghost predicate Received4(p: seq<byte>, src: seq<byte>, dst: seq<byte>, srcPort: int, dstPort: int, payload: seq<byte>) {
    && |p| == 28 + |payload|
    && p[0] == 69 && Shows(p, 2, |p|) && p[9] == 17 && p[8] > 0 && p[12..16] == src && p[16..20] == dst
    && Tally(p[..20]) % 65535 == 0
    && Shows(p, 20, srcPort) && Shows(p, 22, dstPort) && Shows(p, 24, 8 + |payload|) && p[28..] == payload
    && !Shows(p, 26, 0)
    && Tally(src + dst + [0, 17] + p[24..26] + p[20..]) % 65535 == 0
  }

  ghost predicate Received6(p: seq<byte>, src: seq<byte>, dst: seq<byte>, srcPort: int, dstPort: int, payload: seq<byte>) {
    && |p| == 48 + |payload|
    && p[0] == 96 && Shows(p, 4, 8 + |payload|) && p[6] == 17 && p[7] > 0 && p[8..24] == src && p[24..40] == dst
    && Shows(p, 40, srcPort) && Shows(p, 42, dstPort) && Shows(p, 44, 8 + |payload|) && p[48..] == payload
    && !Shows(p, 46, 0)
    && Tally(src + dst + [0, 0] + p[44..46] + [0, 0, 0, 17] + p[40..]) % 65535 == 0
  }

  lemma UdpShows(r: Request, payload: seq<byte>, c: uint16)
    requires 8 + |payload| <= 65535
    ensures var u := Udp(r, payload, c);
            && Shows(u, 0, r.dstPort) && Shows(u, 2, r.srcPort) && Shows(u, 4, 8 + |payload|)
            && u[4..6] == U16(8 + |payload|) && (FieldIsZero(u) <==> Shows(u, 6, 0))
  {
    var u := Udp(r, payload, c);
    var a, b, l := U16(r.dstPort), U16(r.srcPort), U16(8 + |payload|);
    assert u == [] + a + (b + l + U16(c) + payload);
    U16Shows([], r.dstPort, b + l + U16(c) + payload);
    assert u == a + b + (l + U16(c) + payload);
    U16Shows(a, r.srcPort, l + U16(c) + payload);
    assert u == a + b + l + (U16(c) + payload);
    U16Shows(a + b, 8 + |payload|, U16(c) + payload);
  }

  /** The answer to a request, as the other side receives it: from where the request went, to where it
      came from, with the payload. */
  lemma AnswerIsReceived4(r: Request, payload: seq<byte>)
    requires |r.src| == |r.dst| == 4 && 28 + |payload| <= 65535
    ensures Received4(Packet4(r, payload), r.dst, r.src, r.dstPort, r.srcPort, payload)
  {
    var p := Packet4(r, payload);
    Packet4Validates(r, payload);
    var c := UdpField(Pseudo4(r.dst, r.src, 8 + |payload|), r, payload);
    UdpShows(r, payload, c);
    HeaderShows4(r, payload);
    hide Sum, Complement, UdpField, HeaderField, Tally, Header4, Udp;
    ZeroComplement(Sum(p[..20]));
    SumIsTally(p[..20]);
    assert p[20..] == Udp(r, payload, c);
    ShiftedShows(p, 20);
    UdpAddsUp4(p, r, payload);
  }

  /** Numbers in the part behind an offset. */
  lemma ShiftedShows(p: seq<byte>, at: nat)
    requires at + 8 <= |p|
    ensures forall k: nat, v: int | k <= 6 :: Shows(p[at..], k, v) <==> Shows(p, at + k, v)
    ensures p[at..][4..6] == p[at + 4..at + 6]
  {
  }

  lemma HeaderShows4(r: Request, payload: seq<byte>)
    requires |r.src| == |r.dst| == 4 && 28 + |payload| <= 65535
    ensures var p := Packet4(r, payload);
            |p| == 28 + |payload| && p[0] == 69 && Shows(p, 2, |p|) && p[9] == 17 && p[8] > 0
            && p[20..] == Udp(r, payload, UdpField(Pseudo4(r.dst, r.src, 8 + |payload|), r, payload))
  {
    hide UdpField, HeaderField;
    var p := Packet4(r, payload);
    var t := 28 + |payload|;
    var head := Header4(r, t, HeaderField(r, t));
    assert p[..20] == head && p[0] == head[0] && p[2] == head[2] && p[3] == head[3] && p[8] == head[8] && p[9] == head[9];
    assert head[2] == U16(t)[0] && head[3] == U16(t)[1];
  }

  lemma UdpAddsUp4(p: seq<byte>, r: Request, payload: seq<byte>)
    requires |p| == 28 + |payload| <= 65535 && |r.src| == |r.dst| == 4
    requires ValidUdp4(r.dst, r.src, p[20..]) && !FieldIsZero(p[20..]) && p[24..26] == U16(8 + |payload|)
    ensures Tally(r.dst + r.src + [0, 17] + p[24..26] + p[20..]) % 65535 == 0
  {
    var pseudo := r.dst + r.src + [0, 17] + p[24..26];
    assert pseudo == Pseudo4(r.dst, r.src, |p[20..]|);
    ZeroComplement(Sum(pseudo) + Sum(p[20..]));
    SumIsTally(pseudo);
    SumIsTally(p[20..]);
    TallyConcat(pseudo, p[20..]);
  }

  lemma AnswerIsReceived6(r: Request, payload: seq<byte>)
    requires |r.src| == |r.dst| == 16 && 8 + |payload| <= 65535
    ensures Received6(Packet6(r, payload), r.dst, r.src, r.dstPort, r.srcPort, payload)
  {
    var p := Packet6(r, payload);
    Packet6Validates(r, payload);
    var c := UdpField(Pseudo6(r.dst, r.src, 8 + |payload|), r, payload);
    UdpShows(r, payload, c);
    HeaderShows6(r, payload);
    hide Sum, Complement, UdpField, Tally, Header6, Udp;
    assert p[40..] == Udp(r, payload, c);
    ShiftedShows(p, 40);
    UdpAddsUp6(p, r, payload);
  }

  lemma HeaderShows6(r: Request, payload: seq<byte>)
    requires |r.src| == |r.dst| == 16 && 8 + |payload| <= 65535
    ensures var p := Packet6(r, payload);
            |p| == 48 + |payload| && p[0] == 96 && Shows(p, 4, 8 + |payload|) && p[6] == 17 && p[7] > 0
            && p[40..] == Udp(r, payload, UdpField(Pseudo6(r.dst, r.src, 8 + |payload|), r, payload))
  {
    hide UdpField;
    var p := Packet6(r, payload);
    var l := U16(8 + |payload|);
    var head := Header6(r, 8 + |payload|);
    assert p[..40] == head && p[0] == head[0] && p[4] == head[4] && p[5] == head[5] && p[6] == head[6] && p[7] == head[7];
    assert head[4] == l[0] && head[5] == l[1];
  }

  lemma UdpAddsUp6(p: seq<byte>, r: Request, payload: seq<byte>)
    requires |p| == 48 + |payload| && 8 + |payload| <= 65535 && |r.src| == |r.dst| == 16
    requires ValidUdp6(r.dst, r.src, p[40..]) && p[44..46] == U16(8 + |payload|)
    ensures Tally(r.dst + r.src + [0, 0] + p[44..46] + [0, 0, 0, 17] + p[40..]) % 65535 == 0
  {
    var pseudo := r.dst + r.src + [0, 0] + p[44..46] + [0, 0, 0, 17];
    assert pseudo == Pseudo6(r.dst, r.src, |p[40..]|);
    ZeroComplement(Sum(pseudo) + Sum(p[40..]));
    SumIsTally(pseudo);
    SumIsTally(p[40..]);
    TallyConcat(pseudo, p[40..]);
  }

  // ---------------------------------------------------------------- record data

  /** Four bytes, the highest first. */
  function Four(v: W.uint32): seq<byte> {
    [v / 16777216, v / 65536 % 256, v / 256 % 256, v % 256]
  }

  lemma U32IsFour(v: W.uint32)
    ensures W.U32(v) == Four(v)
  {
    HighWord(v);
    LowWord(v);
  }

  lemma HighWord(v: W.uint32)
    ensures v / 65536 / 256 == v / 16777216
  {
    var a, r := v / 16777216, v % 16777216;
    assert v == 16777216 * a + r;
    assert v / 65536 == 256 * a + r / 65536;
  }

  lemma LowWord(v: W.uint32)
    ensures v % 65536 / 256 == v / 256 % 256 && v % 65536 % 256 == v % 256
  {
    var a, r := v / 65536, v % 65536;
    assert v == 65536 * a + r;
    assert v / 256 == 256 * a + r / 256;
  }

  /** SOA data: two names, then five numbers in the order of section 3.3.13 of RFC 1035. */
  lemma SoaOnTheWire(s: W.Soa)
    ensures W.EncodeSoa(s) ==
            W.Encode(s.ns) + W.Encode(s.mbox) + (Four(s.serial) + Four(s.refresh) + Four(s.retry) + Four(s.expire) + Four(s.minTtl))
  {
    U32IsFour(s.serial);
    U32IsFour(s.refresh);
    U32IsFour(s.retry);
    U32IsFour(s.expire);
    U32IsFour(s.minTtl);
  }

  /** An option: code and length in two bytes each, then the data. */
  lemma OptionOnTheWire(o: W.EdnsOption, rest: seq<W.EdnsOption>)
    requires |o.data| <= 65535
    ensures W.EncodeOpt([o] + rest) ==
            [o.code / 256, o.code % 256, |o.data| / 256, |o.data| % 256] + o.data + W.EncodeOpt(rest)
  {
    assert ([o] + rest)[1..] == rest;
  }

  /** The text of a name: a dot, byte 46, behind each label. */
  function Dotted(labels: seq<seq<byte>>): seq<byte> {
    if labels == [] then [] else Dotted(labels[..|labels| - 1]) + labels[|labels| - 1] + [46]
  }

  /** A name: each label behind its length, then a zero byte. */
  lemma NameOnTheWire(labels: seq<seq<byte>>)
    requires labels != [] && forall i | 0 <= i < |labels| :: 1 <= |labels[i]| <= 63 && 46 !in labels[i]
    ensures W.Encode(Dotted(labels)) == Counted(labels) + [0]
  {
    JoinIsDotted(labels);
    W.SplitJoin(labels);
    var name := W.Join(labels);
    assert W.Labels(name) == labels;
    assert |labels[0]| >= 1 && |name| >= 2;
    WireIsCounted(labels);
  }

  lemma {:induction false} JoinIsDotted(labels: seq<seq<byte>>)
    ensures W.Join(labels) == Dotted(labels)
    decreases |labels|
  {
    if labels != [] {
      var n := |labels| - 1;
      JoinIsDotted(labels[..n]);
      W.JoinSnoc(labels[..n], labels[n]);
      assert labels == labels[..n] + [labels[n]];
    }
  }

  function Counted(labels: seq<seq<byte>>): seq<byte>
    requires W.Fits(labels)
  {
    if labels == [] then []
    else Counted(labels[..|labels| - 1]) + [|labels[|labels| - 1]|] + labels[|labels| - 1]
  }

  lemma {:induction false} WireIsCounted(labels: seq<seq<byte>>)
    requires W.Fits(labels)
    ensures W.Wire(labels) == Counted(labels)
    decreases |labels|
  {
    if labels != [] {
      var n := |labels| - 1;
      WireIsCounted(labels[..n]);
      WireSnoc(labels[..n], labels[n]);
      assert labels == labels[..n] + [labels[n]];
    }
  }

  lemma {:induction false} WireSnoc(labels: seq<seq<byte>>, part: seq<byte>)
    requires |part| < 256
    ensures W.Wire(labels + [part]) == W.Wire(labels) + [|part|] + part
    decreases |labels|
  {
    if labels == [] {
      assert (labels + [part])[1..] == [];
    } else {
      assert (labels + [part])[1..] == labels[1..] + [part];
      WireSnoc(labels[1..], part);
    }
  }
}
