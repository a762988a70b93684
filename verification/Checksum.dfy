/** DNS answers as IP packets (dns/ip_packet_adapter.go): the Internet checksum of RFC 1071 and the
    two packet builders. */
module Checksum {
  import opened Basics
  import opened Streams

  const WRAP := 0x1_0000_0000
  const UDP: byte := 17

  // ---------------------------------------------------------------- the sum

  /** The sum of big-endian words; an odd last byte counts as the high half of a word. */
  function Sum(p: seq<byte>): nat {
    if p == [] then 0
    else if |p| == 1 then Word(p[0], 0)
    else Word(p[0], p[1]) + Sum(p[2..])
  }

  function SumAll(parts: seq<seq<byte>>): nat {
    if parts == [] then 0 else SumAll(parts[..|parts| - 1]) + Sum(parts[|parts| - 1])
  }

  function Words(parts: seq<seq<byte>>): nat {
    if parts == [] then 0 else Words(parts[..|parts| - 1]) + (|parts[|parts| - 1]| + 1) / 2
  }

  lemma {:induction false} SumConcat(a: seq<byte>, b: seq<byte>)
    requires |a| % 2 == 0
    ensures Sum(a + b) == Sum(a) + Sum(b)
    decreases |a|
  {
    if a == [] {
      assert a + b == b;
    } else {
      assert (a + b)[2..] == a[2..] + b;
      SumConcat(a[2..], b);
    }
  }

  lemma {:induction false} SumBound(p: seq<byte>)
    ensures Sum(p) <= 65535 * ((|p| + 1) / 2)
    decreases |p|
  {
    if |p| > 1 {
      SumBound(p[2..]);
      assert (|p| + 1) / 2 == (|p[2..]| + 1) / 2 + 1;
    }
  }

  lemma {:induction false} SumAllBound(parts: seq<seq<byte>>)
    ensures SumAll(parts) <= 65535 * Words(parts)
    decreases |parts|
  {
    if parts != [] {
      SumAllBound(parts[..|parts| - 1]);
      SumBound(parts[|parts| - 1]);
    }
  }

  /** End-around carry until the sum fits 16 bits. */
  function Fold(sum: nat): uint16
    decreases sum
  {
    if sum < 65536 then sum else Fold(sum % 65536 + sum / 65536)
  }

  /** Folding keeps the value modulo 65535, and only zero folds to zero. */
  lemma {:induction false} FoldMeaning(sum: nat)
    ensures Fold(sum) % 65535 == sum % 65535
    ensures Fold(sum) == 0 <==> sum == 0
    decreases sum
  {
    if sum >= 65536 {
      var next := sum % 65536 + sum / 65536;
      assert sum == next + 65535 * (sum / 65536);
      SameResidue(next, sum / 65536);
      FoldMeaning(next);
    }
  }

  lemma SameResidue(x: nat, k: nat)
    ensures (x + 65535 * k) % 65535 == x % 65535
  {
    var q, r := x / 65535, x % 65535;
    assert x + 65535 * k == 65535 * (q + k) + r;
  }

  function Complement(sum: nat): uint16 {
    65535 - Fold(sum)
  }

  /** checksum, with its 32-bit accumulator: below 65538 words it cannot wrap, and the result is the
      complement of the folded sum. */
  method ComputeChecksum(parts: seq<seq<byte>>) returns (r: uint16)
    ensures Words(parts) <= 65537 ==> r == Complement(SumAll(parts))
  {
    var sum: nat := 0;
    for i := 0 to |parts|
      invariant sum < WRAP
      invariant Words(parts) <= 65537 ==> sum == SumAll(parts[..i])
    {
      sum := AddPart(sum, parts[i]);
      assert parts[..i + 1][..i] == parts[..i];
      SumAllBound(parts[..i + 1]);
      WordsGrow(parts, i + 1);
    }
    assert parts[..|parts|] == parts;
    ghost var total := sum;
    while sum >= 65536
      invariant sum < WRAP && Fold(sum) == Fold(total)
      decreases sum
    {
      sum := sum % 65536 + sum / 65536;
    }
    r := 65535 - sum;
  }

  /** One part of a checksum, two bytes at a time. */
  method AddPart(before: nat, part: seq<byte>) returns (sum: nat)
    requires before < WRAP
    ensures sum < WRAP
    ensures before + Sum(part) < WRAP ==> sum == before + Sum(part)
  {
    sum := before;
    var rest := part;
    while |rest| >= 2
      invariant sum < WRAP
      invariant before + Sum(part) < WRAP ==> sum + Sum(rest) == before + Sum(part)
      decreases |rest|
    {
      sum := (sum + Word(rest[0], rest[1])) % WRAP;
      rest := rest[2..];
    }
    if |rest| == 1 {
      sum := (sum + Word(rest[0], 0)) % WRAP;
    }
  }

  lemma {:induction false} WordsGrow(parts: seq<seq<byte>>, n: nat)
    requires n <= |parts|
    ensures Words(parts[..n]) <= Words(parts)
    decreases |parts| - n
  {
    if n == |parts| {
      assert parts[..n] == parts;
    } else {
      WordsGrow(parts, n + 1);
      assert parts[..n + 1][..n] == parts[..n];
    }
  }

  // ---------------------------------------------------------------- filling in a checksum

  /** The checksum field: the complement, written as all ones when it would be zero. */
  function NonZero(sum: nat): (c: uint16)
    ensures c != 0
  {
    if Complement(sum) == 0 then 65535 else Complement(sum)
  }

  /** A sum completed by its complement, or by the non-zero form of it, checks to zero. */
  lemma CompletedChecksToZero(sum: nat)
    ensures Complement(sum + Complement(sum)) == 0
    ensures Complement(sum + NonZero(sum)) == 0
  {
    FoldMeaning(sum);
    ChecksToZero(sum, Complement(sum));
    ChecksToZero(sum, NonZero(sum));
  }

  lemma ChecksToZero(sum: nat, c: uint16)
    requires c == Complement(sum) || c == NonZero(sum)
    ensures Complement(sum + c) == 0
  {
    FoldMeaning(sum);
    FoldMeaning(sum + c);
    var f := Fold(sum);
    assert f + c == 65535 || (f == 65535 && c == 65535);
    hide Fold, NonZero;
    Completed(sum, f, c);
  }

  lemma Completed(sum: nat, f: uint16, c: uint16)
    requires f % 65535 == sum % 65535 && (f + c == 65535 || (f == 65535 && c == 65535))
    ensures (sum + c) % 65535 == 0
  {
    var q := sum / 65535;
    assert sum == 65535 * q + sum % 65535;
    if f == 65535 {
      Multiple(sum + c, q + if c == 0 then 0 else 1);
    } else {
      Multiple(sum + c, q + 1);
    }
  }

  lemma Multiple(x: nat, k: nat)
    requires x == 65535 * k
    ensures x % 65535 == 0
  {
    SameResidue(0, k);
  }

  /** Replacing a zero word at an even offset by c adds c to the sum. */
  lemma FieldAddsUp(head: seq<byte>, c: uint16, tail: seq<byte>)
    requires |head| % 2 == 0
    ensures Sum(head + U16(c) + tail) == Sum(head + U16(0) + tail) + c
  {
    FieldSum(head, c, tail);
    FieldSum(head, 0, tail);
  }

  lemma FieldSum(head: seq<byte>, c: uint16, tail: seq<byte>)
    requires |head| % 2 == 0
    ensures Sum(head + U16(c) + tail) == Sum(head) + c + Sum(tail)
  {
    hide Sum;
    SumConcat(head + U16(c), tail);
    SumConcat(head, U16(c));
    WordSum(c);
  }

  lemma WordSum(c: uint16)
    ensures Sum(U16(c)) == c
  {
    WordOfU16(c);
    assert U16(c)[2..] == [];
  }

  // ---------------------------------------------------------------- packets

  datatype Request = Request(src: seq<byte>, dst: seq<byte>, srcPort: uint16, dstPort: uint16)

  /** The answer goes back: source and destination are exchanged. */
  function UdpHead(r: Request, length: uint16): (s: seq<byte>)
    ensures |s| == 6
  {
    U16(r.dstPort) + U16(r.srcPort) + U16(length)
  }

  function Udp(r: Request, payload: seq<byte>, c: uint16): (s: seq<byte>)
    requires 8 + |payload| <= 65535
    ensures |s| == 8 + |payload|
  {
    UdpHead(r, 8 + |payload|) + U16(c) + payload
  }

  function Pseudo4(src: seq<byte>, dst: seq<byte>, length: uint16): seq<byte> {
    src + dst + [0, UDP] + U16(length)
  }

  function Pseudo6(src: seq<byte>, dst: seq<byte>, length: uint16): seq<byte> {
    src + dst + [0, 0] + U16(length) + [0, 0, 0, UDP]
  }

  function Header4(r: Request, total: uint16, c: uint16): seq<byte> {
    [0x45, 0] + U16(total) + [0, 0, 0, 0, 64, UDP] + U16(c) + r.dst + r.src
  }

  function Header6(r: Request, length: uint16): seq<byte> {
    [0x60, 0, 0, 0] + U16(length) + [UDP, 64] + r.dst + r.src
  }

  /** validUDPChecksumIPv4 and validUDPChecksumIPv6, given the pseudo header. */
  predicate FieldIsZero(udp: seq<byte>)
    requires |udp| >= 8
  {
    Word(udp[6], udp[7]) == 0
  }

  predicate ValidUdp4(src: seq<byte>, dst: seq<byte>, udp: seq<byte>) {
    8 <= |udp| <= 65535 && (FieldIsZero(udp) || Complement(Sum(Pseudo4(src, dst, |udp|)) + Sum(udp)) == 0)
  }

  predicate ValidUdp6(src: seq<byte>, dst: seq<byte>, udp: seq<byte>) {
    8 <= |udp| <= 65535 && !FieldIsZero(udp) && Complement(Sum(Pseudo6(src, dst, |udp|)) + Sum(udp)) == 0
  }

  lemma UdpFieldValue(r: Request, payload: seq<byte>, c: uint16)
    requires 8 + |payload| <= 65535
    ensures Word(Udp(r, payload, c)[6], Udp(r, payload, c)[7]) == c
    ensures Sum(Udp(r, payload, c)) == Sum(Udp(r, payload, 0)) + c
  {
    WordOfU16(c);
    FieldAddsUp(UdpHead(r, 8 + |payload|), c, payload);
  }

  lemma HeaderFieldValue(r: Request, total: uint16, c: uint16)
    ensures Sum(Header4(r, total, c)) == Sum(Header4(r, total, 0)) + c
  {
    var head := [0x45, 0] + U16(total) + [0, 0, 0, 0, 64, UDP];
    FieldAddsUp(head, c, r.dst + r.src);
    assert Header4(r, total, c) == head + U16(c) + (r.dst + r.src);
    assert Header4(r, total, 0) == head + U16(0) + (r.dst + r.src);
  }

  /** The two checksum fields, as the builders compute them. */
  function HeaderField(r: Request, total: uint16): uint16 {
    Complement(Sum(Header4(r, total, 0)))
  }

  function UdpField(pseudo: seq<byte>, r: Request, payload: seq<byte>): uint16
    requires 8 + |payload| <= 65535
  {
    NonZero(Sum(pseudo) + Sum(Udp(r, payload, 0)))
  }

  /** For all addresses, ports and payloads that fit, odd lengths included: the header of the built
      IPv4 packet checks to zero and its UDP part carries a non-zero checksum that validates. */
  lemma Ipv4PacketValidates(r: Request, payload: seq<byte>)
    requires 28 + |payload| <= 65535
    ensures var c := UdpField(Pseudo4(r.dst, r.src, 8 + |payload|), r, payload);
            ValidUdp4(r.dst, r.src, Udp(r, payload, c)) && !FieldIsZero(Udp(r, payload, c))
    ensures var t := 28 + |payload|; Complement(Sum(Header4(r, t, HeaderField(r, t)))) == 0
  {
    var pseudo := Pseudo4(r.dst, r.src, 8 + |payload|);
    UdpFieldValue(r, payload, UdpField(pseudo, r, payload));
    CompletedChecksToZero(Sum(pseudo) + Sum(Udp(r, payload, 0)));
    var t := 28 + |payload|;
    HeaderFieldValue(r, t, HeaderField(r, t));
    CompletedChecksToZero(Sum(Header4(r, t, 0)));
  }

  lemma Ipv6PacketValidates(r: Request, payload: seq<byte>)
    requires 8 + |payload| <= 65535
    ensures var c := UdpField(Pseudo6(r.dst, r.src, 8 + |payload|), r, payload);
            ValidUdp6(r.dst, r.src, Udp(r, payload, c))
  {
    var pseudo := Pseudo6(r.dst, r.src, 8 + |payload|);
    UdpFieldValue(r, payload, UdpField(pseudo, r, payload));
    CompletedChecksToZero(Sum(pseudo) + Sum(Udp(r, payload, 0)));
  }

  // ---------------------------------------------------------------- the builders, in place

  function Packet4(r: Request, payload: seq<byte>): seq<byte>
    requires 28 + |payload| <= 65535
  {
    Header4(r, 28 + |payload|, HeaderField(r, 28 + |payload|))
    + Udp(r, payload, UdpField(Pseudo4(r.dst, r.src, 8 + |payload|), r, payload))
  }

  function Packet6(r: Request, payload: seq<byte>): seq<byte>
    requires 8 + |payload| <= 65535
  {
    Header6(r, 8 + |payload|) + Udp(r, payload, UdpField(Pseudo6(r.dst, r.src, 8 + |payload|), r, payload))
  }

  /** The packet as its receiver checks it: addresses where the header has them, a zero header
      checksum, and a UDP part that carries a non-zero checksum and validates. */
  lemma Packet4Validates(r: Request, payload: seq<byte>)
    requires |r.src| == |r.dst| == 4 && 28 + |payload| <= 65535
    ensures var p := Packet4(r, payload);
            && |p| == 28 + |payload| && p[12..16] == r.dst && p[16..20] == r.src && p[28..] == payload
            && Complement(Sum(p[..20])) == 0
            && ValidUdp4(p[12..16], p[16..20], p[20..]) && !FieldIsZero(p[20..])
  {
    var t := 28 + |payload|;
    var head := Header4(r, t, HeaderField(r, t));
    var udp := Udp(r, payload, UdpField(Pseudo4(r.dst, r.src, 8 + |payload|), r, payload));
    var p := Packet4(r, payload);
    Ipv4PacketValidates(r, payload);
    UdpPieces(r, payload, UdpField(Pseudo4(r.dst, r.src, 8 + |payload|), r, payload));
    hide Sum, Complement, ValidUdp4, FieldIsZero, HeaderField, UdpField, Udp, UdpHead;
    assert head[12..16] == r.dst && head[16..20] == r.src;
    assert p[..20] == head && p[20..] == udp && p[12..16] == head[12..16] && p[16..20] == head[16..20];
    assert p[28..] == udp[8..];
  }

  lemma Packet6Validates(r: Request, payload: seq<byte>)
    requires |r.src| == |r.dst| == 16 && 8 + |payload| <= 65535
    ensures var p := Packet6(r, payload);
            && |p| == 48 + |payload| && p[8..24] == r.dst && p[24..40] == r.src && p[48..] == payload
            && ValidUdp6(p[8..24], p[24..40], p[40..])
  {
    var head := Header6(r, 8 + |payload|);
    var udp := Udp(r, payload, UdpField(Pseudo6(r.dst, r.src, 8 + |payload|), r, payload));
    var p := Packet6(r, payload);
    Ipv6PacketValidates(r, payload);
    UdpPieces(r, payload, UdpField(Pseudo6(r.dst, r.src, 8 + |payload|), r, payload));
    hide Sum, Complement, ValidUdp6, UdpField, Udp, UdpHead;
    assert head[8..24] == r.dst && head[24..40] == r.src;
    assert p[..40] == head && p[40..] == udp && p[8..24] == head[8..24] && p[24..40] == head[24..40];
    assert p[48..] == udp[8..];
  }

  /** The checksum of one part, and of a pseudo header with a UDP part. */
  method ChecksumOne(p: seq<byte>) returns (c: uint16)
    requires |p| <= 65535
    ensures c == Complement(Sum(p))
  {
    hide Sum, Complement;
    var parts := [p];
    assert parts[..0] == [];
    assert SumAll(parts) == SumAll(parts[..0]) + Sum(p);
    assert Words(parts) == Words(parts[..0]) + (|p| + 1) / 2;
    c := ComputeChecksum(parts);
  }

  method NonZeroChecksum(pseudo: seq<byte>, udp: seq<byte>) returns (c: uint16)
    requires |pseudo| <= 40 && |udp| <= 65535
    ensures c == NonZero(Sum(pseudo) + Sum(udp))
  {
    hide Sum, Complement;
    var parts := [pseudo, udp];
    assert parts[..1] == [pseudo];
    assert [pseudo][..0] == [];
    assert SumAll([pseudo]) == SumAll([pseudo][..0]) + Sum(pseudo);
    assert SumAll(parts) == SumAll(parts[..1]) + Sum(udp);
    assert Words([pseudo]) == Words([pseudo][..0]) + (|pseudo| + 1) / 2;
    c := ComputeChecksum(parts);
    if c == 0 { c := 65535; }
  }

  /** The UDP part, written behind a header of the given length; its checksum field stays zero. */
  method WriteUdp(pkt: array<byte>, at: nat, r: Request, payload: seq<byte>)
    requires 8 + |payload| <= 65535 && pkt.Length == at + 8 + |payload|
    requires forall k | at <= k < pkt.Length :: pkt[k] == 0
    modifies pkt
    ensures pkt[..at] == old(pkt[..at]) && pkt[at..] == Udp(r, payload, 0)
  {
    Fill(pkt, at, U16(r.dstPort));
    Fill(pkt, at + 2, U16(r.srcPort));
    Fill(pkt, at + 4, U16(8 + |payload|));
    Fill(pkt, at + 8, payload);
    assert pkt[..at] == old(pkt[..at]);
    assert pkt[at..at + 2] == U16(r.dstPort) && pkt[at + 2..at + 4] == U16(r.srcPort);
    assert pkt[at + 4..at + 6] == U16(8 + |payload|);
    assert pkt[at..at + 6] == pkt[at..at + 2] + pkt[at + 2..at + 4] + pkt[at + 4..at + 6];
    assert pkt[at + 6..at + 8] == U16(0);
    assert pkt[at + 8..] == payload;
    assert pkt[at..] == pkt[at..at + 6] + pkt[at + 6..at + 8] + pkt[at + 8..];
  }

  lemma UdpPieces(r: Request, payload: seq<byte>, c: uint16)
    requires 8 + |payload| <= 65535
    ensures Udp(r, payload, c)[..6] == UdpHead(r, 8 + |payload|) && Udp(r, payload, c)[8..] == payload
  {
  }

  /** The checksum over a pseudo header and the UDP part, stored in its field. */
  method FinishUdp(pkt: array<byte>, at: nat, pseudo: seq<byte>, r: Request, payload: seq<byte>)
    requires 8 + |payload| <= 65535 && pkt.Length == at + 8 + |payload| && |pseudo| <= 40
    requires pkt[at..] == Udp(r, payload, 0)
    modifies pkt
    ensures pkt[..] == old(pkt[..at]) + Udp(r, payload, UdpField(pseudo, r, payload))
  {
    hide Sum, Complement, NonZero;
    var field := NonZeroChecksum(pseudo, pkt[at..]);
    UdpPieces(r, payload, 0);
    hide UdpHead;
    ghost var before := pkt[at..];
    Fill(pkt, at + 6, U16(field));
    hide UdpField;
    assert pkt[..at] == old(pkt[..at]);
    assert pkt[at..at + 6] == before[..6];
    assert pkt[at + 6..at + 8] == U16(field);
    assert pkt[at + 8..] == before[8..];
    assert Udp(r, payload, field) == pkt[at..at + 6] + pkt[at + 6..at + 8] + pkt[at + 8..];
    assert pkt[..] == pkt[..at] + (pkt[at..at + 6] + pkt[at + 6..at + 8] + pkt[at + 8..]);
  }

  /** buildDNSIPv4Response. */
  method BuildIpv4(r: Request, payload: seq<byte>) returns (pkt: Option<array<byte>>)
    requires |r.src| == |r.dst| == 4
    ensures pkt.Some? <==> 28 + |payload| <= 65535
    ensures pkt.Some? ==> fresh(pkt.value) && pkt.value[..] == Packet4(r, payload)
    ensures pkt.Some? ==> var p := pkt.value[..]; |p| >= 28 && ValidUdp4(p[12..16], p[16..20], p[20..]) && Complement(Sum(p[..20])) == 0
  {
    hide Sum, Complement, UdpField, HeaderField, ValidUdp4;
    var total := 28 + |payload|;
    if total > 65535 { return None; }
    var p := new byte[total](_ => 0);
    WriteHeader4(p, r, total);
    WriteUdp(p, 20, r, payload);
    FinishUdp(p, 20, Pseudo4(r.dst, r.src, 8 + |payload|), r, payload);
    Packet4Validates(r, payload);
    return Some(p);
  }

  method WriteHeader4(p: array<byte>, r: Request, total: uint16)
    requires |r.src| == |r.dst| == 4 && p.Length == total >= 20 && forall k | 0 <= k < p.Length :: p[k] == 0
    modifies p
    ensures p[..20] == Header4(r, total, HeaderField(r, total))
    ensures forall k | 20 <= k < p.Length :: p[k] == 0
  {
    hide Sum, Complement;
    WriteFields4(p, r, total);
    Pieces4(p[..20], r, total, 0);
    var sum := ChecksumOne(p[..20]);
    ghost var before := p[..20];
    Fill(p, 10, U16(sum));
    assert p[..20] == before[..10] + U16(sum) + before[12..] by {
      forall k | 0 <= k < 20 ensures p[k] == (before[..10] + U16(sum) + before[12..])[k] {}
    }
    Pieces4(p[..20], r, total, sum);
  }

  /** A header is its first ten bytes, the checksum field, and the addresses. */
  lemma Pieces4(h: seq<byte>, r: Request, total: uint16, c: uint16)
    requires |h| == 20 && |r.src| == |r.dst| == 4
    ensures h == Header4(r, total, c) <==>
            h[..10] == [0x45, 0] + U16(total) + [0, 0, 0, 0, 64, UDP] && h[10..12] == U16(c) && h[12..] == r.dst + r.src
  {
    assert h == h[..10] + h[10..12] + h[12..];
    var full := Header4(r, total, c);
    assert full[..10] == [0x45, 0] + U16(total) + [0, 0, 0, 0, 64, UDP] && full[10..12] == U16(c) && full[12..] == r.dst + r.src;
    assert full == full[..10] + full[10..12] + full[12..];
  }

  /** The header with a zero checksum field. */
  method WriteFields4(p: array<byte>, r: Request, total: uint16)
    requires |r.src| == |r.dst| == 4 && p.Length == total >= 20 && forall k | 0 <= k < p.Length :: p[k] == 0
    modifies p
    ensures p[..20] == Header4(r, total, 0)
    ensures forall k | 20 <= k < p.Length :: p[k] == 0
  {
    Fill(p, 0, [0x45]);
    Fill(p, 2, U16(total));
    Fill(p, 8, [64]);
    Fill(p, 9, [UDP]);
    Fill(p, 12, r.dst);
    Fill(p, 16, r.src);
    Pieces4(p[..20], r, total, 0);
    assert p[..20][..10] == [0x45, 0] + U16(total) + [0, 0, 0, 0, 64, UDP];
    assert p[..20][12..] == r.dst + r.src;
  }

  method WriteHeader6(p: array<byte>, r: Request, length: uint16)
    requires |r.src| == |r.dst| == 16 && p.Length >= 40 && forall k | 0 <= k < p.Length :: p[k] == 0
    modifies p
    ensures p[..40] == Header6(r, length)
    ensures forall k | 40 <= k < p.Length :: p[k] == 0
  {
    Fill(p, 0, [0x60]);
    Fill(p, 4, U16(length));
    Fill(p, 6, [UDP]);
    Fill(p, 7, [64]);
    Fill(p, 8, r.dst);
    Fill(p, 24, r.src);
    assert p[..8] == [0x60, 0, 0, 0] + U16(length) + [UDP, 64];
    assert p[8..24] == r.dst && p[24..40] == r.src;
    assert p[..40] == p[..8] + p[8..24] + p[24..40];
  }

  /** buildDNSIPv6Response. */
  method BuildIpv6(r: Request, payload: seq<byte>) returns (pkt: Option<array<byte>>)
    requires |r.src| == |r.dst| == 16
    ensures pkt.Some? <==> 8 + |payload| <= 65535
    ensures pkt.Some? ==> fresh(pkt.value) && pkt.value[..] == Packet6(r, payload)
    ensures pkt.Some? ==> var p := pkt.value[..]; |p| >= 48 && ValidUdp6(p[8..24], p[24..40], p[40..])
  {
    hide Sum, Complement, UdpField, ValidUdp6;
    var length := 8 + |payload|;
    if length > 65535 { return None; }
    var p := new byte[40 + length](_ => 0);
    WriteHeader6(p, r, length);
    WriteUdp(p, 40, r, payload);
    FinishUdp(p, 40, Pseudo6(r.dst, r.src, length), r, payload);
    Packet6Validates(r, payload);
    return Some(p);
  }
}
