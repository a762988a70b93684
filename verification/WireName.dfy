/** DNS wire data (dns/wire.go): names as in section 3.1 of RFC 1035, SOA data as in section 3.3.13
    of RFC 1035, EDNS options as in section 6.1.2 of RFC 6891. */
module WireName {
  import opened Basics

  const DOT: byte := 46
  const ROOT: seq<byte> := [DOT]
  /** The longest name the message library accepts. */
  const NAME_MAX := 255

  // ---------------------------------------------------------------- labels

  /** strings.Split at dots. */
  function Split(s: seq<byte>): (labels: seq<seq<byte>>)
    ensures labels != []
  {
    if s == [] then [[]]
    else if s[0] == DOT then [[]] + Split(s[1..])
    else var rest := Split(s[1..]); [[s[0]] + rest[0]] + rest[1..]
  }

  /** Every label with a dot after it. */
  function Join(labels: seq<seq<byte>>): seq<byte> {
    if labels == [] then [] else labels[0] + [DOT] + Join(labels[1..])
  }

  function TrimSuffix(s: seq<byte>): seq<byte> {
    if s != [] && s[|s| - 1] == DOT then s[..|s| - 1] else s
  }

  predicate DotFree(labels: seq<seq<byte>>) {
    forall i | 0 <= i < |labels| :: DOT !in labels[i]
  }

  predicate Fits(labels: seq<seq<byte>>) {
    forall i | 0 <= i < |labels| :: 1 <= |labels[i]| <= 63
  }

  lemma {:induction false} JoinSplit(s: seq<byte>)
    ensures Join(Split(s)) == s + [DOT] && DotFree(Split(s))
    decreases |s|
  {
    if s != [] {
      JoinSplit(s[1..]);
      var rest := Split(s[1..]);
      if s[0] == DOT {
        assert ([[]] + rest)[1..] == rest;
        assert s == [DOT] + s[1..];
      } else {
        var parts := [[s[0]] + rest[0]] + rest[1..];
        assert parts[0] == [s[0]] + rest[0] && parts[1..] == rest[1..];
        assert [s[0]] + rest[0] + [DOT] + Join(rest[1..]) == [s[0]] + (rest[0] + [DOT] + Join(rest[1..]));
        assert [s[0]] + (s[1..] + [DOT]) == s + [DOT];
      }
    }
  }

  lemma {:induction false} SplitFirst(part: seq<byte>, tail: seq<byte>)
    requires DOT !in part
    ensures Split(part) == [part]
    ensures Split(part + [DOT] + tail) == [part] + Split(tail)
    decreases |part|
  {
    var all := part + [DOT] + tail;
    if part == [] {
      assert all[1..] == tail;
    } else {
      SplitFirst(part[1..], tail);
      assert all[1..] == part[1..] + [DOT] + tail;
      assert part == [part[0]] + part[1..];
    }
  }

  /** A joined list of dot-free labels splits into the same labels. */
  lemma {:induction false} SplitJoin(labels: seq<seq<byte>>)
    requires labels != [] && DotFree(labels)
    ensures Join(labels) != [] && Join(labels)[|Join(labels)| - 1] == DOT
    ensures Split(Join(labels)[..|Join(labels)| - 1]) == labels
    decreases |labels|
  {
    var all := Join(labels);
    if |labels| == 1 {
      assert all == labels[0] + [DOT];
      assert all[..|all| - 1] == labels[0];
      SplitFirst(labels[0], []);
    } else {
      SplitJoin(labels[1..]);
      var rest := Join(labels[1..]);
      assert all[..|all| - 1] == labels[0] + [DOT] + rest[..|rest| - 1];
      SplitFirst(labels[0], rest[..|rest| - 1]);
    }
  }

  // ---------------------------------------------------------------- names

  /** The labels that appendWireNameData writes; the length byte keeps eight bits. */
  function Wire(labels: seq<seq<byte>>): seq<byte> {
    if labels == [] then [] else [(|labels[0]| % 256) as byte] + labels[0] + Wire(labels[1..])
  }

  function Labels(name: seq<byte>): seq<seq<byte>> {
    Split(TrimSuffix(name))
  }

  function Encode(name: seq<byte>): seq<byte> {
    if name == ROOT then [0] else Wire(Labels(name)) + [0]
  }

  /** The rest of a name at an offset, after the text read so far. */
  function DecodeFrom(data: seq<byte>, at: nat, name: seq<byte>): Option<(seq<byte>, nat)>
    decreases |data| - at
  {
    if at >= |data| then None
    else
      var length := data[at];
      if length == 0 then Some((if name == [] then ROOT else name, at + 1))
      else if length > 63 || length > |data| - at - 1 then None
      else
        var part := data[at + 1..at + 1 + length];
        if DOT in part then None else DecodeFrom(data, at + 1 + length, name + part + [DOT])
  }

  function Decode(data: seq<byte>, at: nat): Option<(seq<byte>, nat)> {
    DecodeFrom(data, at, [])
  }

  /** appendWireNameData. */
  method AppendWireName(dst: seq<byte>, name: seq<byte>) returns (out: seq<byte>)
    ensures out == dst + Encode(name)
  {
    if name == ROOT {
      return dst + [0];
    }
    out := dst;
    var labels := Labels(name);
    for i := 0 to |labels|
      invariant out + Wire(labels[i..]) == dst + Wire(labels)
    {
      assert labels[i..][1..] == labels[i + 1..];
      var before := out;
      out := out + [(|labels[i]| % 256) as byte] + labels[i];
      assert out + Wire(labels[i + 1..]) == before + Wire(labels[i..]);
    }
    assert labels[|labels|..] == [];
    assert out == dst + Wire(labels);
    out := out + [0];
  }

  /** unpackWireNameData. */
  method UnpackWireName(data: seq<byte>, offset: nat) returns (r: Option<(seq<byte>, nat)>)
    ensures r == Decode(data, offset)
  {
    var name: seq<byte> := [];
    var at := offset;
    while at < |data|
      invariant DecodeFrom(data, at, name) == Decode(data, offset)
      decreases |data| - at
    {
      var length := data[at];
      at := at + 1;
      if length == 0 {
        return Some((if |name| == 0 then ROOT else name, at));
      }
      if length > 63 || length > |data| - at { return None; }
      if DOT in data[at..at + length] { return None; }
      name := name + data[at..at + length] + [DOT];
      at := at + length;
    }
    return None;
  }

  /** Names that survive: the root, or absolute names of labels of 1 to 63 bytes. */
  predicate WellFormed(name: seq<byte>) {
    name == ROOT || (name != [] && name[|name| - 1] == DOT && Fits(Labels(name)))
  }

  /** What the encoder wrote for fitting labels is read back, wherever it stands and whatever
      follows. */
  lemma {:induction false} DecodeWire(labels: seq<seq<byte>>, before: seq<byte>, after: seq<byte>, name: seq<byte>)
    requires DotFree(labels) && Fits(labels) && (labels != [] || name != [])
    ensures DecodeFrom(before + Wire(labels) + [0] + after, |before|, name)
         == Some((name + Join(labels), |before| + |Wire(labels)| + 1))
    decreases |labels|
  {
    hide DecodeFrom;
    var data := before + Wire(labels) + [0] + after;
    if labels == [] {
      DecodeEnd(before, after, name);
      assert data == before + [0] + after;
      assert name + Join(labels) == name;
    } else {
      var part := labels[0];
      var first := [|part| as byte] + part;
      var rest := Wire(labels[1..]) + [0] + after;
      assert data == before + first + rest;
      DecodeLabel(before, part, rest, name);
      DecodeWire(labels[1..], before + first, after, name + part + [DOT]);
      assert (before + first) + Wire(labels[1..]) + [0] + after == data;
      assert name + Join(labels) == (name + part + [DOT]) + Join(labels[1..]);
    }
  }

  lemma DecodeEnd(before: seq<byte>, after: seq<byte>, name: seq<byte>)
    ensures DecodeFrom(before + [0] + after, |before|, name) == Some((if name == [] then ROOT else name, |before| + 1))
  {
    assert (before + [0] + after)[|before|] == 0;
  }

  /** Reading one label. */
  lemma DecodeLabel(before: seq<byte>, part: seq<byte>, rest: seq<byte>, name: seq<byte>)
    requires 1 <= |part| <= 63 && DOT !in part
    ensures var data := before + ([|part| as byte] + part) + rest;
            DecodeFrom(data, |before|, name) == DecodeFrom(data, |before| + 1 + |part|, name + part + [DOT])
  {
    var data := before + ([|part| as byte] + part) + rest;
    assert data[|before|] == |part| as byte;
    assert data[|before| + 1..|before| + 1 + |part|] == part;
  }

  /** Every decoded name is well formed. */
  lemma {:induction false} DecodedIsWellFormed(data: seq<byte>, at: nat, labels: seq<seq<byte>>)
    requires DotFree(labels) && Fits(labels) && DecodeFrom(data, at, Join(labels)).Some?
    ensures WellFormed(DecodeFrom(data, at, Join(labels)).value.0)
    decreases |data| - at
  {
    var length := data[at];
    if length == 0 {
      if labels != [] { SplitJoin(labels); }
    } else {
      var part := data[at + 1..at + 1 + length];
      JoinSnoc(labels, part);
      DecodedIsWellFormed(data, at + 1 + length, labels + [part]);
    }
  }

  lemma {:induction false} JoinSnoc(labels: seq<seq<byte>>, part: seq<byte>)
    ensures Join(labels + [part]) == Join(labels) + part + [DOT]
    decreases |labels|
  {
    if labels == [] {
      assert (labels + [part])[1..] == [];
    } else {
      assert (labels + [part])[1..] == labels[1..] + [part];
      JoinSnoc(labels[1..], part);
      assert labels[0] + [DOT] + (Join(labels[1..]) + part + [DOT]) == Join(labels) + part + [DOT];
    }
  }

  /** A name decodes to itself, at any offset and with any bytes around it, exactly when it is the
      root or an absolute name whose labels have 1 to 63 bytes. */
  lemma NameRoundTripIff(name: seq<byte>, before: seq<byte>, after: seq<byte>)
    ensures Decode(before + Encode(name) + after, |before|) == Some((name, |before| + |Encode(name)|)) <==> WellFormed(name)
  {
    if WellFormed(name) {
      WellFormedRoundTrips(name, before, after);
    }
    var data := before + Encode(name) + after;
    if Decode(data, |before|).Some? {
      DecodedIsWellFormed(data, |before|, []);
    }
    hide DecodeFrom, Encode, WellFormed;
  }

  lemma WellFormedRoundTrips(name: seq<byte>, before: seq<byte>, after: seq<byte>)
    requires WellFormed(name)
    ensures Decode(before + Encode(name) + after, |before|) == Some((name, |before| + |Encode(name)|))
  {
    hide DecodeFrom, Wire, Split, Join;
    if name == ROOT {
      DecodeEnd(before, after, []);
    } else {
      var labels := Labels(name);
      JoinSplit(TrimSuffix(name));
      DecodeWire(labels, before, after, []);
      assert before + Encode(name) + after == before + Wire(labels) + [0] + after;
      assert [] + Join(labels) == Join(labels) == name;
    }
  }

  // ---------------------------------------------------------------- SOA

  type uint32 = x: int | 0 <= x < 0x1_0000_0000

  datatype Soa = Soa(ns: seq<byte>, mbox: seq<byte>, serial: uint32, refresh: uint32, retry: uint32, expire: uint32, minTtl: uint32)

  function U32(v: uint32): (s: seq<byte>)
    ensures |s| == 4
  {
    U16(v / 65536) + U16(v % 65536)
  }

  function ReadU32(data: seq<byte>, at: nat): uint32
    requires at + 4 <= |data|
  {
    Word(data[at], data[at + 1]) * 65536 + Word(data[at + 2], data[at + 3])
  }

  lemma ReadBackU32(before: seq<byte>, v: uint32, after: seq<byte>)
    ensures ReadU32(before + U32(v) + after, |before|) == v
  {
    var data := before + U32(v) + after;
    var hi, lo := U16(v / 65536), U16(v % 65536);
    assert data[|before|] == hi[0] && data[|before| + 1] == hi[1] && data[|before| + 2] == lo[0] && data[|before| + 3] == lo[1];
    WordOfU16(v / 65536);
    WordOfU16(v % 65536);
  }

  function Numbers(s: Soa): (d: seq<byte>)
    ensures |d| == 20
  {
    U32(s.serial) + U32(s.refresh) + U32(s.retry) + U32(s.expire) + U32(s.minTtl)
  }

  /** resourceData for SOA. */
  function EncodeSoa(s: Soa): seq<byte> {
    Encode(s.ns) + Encode(s.mbox) + Numbers(s)
  }

  /** wireName: make absolute, refuse what is too long. */
  function LibraryName(text: seq<byte>): Option<seq<byte>> {
    var absolute := if text == [] || text == ROOT then ROOT else if text[|text| - 1] == DOT then text else text + [DOT];
    if |absolute| > NAME_MAX then None else Some(absolute)
  }

  /** unpackSOAData. */
  function DecodeSoa(data: seq<byte>): Option<Soa> {
    var ns := Decode(data, 0);
    if ns.None? then None
    else
      var mbox := Decode(data, ns.value.1);
      if mbox.None? || |data| - mbox.value.1 != 20 then None
      else
        var at := mbox.value.1;
        var nsName, mboxName := LibraryName(ns.value.0), LibraryName(mbox.value.0);
        if nsName.None? || mboxName.None? then None
        else Some(Soa(nsName.value, mboxName.value, ReadU32(data, at), ReadU32(data, at + 4),
                      ReadU32(data, at + 8), ReadU32(data, at + 12), ReadU32(data, at + 16)))
  }

  lemma ReadBackNumbers(before: seq<byte>, s: Soa)
    ensures var data, at := before + Numbers(s), |before|;
            && ReadU32(data, at) == s.serial && ReadU32(data, at + 4) == s.refresh && ReadU32(data, at + 8) == s.retry
            && ReadU32(data, at + 12) == s.expire && ReadU32(data, at + 16) == s.minTtl
  {
    hide ReadU32, U32;
    var data := before + Numbers(s);
    var a, b, c, d, e := U32(s.serial), U32(s.refresh), U32(s.retry), U32(s.expire), U32(s.minTtl);
    ReadBackU32(before, s.serial, b + c + d + e);
    assert data == before + a + (b + c + d + e);
    ReadBackU32(before + a, s.refresh, c + d + e);
    assert data == before + a + b + (c + d + e);
    ReadBackU32(before + a + b, s.retry, d + e);
    assert data == before + a + b + c + (d + e);
    ReadBackU32(before + a + b + c, s.expire, e);
    assert data == before + a + b + c + d + e;
    ReadBackU32(before + a + b + c + d, s.minTtl, []);
    assert data == before + a + b + c + d + e + [];
  }

  lemma LibraryKeeps(name: seq<byte>)
    requires name != [] && name[|name| - 1] == DOT
    ensures LibraryName(name) == if |name| <= NAME_MAX then Some(name) else None
  {
  }

  /** SOA data whose two names the library could hold round-trips exactly when both names are well
      formed. */
  lemma SoaRoundTripIff(s: Soa)
    requires |s.ns| <= NAME_MAX && |s.mbox| <= NAME_MAX
    ensures DecodeSoa(EncodeSoa(s)) == Some(s) <==> WellFormed(s.ns) && WellFormed(s.mbox)
  {
    hide Decode, Encode, ReadU32, Numbers;
    var data := EncodeSoa(s);
    var a, b := Encode(s.ns), Encode(s.mbox);
    if WellFormed(s.ns) && WellFormed(s.mbox) {
      NameRoundTripIff(s.ns, [], b + Numbers(s));
      assert data == [] + a + (b + Numbers(s));
      NameRoundTripIff(s.mbox, a, Numbers(s));
      ReadBackNumbers(a + b, s);
      LibraryKeeps(s.ns);
      LibraryKeeps(s.mbox);
    }
    if DecodeSoa(data) == Some(s) {
      DecodedName(data, 0);
      DecodedName(data, Decode(data, 0).value.1);
    }
  }

  lemma DecodedName(data: seq<byte>, at: nat)
    requires Decode(data, at).Some?
    ensures WellFormed(Decode(data, at).value.0)
    ensures LibraryName(Decode(data, at).value.0).Some? ==> LibraryName(Decode(data, at).value.0).value == Decode(data, at).value.0
  {
    DecodedIsWellFormed(data, at, []);
  }

  // ---------------------------------------------------------------- EDNS options

  datatype EdnsOption = EdnsOption(code: uint16, data: seq<byte>)

  /** resourceData for OPT: the length keeps sixteen bits. */
  function EncodeOpt(options: seq<EdnsOption>): seq<byte> {
    if options == [] then []
    else U16(options[0].code) + U16(|options[0].data| % 65536) + options[0].data + EncodeOpt(options[1..])
  }

  /** unpackOPTData. */
  function DecodeOpt(data: seq<byte>): Option<seq<EdnsOption>>
    decreases |data|
  {
    if data == [] then Some([])
    else if |data| < 4 then None
    else
      var length := Word(data[2], data[3]);
      if length > |data| - 4 then None
      else
        var rest := DecodeOpt(data[4 + length..]);
        if rest.None? then None
        else Some([EdnsOption(Word(data[0], data[1]), data[4..4 + length])] + rest.value)
  }

  function After(options: seq<EdnsOption>, rest: Option<seq<EdnsOption>>): Option<seq<EdnsOption>> {
    if rest.None? then None else Some(options + rest.value)
  }

  lemma AfterNothing(r: Option<seq<EdnsOption>>)
    ensures After([], r) == r
  {
    if r.Some? { assert [] + r.value == r.value; }
  }

  method UnpackOpt(bytes: seq<byte>) returns (r: Option<seq<EdnsOption>>)
    ensures r == DecodeOpt(bytes)
  {
    var options: seq<EdnsOption> := [];
    var data := bytes;
    AfterNothing(DecodeOpt(bytes));
    while |data| != 0
      invariant DecodeOpt(bytes) == After(options, DecodeOpt(data))
      decreases |data|
    {
      if |data| < 4 { return None; }
      var length := Word(data[2], data[3]);
      if length > |data| - 4 { return None; }
      var option := EdnsOption(Word(data[0], data[1]), data[4..4 + length]);
      ghost var rest := DecodeOpt(data[4 + length..]);
      assert rest.Some? ==> options + ([option] + rest.value) == (options + [option]) + rest.value;
      options := options + [option];
      data := data[4 + length..];
    }
    assert options + [] == options;
    return Some(options);
  }

  /** The encoding loop. */
  method PackOpt(options: seq<EdnsOption>) returns (out: seq<byte>)
    ensures out == EncodeOpt(options)
  {
    hide U16;
    out := [];
    for i := 0 to |options|
      invariant out + EncodeOpt(options[i..]) == EncodeOpt(options)
    {
      assert options[i..][1..] == options[i + 1..];
      var o := options[i];
      var head := U16(o.code) + U16(|o.data| % 65536) + o.data;
      assert EncodeOpt(options[i..]) == head + EncodeOpt(options[i + 1..]);
      assert out + (head + EncodeOpt(options[i + 1..])) == (out + head) + EncodeOpt(options[i + 1..]);
      out := out + head;
    }
    assert options[|options|..] == [];
  }

  predicate OptionsFit(options: seq<EdnsOption>) {
    forall i | 0 <= i < |options| :: |options[i].data| <= 65535
  }

  lemma {:induction false} DecodedOptionsFit(data: seq<byte>)
    requires DecodeOpt(data).Some?
    ensures OptionsFit(DecodeOpt(data).value)
    decreases |data|
  {
    if data != [] {
      var length := Word(data[2], data[3]);
      DecodedOptionsFit(data[4 + length..]);
    }
  }

  lemma {:induction false} FittingOptionsRoundTrip(options: seq<EdnsOption>)
    requires OptionsFit(options)
    ensures DecodeOpt(EncodeOpt(options)) == Some(options)
    decreases |options|
  {
    if options != [] {
      var o := options[0];
      FittingOptionsRoundTrip(options[1..]);
      DecodeOption(o, EncodeOpt(options[1..]));
      assert options == [o] + options[1..];
    }
  }

  /** Reading one option. */
  lemma DecodeOption(o: EdnsOption, tail: seq<byte>)
    requires |o.data| <= 65535
    ensures DecodeOpt(U16(o.code) + U16(|o.data| % 65536) + o.data + tail) == After([o], DecodeOpt(tail))
  {
    hide DecodeOpt, U16, Word;
    var code, length := U16(o.code), U16(|o.data|);
    var data := code + length + o.data + tail;
    assert data[0] == code[0] && data[1] == code[1] && data[2] == length[0] && data[3] == length[1];
    WordOfU16(o.code);
    WordOfU16(|o.data|);
    FirstOption(data, |o.data|);
    assert data[4..4 + |o.data|] == o.data && data[4 + |o.data|..] == tail;
  }

  lemma FirstOption(data: seq<byte>, length: nat)
    requires |data| >= 4 + length && Word(data[2], data[3]) == length
    ensures DecodeOpt(data) == After([EdnsOption(Word(data[0], data[1]), data[4..4 + length])], DecodeOpt(data[4 + length..]))
  {
  }

  /** Options round-trip exactly when no option holds more than 65535 bytes. */
  lemma OptRoundTripIff(options: seq<EdnsOption>)
    ensures DecodeOpt(EncodeOpt(options)) == Some(options) <==> OptionsFit(options)
  {
    if OptionsFit(options) {
      FittingOptionsRoundTrip(options);
    }
    if DecodeOpt(EncodeOpt(options)).Some? {
      DecodedOptionsFit(EncodeOpt(options));
    }
  }
}
