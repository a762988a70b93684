/** Byte streams, the classifier verdicts, and streams cut into chunks (package sniffer). */
module Streams {
  import opened Basics

  datatype State = NeedMore | Match | Mismatch

  /** The bytes of a stream that arrives in chunks. */
  function Flatten(chunks: seq<seq<byte>>): seq<byte> {
    if chunks == [] then [] else Flatten(chunks[..|chunks| - 1]) + chunks[|chunks| - 1]
  }

  function Min(a: int, b: int): int {
    if a < b then a else b
  }

  /** The first n bytes, or all. */
  function Take(s: seq<byte>, n: nat): (t: seq<byte>)
    ensures |t| == Min(n, |s|) && t <= s
  {
    s[..Min(n, |s|)]
  }

  /** Copies bytes into an array. */
  method Fill(p: array<byte>, lo: nat, bytes: seq<byte>)
    requires lo + |bytes| <= p.Length
    modifies p
    ensures forall k | 0 <= k < p.Length :: p[k] == if lo <= k < lo + |bytes| then bytes[k - lo] else old(p[k])
  {
    for i := 0 to |bytes|
      invariant forall k | 0 <= k < p.Length :: p[k] == if lo <= k < lo + i then bytes[k - lo] else old(p[k])
    {
      p[lo + i] := bytes[i];
    }
  }
}
