/** Types shared by the models. */
module Basics {
  datatype Option<+T> = None | Some(value: T)

  type byte = x: int | 0 <= x < 256

  type uint16 = x: int | 0 <= x < 65536

  /** Big-endian, two bytes. */
  function U16(v: uint16): (s: seq<byte>)
    ensures |s| == 2
  {
    [(v / 256) as byte, (v % 256) as byte]
  }

  function Word(hi: byte, lo: byte): uint16 {
    hi * 256 + lo
  }

  lemma WordOfU16(v: uint16)
    ensures Word(U16(v)[0], U16(v)[1]) == v
  {
  }
}
