/** Bytes as numbers, and their checksum. */
module Bytes {
  import Crc

  type Byte = x: int | 0 <= x < 256

  function ToBits(s: seq<Byte>): (bits: seq<bv8>)
    ensures |bits| == |s|
  {
    seq(|s|, i requires 0 <= i < |s| => s[i] as bv8)
  }

  /** The CRC of a byte string, as a 16-bit number. */
  ghost function Crc16(s: seq<Byte>): (c: int)
    ensures 0 <= c < 0x1_0000
  {
    Crc.Fold(Crc.ReferenceUpdate, ToBits(s)) as int
  }

  lemma CrcOfEmptyBlock()
    ensures Crc16([0x05, 0x10]) == 0x9e81
  {
    hide Crc.Fold;
    assert ToBits([0x05, 0x10]) == [0x05, 0x10];
    Crc.EmptyBlock();
  }

  method ComputeCrc(s: seq<Byte>) returns (c: int)
    ensures c == Crc16(s)
  {
    var crc := Crc.Compute(ToBits(s));
    c := crc as int;
  }

  function Concat(ss: seq<seq<Byte>>): seq<Byte> {
    if ss == [] then [] else ss[0] + Concat(ss[1..])
  }
}
