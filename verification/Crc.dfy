/** The 16-bit CRC that guards both serial protocols.  Bytes are 8-bit words here. */
module Crc {

  function Low(x: bv16): bv16 {
    x & 0xff
  }

  function High(x: bv16): bv16 {
    x >> 8
  }

  function Join(high: bv16, low: bv16): bv16 {
    (high << 8) | low
  }

  function Xor(x: bv16, y: bv16): bv16 {
    x ^ y
  }

  /** One byte of the bootloader's and the firmware's loop; `data` is truncated to 8 bits. */
  function Update(crc: bv16, byte: bv16): bv16 {
    var mixed := (byte ^ crc) & 0xff;
    var data := (mixed ^ (mixed << 4)) & 0xff;
    ((data << 8) | (crc >> 8)) ^ (data >> 4) ^ (data << 3)
  }

  /** One byte of the host's loop, which keeps only the low nibble before shifting it. */
  function HostUpdate(crc: bv16, byte: bv16): bv16 {
    var mixed := (byte ^ crc) & 0xff;
    var data := mixed ^ ((mixed & 0x0f) << 4);
    ((data << 8) | (crc >> 8)) ^ (data >> 4) ^ (data << 3)
  }

  /** The register of appendix C.2 of RFC 1662: one bit at a time, polynomial 0x8408. */
  function ShiftBit(r: bv16): bv16 {
    if r & 1 == 1 then (r >> 1) ^ 0x8408 else r >> 1
  }

  function ShiftBits(r: bv16, n: nat): bv16
    decreases n
  {
    if n == 0 then r else ShiftBits(ShiftBit(r), n - 1)
  }

  /** The reference: every bit of a byte through the shift register. */
  function ReferenceUpdate(r: bv16, byte: bv16): bv16 {
    ShiftBits(Xor(r, byte), 8)
  }

  function Widen(b: bv8): bv16 {
    b as bv16
  }

  /** A checksum: start from all ones, absorb every byte, no final complement. */
  ghost function Fold(f: (bv16, bv16) -> bv16, s: seq<bv8>): bv16 {
    if s == [] then 0xffff else f(Fold(f, s[..|s| - 1]), Widen(s[|s| - 1]))
  }

  // ---------------------------------------------------------------- the nibble trick

  function Linear(r: bv16): bv16 {
    (r >> 1) ^ ((r & 1) << 15) ^ ((r & 1) << 10) ^ ((r & 1) << 3)
  }

  function Linear2(r: bv16): bv16 {
    (r >> 2) ^ ((r & 3) << 14) ^ ((r & 3) << 9) ^ ((r & 3) << 2)
  }

  function Nibble(r: bv16): bv16 {
    (r >> 4) ^ ((r & 0xf) << 12) ^ ((r & 0xf) << 7) ^ (r & 0xf)
  }

  /** What Update does once the byte has been mixed into the register. */
  function Absorbed(r: bv16): bv16 {
    var mixed := r & 0xff;
    var data := (mixed ^ (mixed << 4)) & 0xff;
    ((data << 8) | (r >> 8)) ^ (data >> 4) ^ (data << 3)
  }

  lemma LinearEven(r: bv16)
    requires r & 1 == 0
    ensures Linear(r) == r >> 1
  {
  }

  lemma LinearOdd(r: bv16)
    requires r & 1 == 1
    ensures Linear(r) == (r >> 1) ^ 0x8408
  {
  }

  lemma LowBit(r: bv16)
    ensures r & 1 == 0 || r & 1 == 1
  {
  }

  lemma ShiftIsLinear(r: bv16)
    ensures ShiftBit(r) == Linear(r)
  {
    LowBit(r);
    if r & 1 == 1 {
      LinearOdd(r);
    } else {
      LinearEven(r);
    }
  }

  lemma LinearTwice(r: bv16)
    ensures Linear(Linear(r)) == Linear2(r)
  {
  }

  lemma LinearFourTimes(r: bv16)
    ensures Linear2(Linear2(r)) == Nibble(r)
  {
  }

  lemma TwoNibbles(r: bv16)
    ensures Nibble(Nibble(r)) == Absorbed(r)
  {
  }

  lemma ShiftFour(r: bv16, n: nat)
    ensures ShiftBits(r, n + 4) == ShiftBits(Nibble(r), n)
  {
    hide ShiftBit, Linear, Linear2, Nibble;
    var r1 := ShiftBit(r);
    var r2 := ShiftBit(r1);
    var r3 := ShiftBit(r2);
    var r4 := ShiftBit(r3);
    ShiftIsLinear(r);
    ShiftIsLinear(r1);
    ShiftIsLinear(r2);
    ShiftIsLinear(r3);
    LinearTwice(r);
    LinearTwice(r2);
    LinearFourTimes(r);
    assert ShiftBits(r, n + 4) == ShiftBits(r1, n + 3) == ShiftBits(r2, n + 2);
    assert ShiftBits(r2, n + 2) == ShiftBits(r3, n + 1) == ShiftBits(r4, n);
  }

  lemma UpdateAbsorbs(crc: bv16, x: bv16)
    ensures Update(crc, Low(x)) == Absorbed(Xor(crc, Low(x)))
  {
    hide Update, Absorbed;
    AbsorbsLowBits(crc, x);
  }

  lemma AbsorbsLowBits(crc: bv16, x: bv16)
    ensures Update(crc, x & 0xff) == Absorbed(crc ^ (x & 0xff))
  {
  }

  /** The nibble trick computes what eight single-bit steps compute. */
  lemma UpdateIsEightShifts(crc: bv16, byte: bv16)
    requires Low(byte) == byte
    ensures Update(crc, byte) == ReferenceUpdate(crc, byte)
  {
    hide Update, Absorbed, Nibble, Low, Xor;
    UpdateAbsorbs(crc, byte);
    TwoNibbles(Xor(crc, byte));
    ShiftFour(Xor(crc, byte), 4);
    ShiftFour(Nibble(Xor(crc, byte)), 0);
  }

  lemma HostUpdateAgrees(crc: bv16, byte: bv16)
    ensures HostUpdate(crc, byte) == Update(crc, byte)
  {
  }

  lemma WidenIsLow(b: bv8)
    ensures Low(Widen(b)) == Widen(b)
  {
  }

  lemma WidenInjective(a: bv8, b: bv8)
    requires Widen(a) == Widen(b)
    ensures a == b
  {
  }

  /** For every byte string the three forms give the same checksum. */
  lemma {:induction false} FoldsAgree(s: seq<bv8>)
    ensures Fold(Update, s) == Fold(ReferenceUpdate, s) == Fold(HostUpdate, s)
  {
    hide Update, HostUpdate, ReferenceUpdate, Widen, Low;
    if s != [] {
      var init, b := s[..|s| - 1], s[|s| - 1];
      FoldsAgree(init);
      WidenIsLow(b);
      UpdateIsEightShifts(Fold(Update, init), Widen(b));
      HostUpdateAgrees(Fold(Update, init), Widen(b));
    }
  }

  // ---------------------------------------------------------------- the loops

  /** crc16_ccitt on the micro-controller and in the bootloader. */
  method Compute(buf: seq<bv8>) returns (crc: bv16)
    ensures crc == Fold(ReferenceUpdate, buf)
  {
    hide Update, ReferenceUpdate, Widen;
    crc := 0xffff;
    for i := 0 to |buf|
      invariant crc == Fold(Update, buf[..i])
    {
      assert buf[..i + 1][..i] == buf[..i];
      crc := Update(crc, Widen(buf[i]));
    }
    assert buf[..|buf|] == buf;
    FoldsAgree(buf);
  }

  /** crc16_ccitt on the host. */
  method HostCompute(buf: seq<bv8>) returns (crc: bv16)
    ensures crc == Fold(ReferenceUpdate, buf)
  {
    hide HostUpdate, ReferenceUpdate, Widen;
    crc := 0xffff;
    for i := 0 to |buf|
      invariant crc == Fold(HostUpdate, buf[..i])
    {
      assert buf[..i + 1][..i] == buf[..i];
      crc := HostUpdate(crc, Widen(buf[i]));
    }
    assert buf[..|buf|] == buf;
    FoldsAgree(buf);
  }

  // ---------------------------------------------------------------- detection

  /** The low and the high half of the register before Absorbed. */
  function LowOf(r: bv16): bv16 {
    var data := (r >> 8) ^ (r >> 13);
    (data ^ (data << 4)) & 0xff
  }

  function HighOf(r: bv16): bv16 {
    var data := (r >> 8) ^ (r >> 13);
    (r ^ (data >> 4) ^ (data << 3)) & 0xff
  }

  lemma AbsorbedGivesLow(x: bv16)
    ensures LowOf(Absorbed(x)) == Low(x)
  {
  }

  lemma AbsorbedGivesHigh(x: bv16)
    ensures HighOf(Absorbed(x)) == High(x)
  {
  }

  lemma LowOfReadsHigh(r: bv16)
    ensures LowOf(r) == LowOf(Join(High(r), 0))
  {
  }

  lemma Halves(x: bv16)
    ensures Join(High(x), Low(x)) == x
  {
  }

  lemma XorLow(c: bv16, x: bv16)
    ensures High(Xor(c, Low(x))) == High(c)
  {
  }

  lemma XorBack(c: bv16, a: bv16)
    ensures Xor(c, Xor(c, a)) == a && Xor(Xor(c, a), a) == c
  {
  }

  /** Absorbing a byte loses nothing. */
  lemma UpdateInjective(c: bv16, a: bv16, d: bv16, b: bv16)
    requires Low(a) == a && Low(b) == b && Update(c, a) == Update(d, b)
    ensures Xor(c, a) == Xor(d, b) && High(c) == High(d)
  {
    hide Update, Absorbed, LowOf, HighOf, Low, High, Join, Xor;
    UpdateAbsorbs(c, a);
    UpdateAbsorbs(d, b);
    AbsorbedGivesLow(Xor(c, a));
    AbsorbedGivesLow(Xor(d, b));
    AbsorbedGivesHigh(Xor(c, a));
    AbsorbedGivesHigh(Xor(d, b));
    Halves(Xor(c, a));
    Halves(Xor(d, b));
    XorLow(c, a);
    XorLow(d, b);
  }

  /** The high half of the register identifies the byte just absorbed. */
  lemma HighIdentifiesByte(c: bv16, a: bv16, b: bv16)
    requires Low(a) == a && Low(b) == b && High(Update(c, a)) == High(Update(c, b))
    ensures a == b
  {
    hide Update, Absorbed, LowOf, Low, High, Join, Xor;
    UpdateAbsorbs(c, a);
    UpdateAbsorbs(c, b);
    LowOfReadsHigh(Update(c, a));
    LowOfReadsHigh(Update(c, b));
    AbsorbedGivesLow(Xor(c, a));
    AbsorbedGivesLow(Xor(c, b));
    XorLow(c, a);
    XorLow(c, b);
    Halves(Xor(c, a));
    Halves(Xor(c, b));
    XorBack(c, a);
    XorBack(c, b);
  }

  lemma {:induction false} SuffixIsInjective(s: seq<bv8>, t: seq<bv8>, v: seq<bv8>)
    requires Fold(Update, s + v) == Fold(Update, t + v)
    ensures Fold(Update, s) == Fold(Update, t)
  {
    hide Update, Widen, Low, High, Xor;
    if v == [] {
      assert s + v == s && t + v == t;
    } else {
      var init, b := v[..|v| - 1], v[|v| - 1];
      assert (s + v)[..|s + v| - 1] == s + init && (t + v)[..|t + v| - 1] == t + init;
      WidenIsLow(b);
      var c, d := Fold(Update, s + init), Fold(Update, t + init);
      UpdateInjective(c, Widen(b), d, Widen(b));
      XorBack(c, Widen(b));
      XorBack(d, Widen(b));
      SuffixIsInjective(s, t, init);
    }
  }

  lemma FoldPair(u: seq<bv8>, a: bv8, b: bv8)
    ensures Fold(Update, u + [a, b]) == Update(Update(Fold(Update, u), Widen(a)), Widen(b))
  {
    hide Update, Widen;
    assert (u + [a, b])[..|u| + 1] == u + [a];
    assert (u + [a])[..|u|] == u;
  }

  lemma PairIdentified(c: bv16, a: bv16, b: bv16, a': bv16, b': bv16)
    requires Low(a) == a && Low(b) == b && Low(a') == a' && Low(b') == b'
    requires Update(Update(c, a), b) == Update(Update(c, a'), b')
    ensures a == a' && b == b'
  {
    hide Update, Low, High, Xor;
    UpdateInjective(Update(c, a), b, Update(c, a'), b');
    HighIdentifiesByte(c, a, a');
    XorBack(Update(c, a), b);
    XorBack(Update(c, a), b');
  }

  /** Two strings that differ only within two neighbouring bytes never share a checksum. */
  lemma DetectsTwoBytes(u: seq<bv8>, a: bv8, b: bv8, a': bv8, b': bv8, v: seq<bv8>)
    requires Fold(Update, u + [a, b] + v) == Fold(Update, u + [a', b'] + v)
    ensures a == a' && b == b'
  {
    hide Update, Widen, Fold, Low;
    SuffixIsInjective(u + [a, b], u + [a', b'], v);
    FoldPair(u, a, b);
    FoldPair(u, a', b');
    WidenIsLow(a);
    WidenIsLow(b);
    WidenIsLow(a');
    WidenIsLow(b');
    PairIdentified(Fold(Update, u), Widen(a), Widen(b), Widen(a'), Widen(b'));
    WidenInjective(a, a');
    WidenInjective(b, b');
  }

  // ---------------------------------------------------------------- one checksum worked out

  lemma FirstByte()
    ensures Update(0xffff, 0x05) == 0x582a
  {
  }

  lemma SecondByte()
    ensures Update(0x582a, 0x10) == 0x9e81
  {
  }

  /** The checksum of an empty block with sequence number zero. */
  lemma EmptyBlock()
    ensures Fold(ReferenceUpdate, [0x05, 0x10]) == 0x9e81
  {
    hide Update, ReferenceUpdate;
    var s: seq<bv8> := [0x05, 0x10];
    FoldsAgree(s);
    assert s == [] + [0x05, 0x10];
    FoldPair([], 0x05, 0x10);
    assert Widen(0x05) == 0x05 && Widen(0x10) == 0x10;
    FirstByte();
    SecondByte();
  }
}
