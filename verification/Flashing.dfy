/**
 Updating a micro-controller over the serial bootloader: the device's erase and program handlers on
 flash memory, and the host's update loop over a link that may lose requests or answers.
 */
module Flashing {
  import opened Numbers

  const PACKAGE := 1024
  const CHUNK := 4096
  const MAX_DATA := 4096 - 12  // a payload less the request header
  const BLANK: bv8 := 0xff

  /** Whole words of four bytes, at most and at least n bytes. */
  function RoundDown(n: nat): (m: nat)
    ensures m <= n < m + 4 && m % 4 == 0
  {
    n / 4 * 4
  }

  function RoundUp(n: nat): (m: nat)
    ensures n <= m < n + 4 && m % 4 == 0
  {
    if RoundDown(n) == n then n else RoundDown(n) + 4
  }

  // ---------------------------------------------------------------- the last, partial word

  /** One pass of the loop that merges the trailing bytes into a word. */
  function Merge(word: bv32, i: nat, d: bv8): bv32
    requires i < 3
  {
    word & (!((0xff as bv32) << (3 - i)) | ((d as bv32) << (8 * i)))
  }

  /** The three masks on an erased word, bit by bit. */
  lemma MergeOnBlank(d: bv8)
    ensures Merge(0xffff_ffff, 0, d) == 0xffff_f807 | (d as bv32)
    ensures Merge(0xffff_ffff, 1, d) == 0xffff_fc03 | ((d as bv32) << 8)
    ensures Merge(0xffff_ffff, 2, d) == 0xffff_fe01 | ((d as bv32) << 16)
  {
  }

  function MergeAll(word: bv32, data: seq<bv8>): bv32
    requires |data| <= 3
  {
    if data == [] then word
    else Merge(MergeAll(word, data[..|data| - 1]), |data| - 1, data[|data| - 1])
  }

  /** Byte j of a little-endian word. */
  function ByteOf(word: bv32, j: nat): bv8
    requires j < 4
  {
    var shifted := if j == 0 then word else if j == 1 then word >> 8 else if j == 2 then word >> 16 else word >> 24;
    (shifted & 0xff) as bv8
  }

  function Split(word: bv32): (bs: seq<bv8>)
    ensures |bs| == 4
  {
    [ByteOf(word, 0), ByteOf(word, 1), ByteOf(word, 2), ByteOf(word, 3)]
  }

  /** What lands in an erased word for one to three trailing bytes. */
  function TailBytes(data: seq<bv8>): (bs: seq<bv8>)
    requires |data| <= 3
    ensures |bs| == 4
  {
    Split(MergeAll(0xffff_ffff, data))
  }

  /** The trailing bytes that survive the merge: its masks shift by bits, not by bytes. */
  predicate TailHolds(data: seq<bv8>)
    requires |data| <= 3
  {
    match |data|
    case 0 => true
    case 1 => data[0] & 7 == 7
    case 2 => data == [0x03, 0xf8]
    case 3 => data == [0x01, 0xf8, 0xff]
  }

  lemma OneByte(d: bv8)
    ensures var w := Merge(0xffff_ffff, 0, d);
            && w == (0xffff_f807 as bv32) | (d as bv32)
            && ByteOf(w, 0) == d | 7
  {
  }

  lemma TwoBytes(d: bv8, e: bv8)
    ensures var w := Merge(Merge(0xffff_ffff, 0, d), 1, e);
            w == 0xffff_f803 && ByteOf(w, 0) == 0x03 && ByteOf(w, 1) == 0xf8
  {
  }

  lemma ThreeBytes(f: bv8)
    ensures var w := Merge(0xffff_f803, 2, f);
            ByteOf(w, 0) == 0x01 && ByteOf(w, 1) == 0xf8 && ByteOf(w, 2) == 0xff
  {
  }

  /** The trailing bytes read back as sent exactly when they are one of the surviving patterns. */
  lemma TailReadsBackIff(data: seq<bv8>)
    requires 0 < |data| <= 3
    ensures TailBytes(data)[..|data|] == data <==> TailHolds(data)
  {
    hide Merge, ByteOf;
    var a := data[0];
    assert MergeAll(0xffff_ffff, [a]) == Merge(0xffff_ffff, 0, a) by {
      assert [a][..0] == [];
    }
    OneByte(a);
    if |data| == 1 {
      assert data == [a];
      OrKeepsIff(a);
    } else {
      var b := data[1];
      assert MergeAll(0xffff_ffff, [a, b]) == Merge(Merge(0xffff_ffff, 0, a), 1, b) by {
        assert [a, b][..1] == [a];
      }
      TwoBytes(a, b);
      if |data| == 2 {
        assert data == [a, b];
      } else {
        var c := data[2];
        assert data == [a, b, c] && data[..2] == [a, b];
        ThreeBytes(c);
      }
    }
  }

  lemma OrKeepsIff(d: bv8)
    ensures d | 7 == d <==> d & 7 == 7
  {
  }

  // ---------------------------------------------------------------- flash memory

  /** Programming can only clear bits. */
  function Burn(old_: bv8, new_: bv8): (r: bv8)
    ensures old_ == BLANK ==> r == new_
    ensures r & old_ == r && r & new_ == r
  {
    old_ & new_
  }

  function Burned(cells: seq<bv8>, at: nat, bs: seq<bv8>): (t: seq<bv8>)
    requires at + |bs| <= |cells|
    ensures |t| == |cells|
    ensures forall i :: 0 <= i < |cells| ==>
      t[i] == if at <= i < at + |bs| then Burn(cells[i], bs[i - at]) else cells[i]
  {
    seq(|cells|, i requires 0 <= i < |cells| =>
      if at <= i < at + |bs| then Burn(cells[i], bs[i - at]) else cells[i])
  }

  ghost predicate Erased(cells: seq<bv8>, from: nat, to: nat) {
    to <= |cells| && forall i :: from <= i < to ==> cells[i] == BLANK
  }

  lemma BurnErased(cells: seq<bv8>, at: nat, bs: seq<bv8>, to: nat)
    requires Erased(cells, at, to) && at + |bs| <= to
    ensures var t := Burned(cells, at, bs);
            && t[..at + |bs|] == cells[..at] + bs
            && Erased(t, at + |bs|, to)
  {
    hide Burn;
  }

  lemma BurnInParts(cells: seq<bv8>, at: nat, a: seq<bv8>, b: seq<bv8>)
    requires at + |a| + |b| <= |cells|
    ensures Burned(Burned(cells, at, a), at + |a|, b) == Burned(cells, at, a + b)
  {
    hide Burn;
  }

  /** The little-endian word stored at an address. */
  function WordAt(cells: seq<bv8>, at: nat): bv32
    requires at + 4 <= |cells|
  {
    Joined(cells[at], cells[at + 1], cells[at + 2], cells[at + 3])
  }

  /** A word and its four bytes. */
  lemma WordHoldsBytes(cells: seq<bv8>, at: nat)
    requires at + 4 <= |cells|
    ensures Split(WordAt(cells, at)) == cells[at..at + 4]
  {
    hide ByteOf;
    var a, b, c, e := cells[at], cells[at + 1], cells[at + 2], cells[at + 3];
    FirstByte(a, b, c, e);
    SecondByte(a, b, c, e);
    ThirdByte(a, b, c, e);
    FourthByte(a, b, c, e);
  }

  /** The word of four bytes, lowest first. */
  function Joined(a: bv8, b: bv8, c: bv8, e: bv8): bv32 {
    (a as bv32) | ((b as bv32) << 8) | ((c as bv32) << 16) | ((e as bv32) << 24)
  }

  lemma FirstByte(a: bv8, b: bv8, c: bv8, e: bv8)
    ensures ByteOf(Joined(a, b, c, e), 0) == a
  {
  }

  lemma SecondByte(a: bv8, b: bv8, c: bv8, e: bv8)
    ensures ByteOf(Joined(a, b, c, e), 1) == b
  {
  }

  lemma ThirdByte(a: bv8, b: bv8, c: bv8, e: bv8)
    ensures ByteOf(Joined(a, b, c, e), 2) == c
  {
  }

  lemma FourthByte(a: bv8, b: bv8, c: bv8, e: bv8)
    ensures ByteOf(Joined(a, b, c, e), 3) == e
  {
  }

  /** The words a program request writes: whole words as sent, the last one merged. */
  function Laid(cells: seq<bv8>, at: nat, d: seq<bv8>): (bs: seq<bv8>)
    requires at + RoundUp(|d|) <= |cells|
    ensures |bs| == RoundUp(|d|)
  {
    var n := RoundDown(|d|);
    if n == |d| then d else d[..n] + Split(MergeAll(WordAt(cells, at + n), d[n..]))
  }

  /** The words of an image as they arrive in erased flash. */
  function Final(image: seq<bv8>): (bs: seq<bv8>)
    ensures |bs| == RoundUp(|image|)
  {
    var n := RoundDown(|image|);
    if n == |image| then image else image[..n] + TailBytes(image[n..])
  }

  /** The device ends up with the image exactly when its odd bytes survive the merge. */
  lemma FinalIsImageIff(image: seq<bv8>)
    ensures Final(image)[..|image|] == image <==> TailHolds(image[RoundDown(|image|)..])
  {
    hide TailBytes;
    var n := RoundDown(|image|);
    var tail := image[n..];
    if n < |image| {
      TailReadsBackIff(tail);
      assert image == image[..n] + tail;
      assert Final(image)[..|image|] == image[..n] + TailBytes(tail)[..|tail|];
      assert (image[..n] + TailBytes(tail)[..|tail|])[n..] == TailBytes(tail)[..|tail|];
    }
  }

  /** The shortest odd image that does not survive: a single zero byte reads back as seven. */
  lemma OddImageIsLost()
    ensures Final([0x00])[..1] != [0x00]
  {
    hide TailBytes;
    assert [0x00][RoundDown(|[0x00 as bv8]|)..] == [0x00 as bv8];
    FinalIsImageIff([0x00]);
  }

  lemma ErasedWord(cells: seq<bv8>, at: nat)
    requires at + 4 <= |cells| && Erased(cells, at, at + 4)
    ensures WordAt(cells, at) == 0xffff_ffff
  {
    assert cells[at] == BLANK && cells[at + 1] == BLANK && cells[at + 2] == BLANK && cells[at + 3] == BLANK;
  }

  lemma LaidOnErased(cells: seq<bv8>, at: nat, d: seq<bv8>)
    requires at + RoundUp(|d|) <= |cells| && Erased(cells, at, at + RoundUp(|d|))
    ensures Laid(cells, at, d) == Final(d)
  {
    hide WordAt, Split;
    if RoundDown(|d|) < |d| {
      ErasedWord(cells, at + RoundDown(|d|));
    }
  }

  function Sum(pages: seq<nat>): nat {
    if pages == [] then 0 else Sum(pages[..|pages| - 1]) + pages[|pages| - 1]
  }

  lemma {:induction false} SumOfPrefix(pages: seq<nat>, k: nat)
    requires k <= |pages|
    ensures Sum(pages[..k]) <= Sum(pages)
    decreases |pages|
  {
    if k == |pages| {
      assert pages[..k] == pages;
    } else {
      SumOfPrefix(pages[..|pages| - 1], k);
      assert pages[..|pages| - 1][..k] == pages[..k];
    }
  }

  lemma SumOfNext(pages: seq<nat>, k: nat)
    requires k < |pages|
    ensures Sum(pages[..k + 1]) == Sum(pages[..k]) + pages[k]
  {
    assert pages[..k + 1][..k] == pages[..k];
  }

  /** The first k pages, and no fewer, cover a size. */
  ghost predicate LastPage(pages: seq<nat>, size: nat, k: nat, covered: nat) {
    k <= |pages| && covered == Sum(pages[..k]) && (k > 0 ==> Sum(pages[..k - 1]) < size)
  }

  lemma NoPage(pages: seq<nat>, size: nat)
    ensures LastPage(pages, size, 0, 0)
  {
  }

  /** While the size is not covered there is another page, and it fits. */
  lemma NextPage(pages: seq<nat>, size: nat, k: nat, covered: nat)
    requires LastPage(pages, size, k, covered) && covered < size <= Sum(pages)
    ensures k < |pages| && covered + pages[k] <= Sum(pages) && LastPage(pages, size, k + 1, covered + pages[k])
  {
    assert pages[..|pages|] == pages;
    SumOfNext(pages, k);
    SumOfPrefix(pages, k + 1);
  }

  lemma {:induction false} SumOfWords(pages: seq<nat>)
    requires forall k :: 0 <= k < |pages| ==> pages[k] % 4 == 0
    ensures Sum(pages) % 4 == 0
    decreases |pages|
  {
    if pages != [] {
      SumOfWords(pages[..|pages| - 1]);
    }
  }

  lemma CoversWords(pages: seq<nat>, size: nat, k: nat, covered: nat)
    requires LastPage(pages, size, k, covered) && forall k :: 0 <= k < |pages| ==> pages[k] % 4 == 0
    ensures covered % 4 == 0
  {
    SumOfWords(pages[..k]);
  }

  /** The application area of a device's flash. */
  class Flash {
    const cells: array<bv8>
    const pages: seq<nat>  // page sizes from the start of the area

    ghost predicate Valid() {
      && (forall k :: 0 <= k < |pages| ==> pages[k] > 0 && pages[k] % 4 == 0)
      && cells.Length == Sum(pages)
    }

    ghost function Bytes(): (c: seq<bv8>)
      reads cells
      ensures |c| == cells.Length
    {
      cells[..]
    }

    constructor (pages: seq<nat>)
      requires forall k :: 0 <= k < |pages| ==> pages[k] > 0 && pages[k] % 4 == 0
      ensures Valid() && fresh(cells) && this.pages == pages
    {
      this.pages := pages;
      cells := new bv8[Sum(pages)](_ => 0);
    }

    /** flash_erase_pages, for one page */
    method ErasePage(from: nat, to: nat)
      requires from <= to <= cells.Length
      modifies cells
      ensures forall i :: 0 <= i < cells.Length ==> cells[i] == if from <= i < to then BLANK else old(cells[i])
    {
      forall i | from <= i < to {
        cells[i] := BLANK;
      }
    }

    /** The erase handler: whole pages until the requested size is covered; a size too large is nothing. */
    method Erase(request: nat) returns (acked: nat)
      requires Valid()
      modifies cells
      ensures var size := if request > cells.Length then 0 else request;
              && size <= acked <= cells.Length && acked % 4 == 0 && (size == 0 ==> acked == 0)
              && exists k: nat :: LastPage(pages, size, k, acked)
      ensures Erased(Bytes(), 0, acked)
      ensures Bytes()[acked..] == old(Bytes())[acked..]
    {
      var size := if request > cells.Length then 0 else request;
      var k: nat := 0;
      acked := 0;
      NoPage(pages, size);
      hide LastPage, Sum;
      while acked < size
        invariant acked <= cells.Length && (size == 0 ==> acked == 0)
        invariant LastPage(pages, size, k, acked)
        invariant forall i :: 0 <= i < acked ==> cells[i] == BLANK
        invariant forall i :: acked <= i < cells.Length ==> cells[i] == old(cells[i])
        decreases cells.Length - acked
      {
        NextPage(pages, size, k, acked);
        var start := acked;
        acked := acked + pages[k];
        ErasePage(start, acked);
        k := k + 1;
      }
      CoversWords(pages, size, k, acked);
    }

    /** flash_word_program, word after word */
    method ProgramWords(at: nat, data: seq<bv8>)
      requires at + |data| <= cells.Length && |data| % 4 == 0
      modifies cells
      ensures Bytes() == Burned(old(Bytes()), at, data)
    {
      hide Burn;
      var i: nat := 0;
      while i < |data|
        invariant i <= |data| && i % 4 == 0
        invariant forall j :: 0 <= j < cells.Length ==>
          cells[j] == if at <= j < at + i then Burn(old(cells[j]), data[j - at]) else old(cells[j])
      {
        forall j | at + i <= j < at + i + 4 {
          cells[j] := Burn(cells[j], data[j - at]);
        }
        i := i + 4;
      }
    }

    /** The program handler; a request that does not fit the image size it names writes nothing. */
    method Program(offset: nat, length: nat, size: nat, data: seq<bv8>) returns (acked: nat)
      requires Valid() && offset % 4 == 0
      requires Accepted(offset, length, size) <= |data| <= MAX_DATA
      requires offset + RoundUp(Accepted(offset, length, size)) <= cells.Length
      modifies cells
      ensures var len := Accepted(offset, length, size);
              acked == RoundUp(len) && Bytes() == Burned(old(Bytes()), offset, Laid(old(Bytes()), offset, data[..len]))
      ensures offset + length <= size < WORD ==> length <= acked < length + 4
      ensures size < offset + length < WORD ==> acked == 0 && Bytes() == old(Bytes())
    {
      hide Burned, WordAt, MergeAll, Split, RoundUp, RoundDown, Accepted;
      var len := Accepted(offset, length, size);
      var words := len / 4 % 0x1_0000;
      var whole := 4 * words;
      WholeWords(len);
      AcceptedMeans(offset, length, size);
      if len == 0 {
        BurnNothing(Bytes(), offset);
      }
      ProgramWords(offset, data[..whole]);
      acked := whole;
      if whole < len {
        ghost var bytes := data[..len];
        ProgramTail(offset + whole, data[whole..len], old(Bytes()), offset, data[..whole]);
        acked := acked + 4;
        assert bytes[..whole] == data[..whole] && bytes[whole..] == data[whole..len];
      }
    }

    /** The partial word: read, merge, write back. */
    method ProgramTail(at: nat, tail: seq<bv8>, ghost before: seq<bv8>, ghost offset: nat, ghost head: seq<bv8>)
      requires 0 < |tail| <= 3 && at + 4 <= cells.Length
      requires offset + |head| == at && |before| == cells.Length && Bytes() == Burned(before, offset, head)
      modifies cells
      ensures Bytes() == Burned(before, offset, head + Split(MergeAll(WordAt(before, at), tail)))
    {
      hide WordAt, Split, Merge, Burn;
      var word := WordAt(cells[..], at);
      SameWord(before, Bytes(), at);
      var i := 0;
      while i < |tail|
        invariant i <= |tail| && word == MergeAll(WordAt(before, at), tail[..i])
      {
        assert tail[..i + 1][..i] == tail[..i];
        word := Merge(word, i, tail[i]);
        i := i + 1;
      }
      assert tail[..i] == tail;
      BurnInParts(before, offset, head, Split(word));
      ProgramWords(at, Split(word));
    }
  }

  /** The device takes a request that ends within the image, and no other, as long as the sum does not wrap. */
  lemma AcceptedMeans(offset: nat, length: nat, size: nat)
    ensures offset + length <= size < WORD ==> Accepted(offset, length, size) == length
    ensures size < offset + length < WORD ==> Accepted(offset, length, size) == 0
  {
  }

  lemma BurnNothing(cells: seq<bv8>, at: nat)
    requires at <= |cells|
    ensures Burned(cells, at, []) == cells
  {
  }

  lemma WholeWords(len: nat)
    requires len <= MAX_DATA
    ensures 4 * (len / 4 % 0x1_0000) == RoundDown(len)
    ensures RoundUp(len) == if RoundDown(len) < len then RoundDown(len) + 4 else RoundDown(len)
  {
  }

  lemma SameWord(a: seq<bv8>, b: seq<bv8>, at: nat)
    requires |a| == |b| && at + 4 <= |a| && forall i :: at <= i < at + 4 ==> a[i] == b[i]
    ensures WordAt(a, at) == WordAt(b, at)
  {
  }

  /** How much of a program request the device accepts; the sum is 32-bit. */
  function Accepted(offset: nat, length: nat, size: nat): (len: nat)
    ensures len <= length
  {
    if (offset + length) % WORD > size then 0 else length
  }

  // ---------------------------------------------------------------- the host

  /** What becomes of one exchange. */
  datatype Outcome = Acked | RequestLost | AckLost

  /** The first k bytes have arrived; the rest of the image's words are still erased. */
  ghost predicate Progress(cells: seq<bv8>, image: seq<bv8>, k: nat) {
    && k % 4 == 0
    && k <= RoundUp(|image|) <= |cells|
    && cells[..k] == Final(image)[..k]
    && Erased(cells, k, RoundUp(|image|))
  }

  lemma RoundBehind(offset: nat, len: nat)
    requires offset % 4 == 0
    ensures RoundDown(offset + len) == offset + RoundDown(len)
    ensures RoundUp(offset + len) == offset + RoundUp(len)
  {
    hide RoundDown, RoundUp;
    Multiples(offset, RoundDown(len));
    SameMultiple(RoundDown(offset + len), offset + RoundDown(len));
    Multiples(offset, RoundUp(len));
    SameMultiple(RoundUp(offset + len), offset + RoundUp(len));
  }

  lemma Multiples(a: nat, b: nat)
    requires a % 4 == 0 && b % 4 == 0
    ensures (a + b) % 4 == 0
  {
  }

  lemma SameMultiple(a: int, b: int)
    requires a % 4 == 0 && b % 4 == 0 && -4 < a - b < 4
    ensures a == b
  {
  }

  lemma RoundIsMonotonic(a: nat, b: nat)
    requires a <= b
    ensures RoundDown(a) <= RoundDown(b) && RoundUp(a) <= RoundUp(b)
    ensures a % 4 == 0 ==> RoundDown(a) == a == RoundUp(a)
  {
    hide RoundDown, RoundUp;
    NextMultiple(RoundDown(b), RoundDown(a));
    NextMultiple(RoundUp(b), RoundUp(a));
    if a % 4 == 0 {
      SameMultiple(RoundDown(a), a);
      SameMultiple(RoundUp(a), a);
    }
  }

  lemma NextMultiple(a: nat, b: nat)
    requires a % 4 == 0 && b % 4 == 0
    ensures a < b ==> a + 4 <= b
  {
  }

  /** The words of a packet are the words of the image at its offset. */
  lemma FinalOfPacket(image: seq<bv8>, offset: nat, len: nat)
    requires offset % 4 == 0 && offset + len <= |image|
    requires len % 4 == 0 || offset + len == |image|
    ensures offset + RoundUp(len) <= RoundUp(|image|)
    ensures Final(image[offset..offset + len]) == Final(image)[offset..offset + RoundUp(len)]
  {
    hide Final, RoundDown, RoundUp;
    RoundBehind(offset, len);
    RoundIsMonotonic(offset + len, |image|);
    if len % 4 == 0 {
      RoundIsMonotonic(len, len);
      RoundIsMonotonic(offset + len, offset + len);
      InnerPacket(image, offset, len);
    } else {
      LastPacket(image, offset);
      assert image[offset..offset + len] == image[offset..];
      assert Final(image)[offset..offset + RoundUp(len)] == Final(image)[offset..];
    }
  }

  lemma InnerPacket(image: seq<bv8>, offset: nat, len: nat)
    requires offset + len <= RoundDown(|image|) && RoundDown(len) == len
    ensures Final(image[offset..offset + len]) == image[offset..offset + len] == Final(image)[offset..offset + len]
  {
    hide TailBytes, RoundDown, RoundUp;
    assert Final(image)[..RoundDown(|image|)] == image[..RoundDown(|image|)];
    assert Final(image)[offset..offset + len] == Final(image)[..RoundDown(|image|)][offset..offset + len];
    assert image[offset..offset + len] == image[..RoundDown(|image|)][offset..offset + len];
  }

  lemma LastPacket(image: seq<bv8>, offset: nat)
    requires offset <= RoundDown(|image|) < |image|
    requires RoundDown(|image|) == offset + RoundDown(|image| - offset)
    ensures Final(image[offset..]) == Final(image)[offset..]
  {
    hide TailBytes, RoundDown, RoundUp;
    var n := RoundDown(|image|);
    SliceBehind(image, offset, n);
    SumBehind(image[..n], TailBytes(image[n..]), offset);
  }

  lemma SliceBehind(s: seq<bv8>, from: nat, n: nat)
    requires from <= n <= |s|
    ensures s[from..][n - from..] == s[n..] && s[from..][..n - from] == s[..n][from..]
  {
  }

  lemma SumBehind(a: seq<bv8>, b: seq<bv8>, from: nat)
    requires from <= |a|
    ensures (a + b)[from..] == a[from..] + b
  {
  }

  /** Programming the next packet into erased flash advances the progress by its words. */
  lemma PacketAdvances(cells: seq<bv8>, image: seq<bv8>, offset: nat, len: nat)
    requires Progress(cells, image, offset) && offset + len <= |image|
    requires len % 4 == 0 || offset + len == |image|
    requires offset + RoundUp(len) <= |cells|
    ensures var d := image[offset..offset + len];
            Progress(Burned(cells, offset, Laid(cells, offset, d)), image, offset + RoundUp(len))
  {
    hide Final, Laid, Burned, RoundUp;
    var d := image[offset..offset + len];
    FinalOfPacket(image, offset, len);
    LaidOnErased(cells, offset, d);
    BurnErased(cells, offset, Final(d), RoundUp(|image|));
    assert Final(image)[..offset + RoundUp(len)] ==
           Final(image)[..offset] + Final(image)[offset..offset + RoundUp(len)];
  }

  class Host {
    const flash: Flash
    const link: nat -> Outcome
    var exchanges: nat

    constructor (flash: Flash, link: nat -> Outcome)
      ensures this.flash == flash && this.link == link && exchanges == 0
    {
      this.flash, this.link, exchanges := flash, link, 0;
    }

    method EraseFlash(size: nat) returns (ok: bool)
      requires flash.Valid()
      modifies this, flash.cells
      ensures ok ==> size <= flash.cells.Length && Erased(flash.Bytes(), 0, RoundUp(size))
      ensures flash.Bytes() == old(flash.Bytes()) || Erased(flash.Bytes(), 0, RoundUp(size))
      ensures link(old(exchanges)).Acked? ==> (ok <==> size <= flash.cells.Length)
      ensures exchanges == old(exchanges) + 1
    {
      var outcome := link(exchanges);
      exchanges := exchanges + 1;
      if outcome.RequestLost? {
        return false;
      }
      var acked := flash.Erase(size);
      ok := outcome.Acked? && size <= acked;
    }

    method ProgramFlash(image: seq<bv8>, offset: nat, length: nat) returns (plen: nat)
      requires flash.Valid() && |image| < WORD && length <= CHUNK
      requires offset <= |image| && (length % 4 == 0 || offset + length >= |image|)
      requires Progress(flash.Bytes(), image, offset)
      modifies this, flash.cells
      ensures var next := offset + RoundUp(PacketLength(length, |image| - offset));
              && (plen == next - offset || plen == 0)
              && (plen > 0 ==> Progress(flash.Bytes(), image, next))
              && (Progress(flash.Bytes(), image, offset) || Progress(flash.Bytes(), image, next))
              && (link(old(exchanges)).Acked? ==> plen == next - offset)
      ensures exchanges == old(exchanges) + 1
    {
      hide Progress, RoundUp;
      var len := if offset + length > |image| then |image| - offset else length;
      len := if len > PACKAGE then PACKAGE else len;
      assert len == PacketLength(length, |image| - offset);
      var outcome := link(exchanges);
      exchanges := exchanges + 1;
      if outcome.RequestLost? {
        return 0;
      }
      ProgressIsAligned(flash.Bytes(), image, offset);
      var acked := Deliver(image, offset, len);
      plen := if outcome.Acked? then acked else 0;
    }

    /** Every exchange gets through. */
    ghost predicate Reliable() {
      forall n: nat :: link(n).Acked?
    }

    ghost predicate Partly(image: seq<bv8>)
      reads flash.cells
    {
      exists k: nat :: Progress(flash.Bytes(), image, k)
    }

    /** The inner loop of the update: packets until the end of the chunk is reached. */
    method WriteChunk(image: seq<bv8>, from: nat, to: nat) returns (ok: bool)
      requires flash.Valid() && |image| < WORD && from <= to <= |image| && to - from <= CHUNK
      requires to % 4 == 0 || to == |image|
      requires Progress(flash.Bytes(), image, from)
      modifies this, flash.cells
      ensures ok ==> from < to && Progress(flash.Bytes(), image, RoundUp(to))
      ensures Partly(image)
      ensures Reliable() && from < to ==> ok
    {
      hide Progress, RoundUp, PacketLength;
      var start := from;
      var more := true;
      while more
        invariant from <= start <= RoundUp(to) && Progress(flash.Bytes(), image, start)
        invariant more ==> start <= to && (from < to ==> start < to)
        invariant !more ==> from < to && start == RoundUp(to)
        decreases more, RoundUp(to) - start
      {
        ProgressIsAligned(flash.Bytes(), image, start);
        PacketReach(start, to, |image|);
        var plen := ProgramFlash(image, start, to - start);
        if plen <= 0 {
          return false;
        }
        start := start + plen;
        more := start < to;
      }
      ok := true;
    }

    /** The update of a device with an image: erase, then chunk after chunk. */
    method Update(image: seq<bv8>) returns (ok: bool)
      requires flash.Valid() && |image| < WORD
      modifies this, flash.cells
      ensures ok ==> 0 < |image| <= flash.cells.Length && Final(image) <= flash.Bytes()
      ensures ok ==> (flash.Bytes()[..|image|] == image <==> TailHolds(image[RoundDown(|image|)..]))
      ensures flash.Bytes() == old(flash.Bytes()) || NowhereWrong(flash.Bytes(), image)
      ensures Reliable() ==> (ok <==> 0 < |image| <= flash.cells.Length)
    {
      hide Progress;
      ok := EraseFlash(|image|);
      if Erased(flash.Bytes(), 0, RoundUp(|image|)) {
        NothingYet(flash.Bytes(), image);
        NeverWrong(flash.Bytes(), image, 0);
      }
      if !ok {
        return;
      }
      var foffset: nat := 0;
      var more := true;
      while more
        invariant foffset <= |image| && Progress(flash.Bytes(), image, RoundUp(foffset))
        invariant more ==> foffset % 4 == 0 && (|image| > 0 ==> foffset < |image|)
        invariant !more ==> 0 < |image| == foffset
        decreases more, |image| - foffset
      {
        var flength := Min(CHUNK, |image| - foffset);
        ok := WriteChunk(image, foffset, foffset + flength);
        if !ok {
          ghost var k: nat :| Progress(flash.Bytes(), image, k);
          NeverWrong(flash.Bytes(), image, k);
          return;
        }
        foffset := foffset + flength;
        more := foffset < |image|;
      }
      Finished(flash.Bytes(), image);
    }

    /** The request as the device sees it. */
    method Deliver(image: seq<bv8>, offset: nat, len: nat) returns (acked: nat)
      requires flash.Valid() && |image| < WORD && len <= PACKAGE && offset + len <= |image|
      requires len % 4 == 0 || offset + len == |image|
      requires Progress(flash.Bytes(), image, offset)
      modifies flash.cells
      ensures acked == RoundUp(len) && Progress(flash.Bytes(), image, offset + RoundUp(len))
    {
      hide Progress, Burned, Laid, Final, RoundUp;
      var data := image[offset..offset + len];
      ProgressIsAligned(flash.Bytes(), image, offset);
      FinalOfPacket(image, offset, len);
      PacketAdvances(flash.Bytes(), image, offset, len);
      assert data[..len] == data;
      acked := flash.Program(offset, len, |image|, data);
    }
  }

  function PacketLength(length: nat, left: nat): nat {
    Min(Min(length, left), PACKAGE)
  }

  /** A packet stops short of the end of its chunk, or at the word that completes it. */
  lemma PacketReach(start: nat, to: nat, size: nat)
    requires start % 4 == 0 && start <= to <= size
    ensures var next := start + RoundUp(PacketLength(to - start, size - start));
            && (start < to ==> start < next) && (start == to ==> next == start)
            && (next < to || next == RoundUp(to))
  {
    var len := PacketLength(to - start, size - start);
    RoundBehind(start, len);
    if len == PACKAGE {
      RoundIsMonotonic(len, len);
      RoundIsMonotonic(start + len, to);
    }
  }

  lemma ProgressIsAligned(cells: seq<bv8>, image: seq<bv8>, k: nat)
    requires Progress(cells, image, k)
    ensures k % 4 == 0 && k <= RoundUp(|image|) <= |cells|
  {
  }

  lemma NothingYet(cells: seq<bv8>, image: seq<bv8>)
    requires Erased(cells, 0, RoundUp(|image|))
    ensures Progress(cells, image, 0)
  {
  }

  /** Every byte of the image's whole words is the image's or still erased. */
  ghost predicate NowhereWrong(cells: seq<bv8>, image: seq<bv8>) {
    && |image| <= |cells|
    && forall i :: 0 <= i < RoundDown(|image|) ==> cells[i] == image[i] || cells[i] == BLANK
  }

  lemma NeverWrong(cells: seq<bv8>, image: seq<bv8>, k: nat)
    requires Progress(cells, image, k)
    ensures NowhereWrong(cells, image)
  {
    hide TailBytes;
    forall i | 0 <= i < RoundDown(|image|)
      ensures cells[i] == image[i] || cells[i] == BLANK
    {
      if i < k {
        assert cells[i] == cells[..k][i] == Final(image)[..k][i] == Final(image)[i];
      }
    }
  }

  lemma Finished(cells: seq<bv8>, image: seq<bv8>)
    requires Progress(cells, image, RoundUp(|image|))
    ensures Final(image) <= cells && NowhereWrong(cells, image)
    ensures cells[..|image|] == image <==> TailHolds(image[RoundDown(|image|)..])
  {
    hide Final, TailHolds;
    FinalIsImageIff(image);
    NeverWrong(cells, image, RoundUp(|image|));
    assert cells[..|image|] == cells[..RoundUp(|image|)][..|image|];
  }
}
