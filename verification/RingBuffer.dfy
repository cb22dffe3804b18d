/**
 The byte FIFO between the serial interrupt and the bootloader task: a power-of-two buffer with
 free-running 32-bit counters.
 */
module RingBuffer {
  import opened Bytes
  import opened Numbers
  import opened Ticks

  /** A power of two below 65536: exactly the sizes for which the masks and the 16-bit length work. */
  ghost predicate GoodSize(size: nat) {
    0 < size < 0x1_0000 && WORD % size == 0
  }

  // ---------------------------------------------------------------- counters

  lemma ModUnique(q: int, r: int, s: int)
    requires 0 <= r < s
    ensures (q * s + r) % s == r
  {
    var x := q * s + r;
    var d := x / s - q;
    assert x == (x / s) * s + x % s;
    assert d * s == r - x % s;
    if d != 0 {
      Multiple(if d > 0 then d else -d, s);
      assert false;
    }
  }

  lemma Multiple(d: nat, s: nat)
    requires d > 0
    ensures d * s >= s
  {
    if d > 1 {
      Multiple(d - 1, s);
      assert d * s == (d - 1) * s + s;
    }
  }

  /** The masked index of a counter. */
  function Slot(g: nat, size: nat): (k: nat)
    requires size > 0
    ensures k < size
  {
    g % size
  }

  /** A wrapped counter selects the same slot as the true one. */
  lemma SlotOfCounter(g: nat, size: nat)
    requires GoodSize(size)
    ensures Slot(Word(g), size) == Slot(g, size)
  {
    var q, w := g / WORD, WORD / size;
    var r := (g % WORD) % size;
    var t := (g % WORD) / size;
    assert WORD == w * size + WORD % size == w * size;
    assert g == q * WORD + g % WORD;
    assert g == q * (w * size) + t * size + r;
    assert q * (w * size) == (q * w) * size;
    assert (q * w + t) * size == (q * w) * size + t * size;
    ModUnique(q * w + t, r, size);
  }

  /** Differences of wrapped counters are differences of the true ones. */
  lemma CounterDifference(inn: nat, out: nat, size: nat)
    requires GoodSize(size) && out <= inn <= out + size
    ensures Word(Word(inn) - Word(out)) == inn - out
    ensures Word(size - Word(inn) + Word(out)) == size - (inn - out)
  {
    var p, q := inn / WORD, out / WORD;
    assert inn % WORD - out % WORD == (inn - out) + (q - p) * WORD;
    ModUnique(q - p, inn - out, WORD);
    assert size - inn % WORD + out % WORD == size - (inn - out) + (p - q) * WORD;
    ModUnique(p - q, size - (inn - out), WORD);
  }

  /** Where the j-th byte behind counter g goes. */
  lemma SlotAhead(g: nat, j: nat, size: nat)
    requires 0 < size && j <= size
    ensures var off := Slot(g, size);
            Slot(g + j, size) == if off + j < size then off + j else off + j - size
  {
    var q, off := g / size, g % size;
    assert g + j == q * size + off + j;
    if off + j < size {
      ModUnique(q, off + j, size);
    } else {
      assert g + j == (q + 1) * size + (off + j - size);
      ModUnique(q + 1, off + j - size, size);
    }
  }

  lemma SlotsDiffer(a: nat, b: nat, size: nat)
    requires a < b < a + size
    ensures Slot(a, size) != Slot(b, size)
  {
    hide Slot;
    SlotAhead(a, b - a, size);
  }

  // ---------------------------------------------------------------- the buffer as a sequence

  /** The n bytes stored from counter value `from` on. */
  function Window(s: seq<Byte>, from: nat, n: nat): (w: seq<Byte>)
    requires |s| > 0
    ensures |w| == n && forall i :: 0 <= i < n ==> w[i] == s[Slot(from + i, |s|)]
  {
    seq(n, i requires 0 <= i < n => s[Slot(from + i, |s|)])
  }

  /** The buffer after data went in at `off`, wrapping round to the start. */
  function Written(s: seq<Byte>, off: nat, data: seq<Byte>): (t: seq<Byte>)
    requires off < |s| && |data| <= |s|
    ensures |t| == |s|
  {
    var l := Min(|data|, |s| - off);
    seq(|s|, k requires 0 <= k < |s| =>
      if off <= k < off + l then data[k - off] else if k < |data| - l then data[l + k] else s[k])
  }

  lemma WrittenAt(s: seq<Byte>, g: nat, data: seq<Byte>, j: nat)
    requires 0 < |s| && j < |data| <= |s|
    ensures Written(s, Slot(g, |s|), data)[Slot(g + j, |s|)] == data[j]
  {
    hide Slot;
    SlotAhead(g, j, |s|);
  }

  /** A slot that holds a byte is not one that a put writes to. */
  lemma Untouched(s: seq<Byte>, g: nat, data: seq<Byte>, k: nat)
    requires 0 < |s| && k < g && g + |data| <= k + |s|
    ensures Written(s, Slot(g, |s|), data)[Slot(k, |s|)] == s[Slot(k, |s|)]
  {
    hide Slot;
    var off, at := Slot(g, |s|), Slot(k, |s|);
    var l := Min(|data|, |s| - off);
    if off <= at < off + l {
      SlotAhead(g, at - off, |s|);
      SlotsDiffer(k, g + (at - off), |s|);
      assert false;
    } else if at < |data| - l {
      SlotAhead(g, at + l, |s|);
      SlotsDiffer(k, g + (at + l), |s|);
      assert false;
    }
  }

  /** Putting data behind n stored bytes appends it to them. */
  lemma PutAppends(s: seq<Byte>, from: nat, n: nat, data: seq<Byte>)
    requires 0 < |s| && n + |data| <= |s|
    ensures Window(Written(s, Slot(from + n, |s|), data), from, n + |data|) == Window(s, from, n) + data
  {
    hide Slot, Written;
    var g := from + n;
    var t := Written(s, Slot(g, |s|), data);
    forall i | 0 <= i < n + |data|
      ensures t[Slot(from + i, |s|)] == (Window(s, from, n) + data)[i]
    {
      if i < n {
        Untouched(s, g, data, from + i);
      } else {
        WrittenAt(s, g, data, i - n);
        assert from + i == g + (i - n);
      }
    }
  }

  /** `len` bytes from `off` on, wrapping round to the start. */
  function TwoParts(s: seq<Byte>, off: nat, len: nat): (d: seq<Byte>)
    requires off < |s| && len <= |s|
    ensures |d| == len
  {
    var l := Min(len, |s| - off);
    s[off..off + l] + s[..len - l]
  }

  /** Reading `len` bytes at `off`, wrapping round, takes them from the front. */
  lemma GetTakes(s: seq<Byte>, from: nat, n: nat, len: nat)
    requires 0 < |s| && len <= n <= |s|
    ensures TwoParts(s, Slot(from, |s|), len) + Window(s, from + len, n - len) == Window(s, from, n)
  {
    hide Slot;
    var data := TwoParts(s, Slot(from, |s|), len);
    forall i | 0 <= i < n
      ensures (data + Window(s, from + len, n - len))[i] == Window(s, from, n)[i]
    {
      SlotAhead(from, i, |s|);
      assert i >= len ==> from + i == (from + len) + (i - len);
    }
  }

  // ---------------------------------------------------------------- one caller at a time

  class Ring {
    const size: nat
    const buf: array<Byte>
    var inn: nat
    var out: nat
    ghost var pushed: nat  // the true counters
    ghost var popped: nat

    ghost predicate Valid()
      reads this, buf
    {
      && GoodSize(size) && buf.Length == size
      && popped <= pushed <= popped + size
      && inn == Word(pushed) && out == Word(popped)
    }

    /** The bytes in the buffer, oldest first. */
    ghost function Contents(): (c: seq<Byte>)
      requires Valid()
      reads this, buf
    {
      Window(buf[..], popped, pushed - popped)
    }

    constructor (size: nat)
      requires GoodSize(size)
      ensures Valid() && Contents() == [] && this.size == size && fresh(buf)
    {
      this.size := size;
      buf := new Byte[size](_ => 0);
      inn, out := 0, 0;
      pushed, popped := 0, 0;
    }

    /** ringbuffer_available_get_length */
    method Available() returns (n: nat)
      requires Valid()
      ensures n == |Contents()|
    {
      CounterDifference(pushed, popped, size);
      n := Word(inn - out);
    }

    /** ringbuffer_put: take as many bytes as there is room for. */
    method Put(data: seq<Byte>) returns (len: nat)
      requires Valid()
      modifies `inn, `pushed, buf
      ensures Valid() && len == Min(|data|, size - |old(Contents())|)
      ensures Contents() == old(Contents()) + data[..len]
    {
      hide Window, Written, Slot, Word;
      CounterDifference(pushed, popped, size);
      SlotOfCounter(pushed, size);
      len := Min(|data|, Word(size - inn + out));
      var off := Slot(inn, size);
      CopyIn(off, data[..len]);
      ghost var n := pushed - popped;
      PutAppends(old(buf[..]), popped, n, data[..len]);
      WordAdd(pushed, len);
      inn := Word(inn + len);
      pushed := pushed + len;
    }

    /** The two copies of ringbuffer_put. */
    method CopyIn(off: nat, data: seq<Byte>)
      requires buf.Length == size < 0x1_0000 && off < size && |data| <= size
      modifies buf
      ensures buf[..] == Written(old(buf[..]), off, data)
    {
      var l := Min(|data|, size - off) % 0x1_0000;
      forall i | 0 <= i < l {
        buf[off + i] := data[i];
      }
      forall i | 0 <= i < |data| - l {
        buf[i] := data[l + i];
      }
    }

    /** The two copies of ringbuffer_get. */
    method CopyOut(off: nat, len: nat) returns (data: seq<Byte>)
      requires buf.Length == size < 0x1_0000 && off < size && len <= size
      ensures data == TwoParts(buf[..], off, len)
    {
      var l := Min(len, size - off) % 0x1_0000;
      data := buf[off..off + l] + buf[..len - l];
    }

    /** ringbuffer_get: the oldest bytes, as many as asked for and present. */
    method Get(want: nat) returns (data: seq<Byte>)
      requires Valid()
      modifies `out, `popped
      ensures Valid() && |data| == Min(want, |old(Contents())|)
      ensures data + Contents() == old(Contents())
    {
      hide Window, Slot, Word, TwoParts;
      CounterDifference(pushed, popped, size);
      SlotOfCounter(popped, size);
      var len := Min(want, Word(inn - out));
      var off := Slot(out, size);
      data := CopyOut(off, len);
      GetTakes(buf[..], popped, pushed - popped, len);
      WordAdd(popped, len);
      out := Word(out + len);
      popped := popped + len;
    }
  }

  // ---------------------------------------------------------------- interrupt against task

  /** A put in progress: the clipped data and how much of it has been copied. */
  datatype Putting = NoPut | Put(data: seq<Byte>, done: nat)

  /** A get in progress: how much it will take and what it has copied. */
  datatype Getting = NoGet | Get(want: nat, got: seq<Byte>)

  /** Shared memory, the two sides' progress, and everything put and got so far. */
  datatype State = State(
    buf: seq<Byte>, inn: nat, out: nat, put: Putting, get: Getting, sent: seq<Byte>, received: seq<Byte>)

  /** Each side reads the other's counter once, copies byte by byte, then publishes its own counter. */
  datatype Step = BeginPut(data: seq<Byte>) | CopyIn | EndPut | BeginGet(len: nat) | CopyOut | EndGet

  function Start(size: nat): (s: State)
    requires GoodSize(size)
    ensures Safe(s) && |s.buf| == size && s.sent == []
  {
    State(seq(size, _ => 0), 0, 0, NoPut, NoGet, [], [])
  }

  /** One atomic step; a step that is not enabled changes nothing. */
  function Next(s: State, step: Step): (t: State)
    requires |s.buf| > 0
    ensures |t.buf| == |s.buf|
  {
    var size := |s.buf|;
    match step
    case BeginPut(data) =>
      if s.put.NoPut? then s.(put := Put(data[..Min(|data|, Word(size - s.inn + s.out))], 0)) else s
    case CopyIn =>
      if s.put.Put? && s.put.done < |s.put.data|
      then s.(buf := s.buf[Slot(s.inn + s.put.done, size) := s.put.data[s.put.done]],
              put := Put(s.put.data, s.put.done + 1))
      else s
    case EndPut =>
      if s.put.Put? && s.put.done == |s.put.data|
      then s.(inn := Word(s.inn + |s.put.data|), put := NoPut, sent := s.sent + s.put.data)
      else s
    case BeginGet(len) =>
      if s.get.NoGet? then s.(get := Get(Min(len, Word(s.inn - s.out)), [])) else s
    case CopyOut =>
      if s.get.Get? && |s.get.got| < s.get.want
      then s.(get := Get(s.get.want, s.get.got + [s.buf[Slot(s.out + |s.get.got|, size)]]))
      else s
    case EndGet =>
      if s.get.Get? && |s.get.got| == s.get.want
      then s.(out := Word(s.out + s.get.want), get := NoGet, received := s.received + s.get.got)
      else s
  }

  /** Bytes j.. of `data` sit in the buffer from counter `from` on. */
  ghost predicate Stored(buf: seq<Byte>, from: nat, data: seq<Byte>)
    requires |buf| > 0
  {
    forall j :: 0 <= j < |data| ==> buf[Slot(from + j, |buf|)] == data[j]
  }

  ghost predicate Safe(s: State) {
    var size, n, r := |s.buf|, |s.sent|, |s.received|;
    && GoodSize(size)
    && r <= n <= r + size
    && s.received == s.sent[..r]
    && s.inn == Word(n) && s.out == Word(r)
    && Stored(s.buf, r, s.sent[r..])
    && (s.put.Put? ==>
          && s.put.done <= |s.put.data|
          && n + |s.put.data| <= r + size
          && Stored(s.buf, n, s.put.data[..s.put.done]))
    && (s.get.Get? ==>
          && |s.get.got| <= s.get.want
          && r + s.get.want <= n
          && s.get.got == s.sent[r..r + |s.get.got|])
  }

  /** A wrapped counter plus an offset selects the slot of the true one. */
  lemma SlotBehind(g: nat, j: nat, size: nat)
    requires GoodSize(size)
    ensures Slot(Word(g) + j, size) == Slot(g + j, size)
  {
    hide Slot, Word;
    SlotOfCounter(Word(g) + j, size);
    WordAdd(g, j);
    SlotOfCounter(g + j, size);
  }

  /** Writing one slot keeps what is stored in a stretch that does not reach it. */
  lemma StoreKeeps(buf: seq<Byte>, from: nat, data: seq<Byte>, at: nat, b: Byte)
    requires |buf| > 0 && Stored(buf, from, data)
    requires from + |data| <= at < from + |buf|
    ensures Stored(buf[Slot(at, |buf|) := b], from, data)
  {
    hide Slot;
    forall j | 0 <= j < |data|
      ensures buf[Slot(at, |buf|) := b][Slot(from + j, |buf|)] == data[j]
    {
      SlotsDiffer(from + j, at, |buf|);
    }
  }

  lemma StoredTogether(buf: seq<Byte>, from: nat, a: seq<Byte>, b: seq<Byte>)
    requires |buf| > 0 && Stored(buf, from, a) && Stored(buf, from + |a|, b)
    ensures Stored(buf, from, a + b)
  {
    hide Slot;
    forall j | 0 <= j < |a + b|
      ensures buf[Slot(from + j, |buf|)] == (a + b)[j]
    {
      if j >= |a| {
        assert from + j == from + |a| + (j - |a|);
      }
    }
  }

  lemma StoredBehind(buf: seq<Byte>, from: nat, data: seq<Byte>, k: nat)
    requires |buf| > 0 && k <= |data| && Stored(buf, from, data)
    ensures Stored(buf, from + k, data[k..])
  {
    hide Slot;
    forall j | 0 <= j < |data[k..]|
      ensures buf[Slot(from + k + j, |buf|)] == data[k..][j]
    {
      assert from + k + j == from + (k + j);
    }
  }

  lemma CopyInIsSafe(s: State)
    requires Safe(s) && s.put.Put? && s.put.done < |s.put.data|
    ensures Safe(Next(s, CopyIn))
  {
    hide Slot, Word, GoodSize;
    var n, r, done, data := |s.sent|, |s.received|, s.put.done, s.put.data;
    SlotBehind(n, done, |s.buf|);
    StoreKeeps(s.buf, r, s.sent[r..], n + done, data[done]);
    StoreKeeps(s.buf, n, data[..done], n + done, data[done]);
    assert data[..done + 1] == data[..done] + [data[done]];
  }

  lemma EndPutIsSafe(s: State)
    requires Safe(s) && s.put.Put? && s.put.done == |s.put.data|
    ensures Safe(Next(s, EndPut))
  {
    hide Slot, Word, Stored;
    var n, r, data := |s.sent|, |s.received|, s.put.data;
    assert data[..|data|] == data;
    WordAdd(n, |data|);
    StoredTogether(s.buf, r, s.sent[r..], data);
    assert (s.sent + data)[r..] == s.sent[r..] + data;
  }

  lemma StoredAt(buf: seq<Byte>, from: nat, data: seq<Byte>, k: nat)
    requires |buf| > 0 && Stored(buf, from, data) && k < |data|
    ensures buf[Slot(from + k, |buf|)] == data[k]
  {
    hide Slot;
  }

  lemma CopyOutIsSafe(s: State)
    requires Safe(s) && s.get.Get? && |s.get.got| < s.get.want
    ensures Safe(Next(s, CopyOut))
  {
    hide Slot, Word, GoodSize, Stored;
    var r, k := |s.received|, |s.get.got|;
    SlotBehind(r, k, |s.buf|);
    StoredAt(s.buf, r, s.sent[r..], k);
    assert s.sent[r..r + k] + [s.sent[r + k]] == s.sent[r..r + k + 1];
  }

  lemma EndGetIsSafe(s: State)
    requires Safe(s) && s.get.Get? && |s.get.got| == s.get.want
    ensures Safe(Next(s, EndGet))
  {
    hide Slot, Word, Stored;
    var r, want := |s.received|, s.get.want;
    WordAdd(r, want);
    assert s.sent[..r] + s.sent[r..r + want] == s.sent[..r + want];
    StoredBehind(s.buf, r, s.sent[r..], want);
    assert s.sent[r + want..] == s.sent[r..][want..];
  }

  lemma StepIsSafe(s: State, step: Step)
    requires Safe(s)
    ensures Safe(Next(s, step))
    ensures s.sent <= Next(s, step).sent
  {
    hide Slot, Word, GoodSize;
    CounterDifference(|s.sent|, |s.received|, |s.buf|);
    match step
    case BeginPut(_) =>
    case CopyIn => if s.put.Put? && s.put.done < |s.put.data| { CopyInIsSafe(s); }
    case EndPut => if s.put.Put? && s.put.done == |s.put.data| { EndPutIsSafe(s); }
    case BeginGet(_) =>
    case CopyOut => if s.get.Get? && |s.get.got| < s.get.want { CopyOutIsSafe(s); }
    case EndGet => if s.get.Get? && |s.get.got| == s.get.want { EndGetIsSafe(s); }
  }

  /**
   However the producer's and the consumer's steps interleave, what has been got is a prefix of what
   has been put, and no more than `size` bytes are ever outstanding.
   */
  lemma {:induction false} EveryInterleavingIsFifo(size: nat, steps: seq<Step>)
    requires GoodSize(size)
    ensures var s := RunSteps(Start(size), steps);
            s.received <= s.sent && |s.sent| <= |s.received| + size
  {
    RunIsSafe(Start(size), steps);
  }

  function RunSteps(s: State, steps: seq<Step>): (t: State)
    requires |s.buf| > 0
    decreases |steps|
  {
    if steps == [] then s else RunSteps(Next(s, steps[0]), steps[1..])
  }

  lemma {:induction false} RunIsSafe(s: State, steps: seq<Step>)
    requires Safe(s)
    ensures Safe(RunSteps(s, steps)) && |RunSteps(s, steps).buf| == |s.buf|
    ensures s.sent <= RunSteps(s, steps).sent
    decreases |steps|
  {
    if steps != [] {
      StepIsSafe(s, steps[0]);
      RunIsSafe(Next(s, steps[0]), steps[1..]);
    }
  }
}
