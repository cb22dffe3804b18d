/** Message blocks on the serial line: how the micro-controller frames, finds and sequences them. */
module Framing {
  import opened Bytes

  const MESSAGE_MIN := 5
  const MESSAGE_MAX := 64
  const MESSAGE_HEADER_SIZE := 2
  const MESSAGE_TRAILER_SIZE := 3
  const MESSAGE_SYNC: Byte := 0x7e
  const MESSAGE_DEST: Byte := 0x10

  // ---------------------------------------------------------------- what the receiver does, as a function

  /** The receiver's static variables: the expected sequence byte and the two sync flags. */
  datatype State = State(nextSequence: Byte, needSync: bool, needValid: bool)

  datatype Verdict = Accepted | NeedMore | Dropped

  datatype Step = Step(state: State, verdict: Verdict, pop: nat, nak: bool)

  function Word16(high: int, low: int): int {
    high * 256 + low
  }

  /** A complete block at the front of buf, whatever its sequence number. */
  ghost predicate ValidBlock(buf: seq<Byte>) {
    && |buf| >= MESSAGE_MIN && MESSAGE_MIN <= buf[0] <= MESSAGE_MAX && buf[1] / 16 == 1
    && |buf| >= buf[0] && buf[buf[0] - 1] == MESSAGE_SYNC
    && Word16(buf[buf[0] - 3], buf[buf[0] - 2]) == Crc16(buf[..buf[0] - MESSAGE_TRAILER_SIZE])
  }

  /** Not enough bytes yet to tell whether a block is valid. */
  ghost predicate Incomplete(buf: seq<Byte>) {
    |buf| < MESSAGE_MIN || (MESSAGE_MIN <= buf[0] <= MESSAGE_MAX && buf[1] / 16 == 1 && |buf| < buf[0])
  }

  function NextSequence(seq_: Byte): (r: Byte) {
    MESSAGE_DEST + (seq_ + 1) % 16
  }

  /** Index of the first sync byte, or -1. */
  function FindSync(buf: seq<Byte>): (i: int)
    ensures -1 <= i < |buf|
    ensures i >= 0 ==> buf[i] == MESSAGE_SYNC
    ensures forall j :: 0 <= j < (if i < 0 then |buf| else i) ==> buf[j] != MESSAGE_SYNC
  {
    if buf == [] then -1
    else if buf[0] == MESSAGE_SYNC then 0
    else
      var i := FindSync(buf[1..]);
      assert forall j :: 0 < j < |buf| ==> buf[j] == buf[1..][j - 1];
      if i < 0 then -1 else i + 1
  }

  ghost function Resync(st: State, buf: seq<Byte>): Step {
    var i := FindSync(buf);
    Step(State(st.nextSequence, i < 0, true), Dropped, if i < 0 then |buf| else i + 1, !st.needValid)
  }

  /** command_find_block */
  ghost function FindBlock(st: State, buf: seq<Byte>): Step {
    if buf != [] && st.needSync then Resync(st, buf)
    else if Incomplete(buf) then Step(st, NeedMore, 0, false)
    else if ValidBlock(buf) then
      if buf[1] == st.nextSequence
      then Step(State(NextSequence(buf[1]), st.needSync, false), Accepted, buf[0], false)
      else Step(st.(needValid := false), Dropped, buf[0], true)
    else if buf[0] == MESSAGE_SYNC then Step(st, Dropped, 1, false)
    else Resync(st, buf)
  }

  /** Every step takes at most the buffer, and takes nothing only when it needs more data. */
  lemma StepBounds(st: State, buf: seq<Byte>)
    ensures FindBlock(st, buf).pop <= |buf|
    ensures FindBlock(st, buf).pop == 0 <==> FindBlock(st, buf).verdict == NeedMore
    ensures FindBlock(st, buf).verdict == NeedMore ==> FindBlock(st, buf).state == st && |buf| < MESSAGE_MAX
    ensures FindBlock(st, buf).nak ==> FindBlock(st, buf).verdict == Dropped
  {
  }

  // ---------------------------------------------------------------- a whole stream

  datatype Event = Block(bytes: seq<Byte>) | Nak

  datatype Run = Run(state: State, events: seq<Event>, rest: seq<Byte>)

  ghost function EventsOf(st: State, buf: seq<Byte>): seq<Event> {
    var step := FindBlock(st, buf);
    StepBounds(st, buf);
    if step.verdict == Accepted then [Block(buf[..step.pop])] else if step.nak then [Nak] else []
  }

  /** Take blocks from the buffer until more data is needed. */
  ghost function Drain(st: State, buf: seq<Byte>): Run
    decreases |buf|
  {
    var step := FindBlock(st, buf);
    StepBounds(st, buf);
    if step.pop == 0 then Run(st, [], buf)
    else
      var r := Drain(step.state, buf[step.pop..]);
      Run(r.state, EventsOf(st, buf) + r.events, r.rest)
  }

  /** Drain after every chunk that arrives, keeping what could not be used yet. */
  ghost function Feed(st: State, pending: seq<Byte>, chunks: seq<seq<Byte>>): Run
    decreases |chunks|
  {
    if chunks == [] then Run(st, [], pending)
    else
      var r := Drain(st, pending + chunks[0]);
      var s := Feed(r.state, r.rest, chunks[1..]);
      Run(s.state, r.events + s.events, s.rest)
  }

  /** The step at the front of a buffer is the same when more bytes follow, unless it ran out of bytes. */
  lemma StepIsStable(st: State, a: seq<Byte>, b: seq<Byte>)
    requires FindBlock(st, a).pop > 0
    requires !FindBlock(st, a).state.needSync
    ensures FindBlock(st, a + b) == FindBlock(st, a) && EventsOf(st, a + b) == EventsOf(st, a)
  {
    hide Crc16;
    var n := FindBlock(st, a).pop;
    StepBounds(st, a);
    assert (a + b)[..n] == a[..n];
    if !st.needSync && MESSAGE_MIN <= a[0] <= MESSAGE_MAX && a[1] / 16 == 1 {
      assert (a + b)[..a[0] - MESSAGE_TRAILER_SIZE] == a[..a[0] - MESSAGE_TRAILER_SIZE];
    }
    SyncIsStable(a, b);
  }

  lemma {:induction false} SyncIsStable(a: seq<Byte>, b: seq<Byte>)
    ensures FindSync(a) >= 0 ==> FindSync(a + b) == FindSync(a)
    ensures FindSync(a) < 0 ==> FindSync(a + b) == if FindSync(b) < 0 then -1 else |a| + FindSync(b)
  {
    if a == [] {
      assert a + b == b;
    } else {
      assert (a + b)[1..] == a[1..] + b;
      SyncIsStable(a[1..], b);
    }
  }

  /** Running out of bytes while looking for a sync byte, and carrying on with the next chunk. */
  lemma ResyncContinues(st: State, a: seq<Byte>, b: seq<Byte>)
    requires FindBlock(st, a).pop > 0 && FindBlock(st, a).state.needSync && b != []
    ensures var s := FindBlock(st, a);
            var t := FindBlock(s.state, b);
            && s.pop == |a| && t.pop > 0
            && FindBlock(st, a + b) == Step(t.state, Dropped, |a| + t.pop, s.nak)
            && EventsOf(st, a + b) == EventsOf(st, a) + EventsOf(s.state, b) && EventsOf(s.state, b) == []
  {
    hide Crc16;
    StepBounds(st, a);
    StepBounds(FindBlock(st, a).state, b);
    SyncIsStable(a, b);
    if !st.needSync && MESSAGE_MIN <= a[0] <= MESSAGE_MAX && a[1] / 16 == 1 {
      assert (a + b)[..a[0] - MESSAGE_TRAILER_SIZE] == a[..a[0] - MESSAGE_TRAILER_SIZE];
    }
  }

  /**
   Chunk independence: for any bytes whatsoever, draining a first part and then the rest gives the
   same blocks, the same refusals and the same state as draining everything at once.
   */
  lemma {:induction false} DrainInParts(st: State, a: seq<Byte>, b: seq<Byte>)
    ensures var r := Drain(st, a);
            var s := Drain(r.state, r.rest + b);
            Drain(st, a + b) == Run(s.state, r.events + s.events, s.rest)
    decreases |a|
  {
    hide FindBlock, EventsOf, Drain;
    var step := FindBlock(st, a);
    StepBounds(st, a);
    DrainUnfolds(st, a);
    if step.pop == 0 {
      return;
    }
    if !step.state.needSync {
      StepIsStable(st, a, b);
      StepBounds(st, a + b);
      DrainUnfolds(st, a + b);
      assert (a + b)[step.pop..] == a[step.pop..] + b;
      DrainInParts(step.state, a[step.pop..], b);
    } else if b == [] {
      assert a + b == a;
      DrainRests(st, a);
      assert Drain(st, a).rest + b == Drain(st, a).rest;
    } else {
      DrainAfterResync(st, a, b);
    }
  }

  lemma DrainUnfolds(st: State, buf: seq<Byte>)
    requires FindBlock(st, buf).pop <= |buf|
    ensures var step := FindBlock(st, buf);
            Drain(st, buf) ==
              if step.pop == 0 then Run(st, [], buf)
              else var r := Drain(step.state, buf[step.pop..]); Run(r.state, EventsOf(st, buf) + r.events, r.rest)
  {
  }

  /** Nothing more can be taken from what a drain leaves. */
  lemma {:induction false} DrainRests(st: State, buf: seq<Byte>)
    ensures var r := Drain(st, buf); Drain(r.state, r.rest) == Run(r.state, [], r.rest)
    decreases |buf|
  {
    hide FindBlock, EventsOf;
    var step := FindBlock(st, buf);
    StepBounds(st, buf);
    if step.pop > 0 {
      DrainRests(step.state, buf[step.pop..]);
    }
  }

  lemma DrainAfterResync(st: State, a: seq<Byte>, b: seq<Byte>)
    requires FindBlock(st, a).pop > 0 && FindBlock(st, a).state.needSync && b != []
    ensures var r := Drain(st, a);
            var s := Drain(r.state, r.rest + b);
            Drain(st, a + b) == Run(s.state, r.events + s.events, s.rest)
  {
    hide FindBlock, EventsOf;
    var s := FindBlock(st, a);
    ResyncContinues(st, a, b);
    StepBounds(s.state, []);
    assert a[s.pop..] == [];
    assert Drain(s.state, []) == Run(s.state, [], []);
    assert [] + b == b;
    var t := FindBlock(s.state, b);
    StepBounds(s.state, b);
    assert (a + b)[|a| + t.pop..] == b[t.pop..];
  }

  /** However a byte stream is cut into chunks, the receiver does the same. */
  lemma {:induction false} FeedIsDrain(st: State, pending: seq<Byte>, chunks: seq<seq<Byte>>)
    requires Drain(st, pending) == Run(st, [], pending)
    ensures Feed(st, pending, chunks) == Drain(st, pending + Concat(chunks))
    decreases |chunks|
  {
    hide Drain;
    if chunks == [] {
      assert pending + Concat(chunks) == pending;
    } else {
      var r := Drain(st, pending + chunks[0]);
      DrainRests(st, pending + chunks[0]);
      FeedIsDrain(r.state, r.rest, chunks[1..]);
      DrainInParts(st, pending + chunks[0], Concat(chunks[1..]));
      assert pending + chunks[0] + Concat(chunks[1..]) == pending + Concat(chunks);
    }
  }

  // ---------------------------------------------------------------- frames and their order

  /** command_add_frame around the payload of a message. */
  ghost function Frame(seq_: Byte, payload: seq<Byte>): (f: seq<Byte>)
    requires |payload| <= MESSAGE_MAX - MESSAGE_MIN
    ensures |f| == |payload| + MESSAGE_MIN
  {
    var head: seq<Byte> := [MESSAGE_MIN + |payload|, seq_] + payload;
    var crc := Crc16(head);
    head + [crc / 256, crc % 256, MESSAGE_SYNC]
  }

  /** The low four bits of an absolute block number, as they travel. */
  function SequenceByte(index: nat): Byte {
    MESSAGE_DEST + index % 16
  }

  /** A frame is recognised whatever follows it. */
  lemma FrameIsValid(index: nat, payload: seq<Byte>, after: seq<Byte>)
    requires |payload| <= MESSAGE_MAX - MESSAGE_MIN
    ensures var buf := Frame(SequenceByte(index), payload) + after;
            ValidBlock(buf) && !Incomplete(buf) && buf[0] == |payload| + MESSAGE_MIN && buf[1] == SequenceByte(index)
  {
    hide Crc16;
    var f := Frame(SequenceByte(index), payload);
    var buf := f + after;
    var n := |payload| + MESSAGE_HEADER_SIZE;
    assert buf[..n] == [MESSAGE_MIN + |payload|, SequenceByte(index)] + payload;
  }

  /** A block with its absolute number. */
  datatype Numbered = Numbered(index: nat, payload: seq<Byte>)

  ghost predicate Fits(bs: seq<Numbered>) {
    forall i :: 0 <= i < |bs| ==> |bs[i].payload| <= MESSAGE_MAX - MESSAGE_MIN
  }

  ghost function Wire(bs: seq<Numbered>): seq<Byte>
    requires Fits(bs)
  {
    if bs == [] then [] else Frame(SequenceByte(bs[0].index), bs[0].payload) + Wire(bs[1..])
  }

  /** Every block is within 15 of the one expected when it arrives. */
  ghost predicate Nearby(expected: nat, bs: seq<Numbered>)
    decreases |bs|
  {
    bs == [] ||
    (-15 <= bs[0].index - expected <= 15 && Nearby(if bs[0].index == expected then expected + 1 else expected, bs[1..]))
  }

  /** What should happen: exactly the expected block is taken each time, all others are refused. */
  ghost function InOrder(expected: nat, bs: seq<Numbered>): seq<Event>
    requires Fits(bs)
    decreases |bs|
  {
    if bs == [] then []
    else if bs[0].index == expected
    then [Block(Frame(SequenceByte(expected), bs[0].payload))] + InOrder(expected + 1, bs[1..])
    else [Nak] + InOrder(expected, bs[1..])
  }

  ghost function Taken(expected: nat, bs: seq<Numbered>): nat
    decreases |bs|
  {
    if bs == [] then 0
    else if bs[0].index == expected then 1 + Taken(expected + 1, bs[1..])
    else Taken(expected, bs[1..])
  }

  lemma SequenceMatch(a: nat, e: nat)
    requires -15 <= a - e <= 15
    ensures SequenceByte(a) == SequenceByte(e) <==> a == e
    ensures NextSequence(SequenceByte(e)) == SequenceByte(e + 1)
  {
    if SequenceByte(a) == SequenceByte(e) {
      SameRemainder(a, e);
    }
    NextRemainder(e);
  }

  lemma SameRemainder(a: nat, e: nat)
    requires a % 16 == e % 16 && -15 <= a - e <= 15
    ensures a == e
  {
  }

  lemma NextRemainder(e: nat)
    ensures (MESSAGE_DEST + e % 16 + 1) % 16 == (e + 1) % 16
  {
    var q, r := e / 16, e % 16;
    assert e == 16 * q + r;
  }

  /**
   Sequencing: of valid blocks numbered modulo 16, each within 15 of the expected one, the receiver
   accepts exactly those that continue its count, so none is skipped and none is taken twice.
   */
  lemma {:induction false} AcceptsInOrder(st: State, expected: nat, bs: seq<Numbered>)
    requires Fits(bs) && Nearby(expected, bs)
    requires st.nextSequence == SequenceByte(expected) && !st.needSync
    ensures var r := Drain(st, Wire(bs));
            && r.rest == [] && r.events == InOrder(expected, bs)
            && r.state.nextSequence == SequenceByte(expected + Taken(expected, bs)) && !r.state.needSync
    decreases |bs|
  {
    hide FindBlock, EventsOf, Frame, SequenceByte;
    if bs == [] {
      StepBounds(st, []);
      return;
    }
    var b := bs[0];
    var f := Frame(SequenceByte(b.index), b.payload);
    OneBlock(st, expected, b, Wire(bs[1..]));
    assert Wire(bs)[|f|..] == Wire(bs[1..]);
    var step := FindBlock(st, Wire(bs));
    AcceptsInOrder(step.state, if b.index == expected then expected + 1 else expected, bs[1..]);
  }

  /** One numbered block at the front of the buffer. */
  lemma OneBlock(st: State, expected: nat, b: Numbered, after: seq<Byte>)
    requires |b.payload| <= MESSAGE_MAX - MESSAGE_MIN && -15 <= b.index - expected <= 15
    requires st.nextSequence == SequenceByte(expected) && !st.needSync
    ensures var f := Frame(SequenceByte(b.index), b.payload);
            var step := FindBlock(st, f + after);
            && step.pop == |f| && !step.state.needSync
            && step.state.nextSequence == SequenceByte(if b.index == expected then expected + 1 else expected)
            && EventsOf(st, f + after) == [if b.index == expected then Block(f) else Nak]
  {
    hide Crc16, Frame;
    var f := Frame(SequenceByte(b.index), b.payload);
    FrameIsValid(b.index, b.payload, after);
    SequenceMatch(b.index, expected);
    assert (f + after)[..|f|] == f;
  }

  /** The same however the stream is cut into chunks. */
  lemma {:induction false} AcceptsInOrderInChunks(st: State, expected: nat, bs: seq<Numbered>, chunks: seq<seq<Byte>>)
    requires Fits(bs) && Nearby(expected, bs) && Concat(chunks) == Wire(bs)
    requires st.nextSequence == SequenceByte(expected) && !st.needSync
    ensures var r := Feed(st, [], chunks);
            && r.rest == [] && r.events == InOrder(expected, bs)
            && r.state.nextSequence == SequenceByte(expected + Taken(expected, bs)) && !r.state.needSync
  {
    hide Feed, InOrder, Wire, SequenceByte, Nearby, Concat, Taken;
    StepBounds(st, []);
    FeedIsDrain(st, [], chunks);
    assert [] + Concat(chunks) == Wire(bs);
    AcceptsInOrder(st, expected, bs);
  }

  ghost predicate Consecutive(expected: nat, bs: seq<Numbered>) {
    forall i :: 0 <= i < |bs| ==> bs[i].index == expected + i
  }

  /** The events are the blocks of the stream, one by one. */
  ghost predicate AllTaken(expected: nat, bs: seq<Numbered>, events: seq<Event>)
    requires Fits(bs)
  {
    && |events| == |bs|
    && forall i :: 0 <= i < |bs| ==> events[i] == Block(Frame(SequenceByte(expected + i), bs[i].payload))
  }

  lemma {:induction false} CleanStreamIsInOrder(expected: nat, bs: seq<Numbered>)
    requires Fits(bs) && Consecutive(expected, bs)
    ensures Nearby(expected, bs) && Taken(expected, bs) == |bs|
    ensures |InOrder(expected, bs)| == |bs|
    ensures AllTaken(expected, bs, InOrder(expected, bs))
    decreases |bs|
  {
    hide Frame, SequenceByte;
    if bs != [] {
      CleanStreamIsInOrder(expected + 1, bs[1..]);
    }
  }

  /** A clean stream is accepted whole and in order, however it is cut into chunks. */
  lemma {:induction false} CleanStreamInChunks(st: State, expected: nat, bs: seq<Numbered>, chunks: seq<seq<Byte>>)
    requires Fits(bs) && Consecutive(expected, bs)
    requires st.nextSequence == SequenceByte(expected) && !st.needSync && Concat(chunks) == Wire(bs)
    ensures var r := Feed(st, [], chunks);
            && r.rest == [] && |r.events| == |bs| && r.state.nextSequence == SequenceByte(expected + |bs|)
            && AllTaken(expected, bs, r.events)
  {
    hide Frame, Feed, InOrder, SequenceByte, Wire, Concat, Nearby, Taken, AllTaken, Consecutive, Fits;
    CleanStreamIsInOrder(expected, bs);
    AcceptsInOrderInChunks(st, expected, bs, chunks);
  }

  // ---------------------------------------------------------------- any bytes whatsoever

  /** Only a frame is a valid block. */
  lemma ValidBlockIsFrame(buf: seq<Byte>)
    requires ValidBlock(buf)
    ensures IsFrame(buf[1], buf[..buf[0]])
  {
    hide Crc16;
    var n := buf[0];
    var b := buf[..n];
    assert b[..n - 3] == buf[..n - 3] == [n, buf[1]] + b[2..n - 3];
    assert b == b[..n - 3] + b[n - 3..];
  }

  ghost predicate IsFrame(seq_: Byte, b: seq<Byte>) {
    MESSAGE_MIN <= |b| <= MESSAGE_MAX && b == Frame(seq_, b[MESSAGE_HEADER_SIZE..|b| - MESSAGE_TRAILER_SIZE])
  }

  /** The blocks among the events. */
  ghost function Blocks(events: seq<Event>): seq<seq<Byte>> {
    if events == [] then [] else (if events[0].Block? then [events[0].bytes] else []) + Blocks(events[1..])
  }

  /** Frames with the numbers from `expected` on. */
  ghost predicate FramesFrom(expected: nat, bs: seq<seq<Byte>>) {
    forall i :: 0 <= i < |bs| ==> IsFrame(SequenceByte(expected + i), bs[i])
  }

  lemma {:induction false} BlocksTogether(a: seq<Event>, b: seq<Event>)
    ensures Blocks(a + b) == Blocks(a) + Blocks(b)
    decreases |a|
  {
    if a == [] {
      assert a + b == b;
    } else {
      assert (a + b)[1..] == a[1..] + b;
      BlocksTogether(a[1..], b);
    }
  }

  /** Whatever arrives, the blocks that are accepted are frames, numbered one after the other. */
  lemma {:induction false} OnlyFramesInOrder(st: State, expected: nat, buf: seq<Byte>)
    requires st.nextSequence == SequenceByte(expected)
    ensures var r := Drain(st, buf);
            && FramesFrom(expected, Blocks(r.events))
            && r.state.nextSequence == SequenceByte(expected + |Blocks(r.events)|)
    decreases |buf|
  {
    hide FindBlock, EventsOf, IsFrame, SequenceByte;
    var step := FindBlock(st, buf);
    StepBounds(st, buf);
    if step.pop > 0 {
      var taken := OneStepInOrder(st, expected, buf);
      OnlyFramesInOrder(step.state, expected + |taken|, buf[step.pop..]);
      var r := Drain(step.state, buf[step.pop..]);
      BlocksTogether(EventsOf(st, buf), r.events);
      forall i | 0 <= i < |taken + Blocks(r.events)|
        ensures IsFrame(SequenceByte(expected + i), (taken + Blocks(r.events))[i])
      {
        if i >= |taken| {
          assert IsFrame(SequenceByte(expected + |taken| + (i - |taken|)), Blocks(r.events)[i - |taken|]);
        }
      }
    }
  }

  lemma OneStepInOrder(st: State, expected: nat, buf: seq<Byte>) returns (taken: seq<seq<Byte>>)
    requires st.nextSequence == SequenceByte(expected) && FindBlock(st, buf).pop > 0
    ensures taken == Blocks(EventsOf(st, buf)) && |taken| <= 1 && FramesFrom(expected, taken)
    ensures FindBlock(st, buf).state.nextSequence == SequenceByte(expected + |taken|)
  {
    hide Crc16, Frame, SequenceByte;
    SequenceMatch(expected, expected);
    taken := if FindBlock(st, buf).verdict == Accepted then [buf[..buf[0]]] else [];
    if taken != [] {
      ValidBlockIsFrame(buf);
    }
  }

  // ---------------------------------------------------------------- broken bytes

  /** The receiver asks again for a block that arrived broken, unless it has asked since the last valid one. */
  lemma BrokenBlockIsNaked(st: State, buf: seq<Byte>)
    requires !st.needSync && !Incomplete(buf) && !ValidBlock(buf) && buf[0] != 0x7e
    ensures EventsOf(st, buf) == if st.needValid then [] else [Nak]
    ensures FindBlock(st, buf).state.needValid && FindBlock(st, buf).state.nextSequence == st.nextSequence
  {
    hide Crc16;
  }

  /** A valid block is refused exactly when it is out of sequence; behind it broken bytes are answered again. */
  lemma ValidBlockRearms(st: State, buf: seq<Byte>)
    requires !st.needSync && !Incomplete(buf) && ValidBlock(buf)
    ensures var s := FindBlock(st, buf);
            !s.state.needValid && !s.state.needSync && (s.nak <==> buf[1] != st.nextSequence) && s.pop == buf[0]
  {
    hide Crc16;
  }

  /** Bytes up to and including a sync byte. */
  ghost predicate UpToSync(g: seq<Byte>) {
    |g| >= 2 && g[|g| - 1] == 0x7e && forall j :: 0 <= j < |g| - 1 ==> g[j] != 0x7e
  }

  lemma {:induction false} SyncAtEnd(g: seq<Byte>, after: seq<Byte>)
    requires g != [] && g[|g| - 1] == 0x7e && forall j :: 0 <= j < |g| - 1 ==> g[j] != 0x7e
    ensures FindSync(g + after) == |g| - 1
  {
    assert (g + after)[|g| - 1] == 0x7e;
    assert forall j :: 0 <= j < |g| - 1 ==> (g + after)[j] != 0x7e;
  }

  /** Broken bytes are dropped up to the next sync byte, and what follows is read afresh. */
  lemma BrokenIsDropped(st: State, g: seq<Byte>, after: seq<Byte>)
    requires !st.needSync && UpToSync(g) && !Incomplete(g + after) && !ValidBlock(g + after)
    ensures var r := Drain(State(st.nextSequence, false, true), after);
            Drain(st, g + after) == Run(r.state, (if st.needValid then [] else [Nak]) + r.events, r.rest)
  {
    hide Crc16, ValidBlock, Incomplete;
    SyncAtEnd(g, after);
    assert (g + after)[0] == g[0] && (g + after)[|g|..] == after;
    DrainUnfolds(st, g + after);
  }

  /** Bytes that cannot be the beginning of a block. */
  ghost predicate Noise(g: seq<Byte>) {
    UpToSync(g) && (g[0] < MESSAGE_MIN || g[0] > MESSAGE_MAX || g[1] / 16 != 1)
  }

  ghost predicate AllNoise(gs: seq<seq<Byte>>) {
    forall i :: 0 <= i < |gs| ==> Noise(gs[i])
  }

  /** However much noise there is, it is answered once. */
  lemma {:induction false} NoiseIsNakedOnce(st: State, gs: seq<seq<Byte>>, after: seq<Byte>)
    requires !st.needSync && AllNoise(gs) && |after| >= MESSAGE_MIN
    ensures var r := Drain(State(st.nextSequence, false, st.needValid || gs != []), after);
            var naks := if gs == [] || st.needValid then [] else [Nak];
            Drain(st, Concat(gs) + after) == Run(r.state, naks + r.events, r.rest)
    decreases |gs|
  {
    hide Crc16, FindBlock, Drain;
    if gs == [] {
      assert Concat(gs) + after == after;
    } else {
      var g, rest := gs[0], Concat(gs[1..]) + after;
      assert Concat(gs) + after == g + rest && (g + rest)[0] == g[0] && (g + rest)[1] == g[1];
      BrokenIsDropped(st, g, rest);
      NoiseIsNakedOnce(State(st.nextSequence, false, true), gs[1..], after);
    }
  }

  /** Behind the noise the next frame is accepted, however the stream is cut into chunks. */
  lemma {:induction false} FrameAfterNoise(st: State, expected: nat, gs: seq<seq<Byte>>, payload: seq<Byte>,
                                          chunks: seq<seq<Byte>>)
    requires st == State(SequenceByte(expected), false, false) && AllNoise(gs) && gs != []
    requires |payload| <= MESSAGE_MAX - MESSAGE_MIN
    requires Concat(chunks) == Concat(gs) + Frame(SequenceByte(expected), payload)
    ensures var f := Frame(SequenceByte(expected), payload);
            Feed(st, [], chunks) == Run(State(SequenceByte(expected + 1), false, false), [Nak, Block(f)], [])
  {
    hide Crc16, Drain, Feed, Frame, SequenceByte, Noise, Concat;
    var f := Frame(SequenceByte(expected), payload);
    NothingToDrain(st);
    FeedIsDrain(st, [], chunks);
    assert [] + Concat(chunks) == Concat(gs) + f;
    NoiseIsNakedOnce(st, gs, f);
    FrameIsTaken(State(SequenceByte(expected), false, true), expected, payload);
    assert [Nak] + [Block(f)] == [Nak, Block(f)];
  }

  lemma NothingToDrain(st: State)
    ensures Drain(st, []) == Run(st, [], [])
  {
    StepBounds(st, []);
  }

  lemma FrameIsTaken(st: State, expected: nat, payload: seq<Byte>)
    requires st.nextSequence == SequenceByte(expected) && !st.needSync && |payload| <= MESSAGE_MAX - MESSAGE_MIN
    ensures var f := Frame(SequenceByte(expected), payload);
            Drain(st, f) == Run(State(SequenceByte(expected + 1), false, false), [Block(f)], [])
  {
    hide Crc16, Frame, Drain, SequenceByte;
    var f := Frame(SequenceByte(expected), payload);
    OneBlock(st, expected, Numbered(expected, payload), []);
    FrameIsValid(expected, payload, []);
    assert f + [] == f && f[|f|..] == [];
    DrainUnfolds(st, f);
    NothingToDrain(FindBlock(st, f).state);
    assert [Block(f)] + [] == [Block(f)];
  }

  /** A sync byte between frames does not matter. */
  lemma ExtraSyncIsSkipped(st: State, after: seq<Byte>)
    requires !st.needSync && |after| >= 4
    ensures Drain(st, [0x7e] + after) == Drain(st, after)
  {
    var buf: seq<Byte> := [0x7e] + after;
    DrainUnfolds(st, buf);
    assert buf[1..] == after;
  }

  /** The first block of a session, byte for byte. */
  lemma FirstBlock()
    ensures Frame(0x10, []) == [0x05, 0x10, 0x9e, 0x81, 0x7e]
  {
    hide Crc16;
    CrcOfEmptyBlock();
    assert [MESSAGE_MIN + 0, 0x10] + [] == [0x05, 0x10];
  }

  // ---------------------------------------------------------------- the code

  class Receiver {
    var nextSequence: Byte
    var needSync: bool
    var needValid: bool

    function Current(): State
      reads this
    {
      State(nextSequence, needSync, needValid)
    }

    constructor ()
      ensures Current() == State(SequenceByte(0), false, false)
    {
      nextSequence, needSync, needValid := MESSAGE_DEST, false, false;
    }

    /** command_find_block; `nak` tells whether an ack/nak message is sent. */
    method NextBlock(buf: seq<Byte>) returns (verdict: Verdict, pop: nat, nak: bool)
      modifies this
      ensures Step(Current(), verdict, pop, nak) == FindBlock(old(Current()), buf)
    {
      if buf != [] && needSync {
        verdict, pop, nak := SkipToSync(buf);
        return;
      }
      if |buf| < MESSAGE_MIN {
        return NeedMore, 0, false;
      }
      var msglen: int := buf[0];
      if msglen < MESSAGE_MIN || msglen > MESSAGE_MAX {
        verdict, pop, nak := Error(buf);
        return;
      }
      var msgseq := buf[1];
      if msgseq / 16 != 1 {
        verdict, pop, nak := Error(buf);
        return;
      }
      if |buf| < msglen {
        return NeedMore, 0, false;
      }
      if buf[msglen - 1] != MESSAGE_SYNC {
        verdict, pop, nak := Error(buf);
        return;
      }
      var crc := ComputeCrc(buf[..msglen - MESSAGE_TRAILER_SIZE]);
      if crc != Word16(buf[msglen - 3], buf[msglen - 2]) {
        verdict, pop, nak := Error(buf);
        return;
      }
      needValid := false;
      if msgseq != nextSequence {
        return Dropped, msglen, true;
      }
      nextSequence := NextSequence(msgseq);
      return Accepted, msglen, false;
    }

    /** The error branch: a leading sync byte is ignored, anything else starts a resync. */
    method Error(buf: seq<Byte>) returns (verdict: Verdict, pop: nat, nak: bool)
      requires buf != []
      modifies this
      ensures Step(Current(), verdict, pop, nak) ==
              if buf[0] == MESSAGE_SYNC then Step(old(Current()), Dropped, 1, false) else Resync(old(Current()), buf)
    {
      if buf[0] == MESSAGE_SYNC {
        return Dropped, 1, false;
      }
      needSync := true;
      verdict, pop, nak := SkipToSync(buf);
    }

    method SkipToSync(buf: seq<Byte>) returns (verdict: Verdict, pop: nat, nak: bool)
      requires buf != [] && needSync
      modifies this
      ensures Step(Current(), verdict, pop, nak) == Resync(old(Current()), buf)
    {
      var i := 0;
      while i < |buf| && buf[i] != MESSAGE_SYNC
        invariant 0 <= i <= |buf| && forall j :: 0 <= j < i ==> buf[j] != MESSAGE_SYNC
      {
        i := i + 1;
      }
      assert i < |buf| ==> FindSync(buf) == i;
      assert i == |buf| ==> FindSync(buf) == -1;
      if i < |buf| {
        needSync := false;
        pop := i + 1;
      } else {
        pop := |buf|;
      }
      verdict := Dropped;
      nak := !needValid;
      needValid := true;
    }
  }

  /** command_add_frame: header and trailer around a payload already in place. */
  method AddFrame(buf: array<Byte>, msglen: int, nextSequence: Byte)
    requires MESSAGE_MIN <= msglen <= MESSAGE_MAX && msglen <= buf.Length
    modifies buf
    ensures buf[..msglen] == Frame(nextSequence, old(buf[MESSAGE_HEADER_SIZE..msglen - MESSAGE_TRAILER_SIZE]))
    ensures buf[msglen..] == old(buf[msglen..])
  {
    ghost var payload := buf[MESSAGE_HEADER_SIZE..msglen - MESSAGE_TRAILER_SIZE];
    buf[0] := msglen;
    buf[1] := nextSequence;
    ghost var head: seq<Byte> := [MESSAGE_MIN + |payload|, nextSequence] + payload;
    assert buf[..msglen - MESSAGE_TRAILER_SIZE] == head;
    var crc := ComputeCrc(buf[..msglen - MESSAGE_TRAILER_SIZE]);
    buf[msglen - 3] := crc / 256;
    buf[msglen - 2] := crc % 256;
    buf[msglen - 1] := MESSAGE_SYNC;
    assert buf[..msglen - MESSAGE_TRAILER_SIZE] == head;
    assert buf[..msglen] == head + [crc / 256, crc % 256, MESSAGE_SYNC];
  }

  // ---------------------------------------------------------------- the host's view

  /** check_packet: the length of a valid block, 0 for an incomplete one, -1 otherwise. */
  method CheckPacket(s: seq<Byte>) returns (r: int)
    ensures r == if Incomplete(s) then 0 else if ValidBlock(s) then s[0] else -1
  {
    if |s| < MESSAGE_MIN {
      return 0;
    }
    var msglen: int := s[0];
    if msglen < MESSAGE_MIN || msglen > MESSAGE_MAX || s[1] / 16 != 1 {
      return -1;
    }
    if |s| < msglen {
      return 0;
    }
    if s[msglen - 1] != MESSAGE_SYNC {
      return -1;
    }
    var crc := ComputeCrc(s[..msglen - MESSAGE_TRAILER_SIZE]);
    if crc != Word16(s[msglen - 3], s[msglen - 2]) {
      return -1;
    }
    r := msglen;
  }

  /** encode_msgblock: shifting the low CRC byte right by eight leaves zero. */
  ghost function EncodeMsgblock(seq_: Byte, cmd: seq<Byte>): seq<Byte>
    requires |cmd| <= MESSAGE_MAX - MESSAGE_MIN
  {
    var head: seq<Byte> := [MESSAGE_MIN + |cmd|, MESSAGE_DEST + seq_ % 16] + cmd;
    head + [Crc16(head) / 256, 0, MESSAGE_SYNC]
  }

  /** A block built by the host's own encoder is valid exactly when the low byte of its CRC is zero. */
  lemma EncodedBlockValidIff(seq_: Byte, cmd: seq<Byte>)
    requires |cmd| <= MESSAGE_MAX - MESSAGE_MIN
    ensures ValidBlock(EncodeMsgblock(seq_, cmd)) <==>
            Crc16([MESSAGE_MIN + |cmd|, MESSAGE_DEST + seq_ % 16] + cmd) % 256 == 0
  {
    hide Crc16;
    var head: seq<Byte> := [MESSAGE_MIN + |cmd|, MESSAGE_DEST + seq_ % 16] + cmd;
    var s := EncodeMsgblock(seq_, cmd);
    assert s[..|head|] == head;
  }

  /** The empty block with sequence number zero has checksum 0x9e81, so the host's encoder breaks it. */
  lemma EmptyEncodedBlockIsInvalid()
    ensures !ValidBlock(EncodeMsgblock(0, []))
  {
    hide ValidBlock, EncodeMsgblock, Crc16;
    EncodedBlockValidIff(0, []);
    CrcOfEmptyBlock();
    assert [MESSAGE_MIN + 0, MESSAGE_DEST + 0 % 16] + [] == [0x05, 0x10];
  }
}
