/**
 The bootloader's serial link: framing, the resumable byte parser, and the handler task that feeds the
 parser from the receive ring.
 */
module BootLink {
  import opened Bytes
  import opened Numbers
  import opened RingBuffer
  import opened Ticks

  const MAX_PAYLOAD := 4096
  const MIN_PACKAGE := 7
  const PULL := 128

  datatype Phase = A5 | FiveA | Cmd | Len1 | Len2 | Data | Crc1 | Crc2

  /** One invocation of the command handler. */
  datatype Call = Call(cmd: Byte, payload: seq<Byte>)

  /** The parser's variables, and the handler calls made so far. */
  datatype Link = Link(
    sta: Phase, cmd: Byte, len: nat, count: nat, crc: nat, payload: seq<Byte>, calls: seq<Call>)

  ghost predicate Good(p: Link) {
    && |p.payload| == MAX_PAYLOAD
    && (p.sta.Len2? ==> p.len < 256)
    && (p.sta.Data? ==> p.count <= p.len <= MAX_PAYLOAD)
    && (p.sta.Crc1? || p.sta.Crc2? ==> p.len <= MAX_PAYLOAD)
    && (p.sta.Crc2? ==> p.crc < 256)
  }

  // ---------------------------------------------------------------- one byte at a time

  /** A data phase with nothing left to receive is the checksum phase. */
  function Norm(p: Link): (n: Link) {
    if p.sta.Data? && p.count == p.len then p.(sta := Crc1) else p
  }

  ghost predicate Ready(p: Link) {
    Good(p) && Norm(p) == p
  }

  /** The reference parser: every byte moves it exactly one step. */
  ghost function Eat(p: Link, b: Byte): (q: Link)
    requires Ready(p)
    ensures Ready(q)
    ensures q.calls == p.calls || (p.sta.Crc2? && q.calls == p.calls + [Call(p.cmd, p.payload[..p.len])])
  {
    match p.sta
    case A5 => p.(sta := if b == 0xa5 then FiveA else A5)
    case FiveA => p.(sta := if b == 0x5a then Cmd else A5)
    case Cmd => p.(sta := Len1, cmd := b)
    case Len1 => p.(sta := Len2, len := b)
    case Len2 =>
      var len := p.len * 256 + b;
      if len <= MAX_PAYLOAD then Norm(p.(sta := Data, len := len, count := 0)) else p.(sta := A5, len := len)
    case Data => Norm(p.(payload := p.payload[p.count := b], count := p.count + 1))
    case Crc1 => p.(sta := Crc2, crc := b)
    case Crc2 =>
      var crc := p.crc * 256 + b;
      var calls := if Crc16(p.payload[..p.len]) == crc then [Call(p.cmd, p.payload[..p.len])] else [];
      p.(sta := A5, crc := crc, calls := p.calls + calls)
  }

  ghost function EatAll(p: Link, s: seq<Byte>): (q: Link)
    requires Ready(p)
    ensures Ready(q)
    decreases |s|
  {
    if s == [] then p else Eat(EatAll(p, s[..|s| - 1]), s[|s| - 1])
  }

  lemma {:induction false} EatInParts(p: Link, a: seq<Byte>, b: seq<Byte>)
    requires Ready(p)
    ensures EatAll(p, a + b) == EatAll(EatAll(p, a), b)
    decreases |b|
  {
    hide Eat, Ready;
    if b == [] {
      assert a + b == a;
    } else {
      EatInParts(p, a, b[..|b| - 1]);
      assert (a + b)[..|a + b| - 1] == a + b[..|b| - 1];
    }
  }

  lemma EatOne(p: Link, b: Byte)
    requires Ready(p)
    ensures EatAll(p, [b]) == Eat(p, b)
  {
    hide Eat, Ready;
    assert [b][..0] == [];
    assert EatAll(p, []) == p;
  }

  // ---------------------------------------------------------------- a run of payload bytes

  /** What copying a run of payload bytes at once does. */
  function Copied(p: Link, d: seq<Byte>): (q: Link)
    requires p.count + |d| <= |p.payload|
    ensures |q.payload| == |p.payload|
  {
    p.(payload := p.payload[..p.count] + d + p.payload[p.count + |d|..], count := p.count + |d|)
  }

  lemma {:induction false} EatPayload(p: Link, d: seq<Byte>)
    requires Good(p) && p.sta.Data? && p.count + |d| <= p.len
    ensures EatAll(Norm(p), d) == Norm(Copied(p, d))
    decreases |d|
  {
    hide Crc16;
    if d == [] {
      assert Copied(p, d).payload == p.payload;
    } else {
      var e := d[..|d| - 1];
      EatPayload(p, e);
      var q := Copied(p, e);
      assert Norm(q) == q;
      CopiedNext(p, d);
    }
  }

  lemma CopiedNext(p: Link, d: seq<Byte>)
    requires d != [] && p.count + |d| <= |p.payload|
    ensures var q := Copied(p, d[..|d| - 1]); q.payload[q.count := d[|d| - 1]] == Copied(p, d).payload
  {
  }

  // ---------------------------------------------------------------- frames

  ghost function Package(cmd: Byte, payload: seq<Byte>): (f: seq<Byte>)
    ensures |f| == MIN_PACKAGE + |payload|
  {
    var crc := Crc16(payload);
    [0xa5, 0x5a, cmd, |payload| / 256 % 256, |payload| % 256] + payload + [crc / 256, crc % 256]
  }

  /** A buffer with the bytes s written from `at` on. */
  ghost function Written(b: seq<Byte>, at: nat, s: seq<Byte>): (r: seq<Byte>)
    requires at + |s| <= |b|
    ensures |r| == |b|
  {
    b[..at] + s + b[at + |s|..]
  }

  lemma WrittenOn(b: seq<Byte>, at: nat, s: seq<Byte>, t: seq<Byte>)
    requires at + |s| + |t| <= |b|
    ensures Written(Written(b, at, s), at + |s|, t) == Written(b, at, s + t)
  {
    var r := Written(b, at, s);
    assert r[..at + |s|] == b[..at] + s;
    assert r[at + |s| + |t|..] == b[at + |s| + |t|..];
  }

  /** bootloader_package_data: nothing happens if the frame does not fit. */
  method PackageData(buf: array<Byte>, cmd: Byte, payload: seq<Byte>)
    modifies buf
    ensures buf[..] == if buf.Length < MIN_PACKAGE + |payload| then old(buf[..])
                       else Package(cmd, payload) + old(buf[..])[MIN_PACKAGE + |payload|..]
  {
    var n := |payload|;
    if buf.Length < MIN_PACKAGE + n {
      return;
    }
    hide Crc16, Written;
    var crc := ComputeCrc(payload);
    ghost var head, was := [0xa5, 0x5a, cmd, n / 256 % 256, n % 256], old(buf[..]);
    WriteHeader(buf, cmd, n);
    WriteBytes(buf, 5, payload);
    WrittenOn(was, 0, head, payload);
    WriteBytes(buf, 5 + n, [crc / 256, crc % 256]);
    WrittenOn(was, 0, head + payload, [crc / 256, crc % 256]);
    WrittenFirst(was, Package(cmd, payload));
  }

  lemma WrittenFirst(b: seq<Byte>, s: seq<Byte>)
    requires |s| <= |b|
    ensures Written(b, 0, s) == s + b[|s|..]
  {
  }

  method WriteBytes(buf: array<Byte>, at: nat, s: seq<Byte>)
    requires at + |s| <= buf.Length
    modifies buf
    ensures buf[..] == Written(old(buf[..]), at, s)
  {
    forall i | 0 <= i < |s| {
      buf[at + i] := s[i];
    }
  }

  method WriteHeader(buf: array<Byte>, cmd: Byte, n: nat)
    requires 5 <= buf.Length
    modifies buf
    ensures buf[..] == Written(old(buf[..]), 0, [0xa5, 0x5a, cmd, n / 256 % 256, n % 256])
  {
    buf[0], buf[1], buf[2] := 0xa5, 0x5a, cmd;
    buf[3], buf[4] := n / 256 % 256, n % 256;
  }

  /** After the five header bytes the parser expects exactly the announced payload. */
  lemma EatHeader(p: Link, cmd: Byte, n: nat)
    requires Ready(p) && p.sta.A5? && n <= MAX_PAYLOAD
    ensures EatAll(p, [0xa5, 0x5a, cmd, n / 256, n % 256])
         == Norm(p.(sta := Data, cmd := cmd, len := n, count := 0))
  {
    hide Crc16;
    var h: seq<Byte> := [0xa5, 0x5a, cmd, n / 256, n % 256];
    assert h[..4] == [0xa5, 0x5a, cmd, n / 256];
    assert h[..4][..3] == [0xa5, 0x5a, cmd];
    assert h[..4][..3][..2] == [0xa5, 0x5a];
    assert h[..4][..3][..2][..1] == [0xa5];
    EatOne(p, 0xa5);
    var p1 := Eat(p, 0xa5);
    var p2 := Eat(p1, 0x5a);
    assert EatAll(p, h[..4][..3][..2]) == p2;
    var p3 := Eat(p2, cmd);
    assert EatAll(p, h[..4][..3]) == p3;
    var p4 := Eat(p3, n / 256);
    assert EatAll(p, h[..4]) == p4;
    assert EatAll(p, h) == Eat(p4, n % 256);
  }

  /** The two checksum bytes deliver the payload if they match and drop it if they do not. */
  lemma EatChecksum(p: Link, crc: nat)
    requires Ready(p) && p.sta.Crc1? && crc < 0x1_0000
    ensures var q := EatAll(p, [crc / 256, crc % 256]);
            var body := p.payload[..p.len];
            && q.sta.A5?
            && q.calls == p.calls + if crc == Crc16(body) then [Call(p.cmd, body)] else []
  {
    var t: seq<Byte> := [crc / 256, crc % 256];
    assert t[..1] == [crc / 256];
    EatOne(p, crc / 256);
    var p1 := Eat(p, crc / 256);
    assert EatAll(p, t) == Eat(p1, crc % 256);
  }

  /** A frame of any payload the parser has room for is handled once, and the parser is idle again. */
  lemma FrameIsHandled(p: Link, cmd: Byte, payload: seq<Byte>)
    requires Ready(p) && p.sta.A5? && |payload| <= MAX_PAYLOAD
    ensures var q := EatAll(p, Package(cmd, payload));
            q.sta.A5? && q.calls == p.calls + [Call(cmd, payload)]
  {
    hide Eat, EatAll, Crc16;
    var n, crc := |payload|, Crc16(payload);
    assert n / 256 % 256 == n / 256;
    var h: seq<Byte> := [0xa5, 0x5a, cmd, n / 256, n % 256];
    var t: seq<Byte> := [crc / 256, crc % 256];
    EatInParts(p, h + payload, t);
    EatInParts(p, h, payload);
    EatHeader(p, cmd, n);
    var body := p.(sta := Data, cmd := cmd, len := n, count := 0);
    EatPayload(body, payload);
    var full := Norm(Copied(body, payload));
    assert full.payload[..n] == payload;
    EatChecksum(full, crc);
  }

  ghost function Packages(cs: seq<Call>): seq<Byte>
    requires forall i :: 0 <= i < |cs| ==> |cs[i].payload| <= MAX_PAYLOAD
  {
    if cs == [] then [] else Packages(cs[..|cs| - 1]) + Package(cs[|cs| - 1].cmd, cs[|cs| - 1].payload)
  }

  /** Back-to-back frames are handled in order, each exactly once. */
  lemma {:induction false} FramesAreHandled(p: Link, cs: seq<Call>)
    requires Ready(p) && p.sta.A5?
    requires forall i :: 0 <= i < |cs| ==> |cs[i].payload| <= MAX_PAYLOAD
    ensures var q := EatAll(p, Packages(cs)); q.sta.A5? && q.calls == p.calls + cs
    decreases |cs|
  {
    hide Eat, Package, Ready;
    if cs == [] {
      assert p.calls + cs == p.calls;
    } else {
      var init, last := cs[..|cs| - 1], cs[|cs| - 1];
      FramesAreHandled(p, init);
      EatInParts(p, Packages(init), Package(last.cmd, last.payload));
      FrameIsHandled(EatAll(p, Packages(init)), last.cmd, last.payload);
      assert p.calls + cs == p.calls + init + [last];
    }
  }

  /** Noise between frames is skipped unless it contains the first magic byte. */
  lemma {:induction false} NoiseIsSkipped(p: Link, noise: seq<Byte>)
    requires Ready(p) && p.sta.A5? && 0xa5 !in noise
    ensures EatAll(p, noise) == p
    decreases |noise|
  {
    if noise != [] {
      NoiseIsSkipped(p, noise[..|noise| - 1]);
    }
  }

  lemma {:induction false} RunOfMagic(p: Link, run: seq<Byte>)
    requires Ready(p) && p.sta.A5? && forall i :: 0 <= i < |run| ==> run[i] == 0xa5
    ensures EatAll(p, run) == p.(sta := if |run| % 2 == 0 then A5 else FiveA)
    decreases |run|
  {
    if run != [] {
      RunOfMagic(p, run[..|run| - 1]);
    }
  }

  /** Calls are never taken back. */
  lemma {:induction false} CallsGrow(p: Link, s: seq<Byte>)
    requires Ready(p)
    ensures p.calls <= EatAll(p, s).calls
    decreases |s|
  {
    hide Ready;
    if s != [] {
      CallsGrow(p, s[..|s| - 1]);
    }
  }

  /** How many bytes an idle parser has taken in, at least, to be where it is. */
  function Needed(p: Link): nat {
    match p.sta
    case A5 => 0
    case FiveA => 1
    case Cmd => 2
    case Len1 => 3
    case Len2 => 4
    case Data => 5 + p.count
    case Crc1 => 5 + p.len
    case Crc2 => 6 + p.len
  }

  // ---------------------------------------------------------------- any bytes whatsoever

  /** The frame of a call ends behind the first k bytes of s. */
  ghost predicate FrameAt(s: seq<Byte>, k: nat, c: Call) {
    var f := Package(c.cmd, c.payload);
    |f| <= k <= |s| && s[k - |f|..k] == f
  }

  /** The frames of the calls are in s, one behind the other. */
  ghost predicate Heard(s: seq<Byte>, cs: seq<Call>)
    decreases |cs|
  {
    if cs == [] then true else
    var c, init := cs[|cs| - 1], cs[..|cs| - 1];
    exists k: nat :: FrameAt(s, k, c) && Heard(s[..k - |Package(c.cmd, c.payload)|], init)
  }

  lemma HeardMore(a: seq<Byte>, b: seq<Byte>, cs: seq<Call>)
    requires Heard(a, cs)
    ensures Heard(a + b, cs)
  {
    hide Package;
    if cs != [] {
      var c, init := cs[|cs| - 1], cs[..|cs| - 1];
      var n := |Package(c.cmd, c.payload)|;
      var k: nat :| FrameAt(a, k, c) && Heard(a[..k - n], init);
      assert (a + b)[k - n..k] == a[k - n..k] && (a + b)[..k - n] == a[..k - n];
      assert FrameAt(a + b, k, c);
    }
  }

  lemma HeardNext(s: seq<Byte>, cs: seq<Call>, c: Call)
    requires Heard(s, cs)
    ensures Heard(s + Package(c.cmd, c.payload), cs + [c])
  {
    hide Package;
    var f := Package(c.cmd, c.payload);
    var t, ds := s + f, cs + [c];
    assert t[|t| - |f|..|t|] == f && t[..|t| - |f|] == s;
    assert ds[|ds| - 1] == c && ds[..|ds| - 1] == cs;
    assert FrameAt(t, |t|, c) && Heard(t[..|t| - |f|], cs);
  }

  /** What the parser has seen of the frame it is in. */
  ghost function Partial(p: Link): (w: seq<Byte>)
    requires Good(p)
  {
    match p.sta
    case A5 => []
    case FiveA => [0xa5]
    case Cmd => [0xa5, 0x5a]
    case Len1 => [0xa5, 0x5a, p.cmd]
    case Len2 => [0xa5, 0x5a, p.cmd, p.len]
    case Data => [0xa5, 0x5a, p.cmd, p.len / 256, p.len % 256] + p.payload[..p.count]
    case Crc1 => [0xa5, 0x5a, p.cmd, p.len / 256, p.len % 256] + p.payload[..p.len]
    case Crc2 => [0xa5, 0x5a, p.cmd, p.len / 256, p.len % 256] + p.payload[..p.len] + [p.crc]
  }

  /** Every byte goes on with the frame, gives it up, or completes it; only then the handler is called. */
  lemma EatGoesOn(p: Link, b: Byte)
    requires Ready(p)
    ensures var q, w := Eat(p, b), Partial(p) + [b];
            if q.calls == p.calls then Partial(q) == w || Partial(q) == []
            else && |q.calls| == |p.calls| + 1 && q.calls[..|p.calls|] == p.calls && Partial(q) == []
                 && var c := q.calls[|p.calls|]; w == Package(c.cmd, c.payload)
  {
    hide Crc16;
    var w := Partial(p) + [b];
    match p.sta
    case Data =>
      var d := p.payload[p.count := b];
      assert d[..p.count + 1] == p.payload[..p.count] + [b];
      assert Partial(Eat(p, b)) == w;
    case Crc2 =>
      var head: seq<Byte> := [0xa5, 0x5a, p.cmd, p.len / 256, p.len % 256];
      assert w == head + p.payload[..p.len] + [p.crc, b];
      assert Eat(p, b).calls[..|p.calls|] == p.calls;
      if Eat(p, b).calls != p.calls {
        assert (p.crc * 256 + b) / 256 == p.crc && (p.crc * 256 + b) % 256 == b;
      }
    case Len2 => LengthBytes(p.len, b);
    case _ =>
  }

  lemma LengthBytes(high: Byte, low: Byte)
    ensures (high * 256 + low) / 256 == high && (high * 256 + low) % 256 == low
  {
  }

  /** Whatever an idle parser is fed, the handler is only called for frames that arrived, in their order. */
  lemma {:induction false} OnlyFramesAreHandled(p: Link, s: seq<Byte>)
    requires Ready(p) && p.sta.A5? && p.calls == []
    ensures var q := EatAll(p, s);
            var w := Partial(q);
            && |w| <= |s| && s[|s| - |w|..] == w && Heard(s[..|s| - |w|], q.calls)
            && Heard(s, q.calls)
    decreases |s|
  {
    hide Eat, Package, Heard, Partial;
    if s == [] {
      NothingHeard(p);
    } else {
      var init, b := s[..|s| - 1], s[|s| - 1];
      OnlyFramesAreHandled(p, init);
      var r, q := EatAll(p, init), EatAll(p, s);
      var w := Partial(r);
      var front := init[..|init| - |w|];
      EatGoesOn(r, b);
      assert s == front + (w + [b]);
      if q.calls == r.calls {
        HeardMore(front, w + [b], q.calls);
        if Partial(q) == w + [b] {
          assert s[|s| - |w + [b]|..] == w + [b] && s[..|s| - |w + [b]|] == front;
        } else {
          assert s[|s|..] == [] && s[..|s|] == s;
        }
      } else {
        var c := q.calls[|r.calls|];
        HeardNext(front, r.calls, c);
        assert q.calls == r.calls + [c] && s[..|s|] == s;
      }
    }
  }

  lemma NothingHeard(p: Link)
    requires Ready(p) && p.sta.A5? && p.calls == []
    ensures Partial(p) == [] && Heard([], p.calls) && Heard([][..0], p.calls)
  {
  }

  /** The first call of an idle parser takes at least the bytes of a frame with its payload. */
  lemma {:induction false} CallNeedsFrame(p: Link, s: seq<Byte>)
    requires Ready(p) && p.sta.A5?
    ensures var q := EatAll(p, s);
            if q.calls == p.calls then |s| >= Needed(q)
            else |q.calls| > |p.calls| && |s| >= MIN_PACKAGE + |q.calls[|p.calls|].payload|
    decreases |s|
  {
    hide Crc16;
    if s != [] {
      var init := s[..|s| - 1];
      CallNeedsFrame(p, init);
      var q := EatAll(p, init);
      if q.calls == p.calls {
        EatNeeds(q, s[|s| - 1]);
      }
    }
  }

  lemma EatNeeds(p: Link, b: Byte)
    requires Ready(p)
    ensures var q := Eat(p, b);
            if q.calls == p.calls then Needed(q) <= Needed(p) + 1
            else q.calls[|p.calls|].payload == p.payload[..p.len] && MIN_PACKAGE + p.len == Needed(p) + 1
  {
    hide Crc16;
  }

  /** As long as a byte of a frame is missing, the handler is not called. */
  lemma PartialFrameIsQuiet(p: Link, cmd: Byte, payload: seq<Byte>, k: nat)
    requires Ready(p) && p.sta.A5? && |payload| <= MAX_PAYLOAD && k < |Package(cmd, payload)|
    ensures EatAll(p, Package(cmd, payload)[..k]).calls == p.calls
  {
    hide EatAll, Eat, Package, Ready;
    var f := Package(cmd, payload);
    FrameIsHandled(p, cmd, payload);
    assert f == f[..k] + f[k..];
    EatInParts(p, f[..k], f[k..]);
    var q := EatAll(p, f[..k]);
    CallsGrow(p, f[..k]);
    CallsGrow(q, f[k..]);
    CallNeedsFrame(p, f[..k]);
  }

  /**
   A run of first magic bytes before a frame: the parser does not restart on the second one, so the
   frame is handled exactly when the run is of even length.
   */
  lemma FrameAfterRun(p: Link, run: seq<Byte>, cmd: Byte, payload: seq<Byte>)
    requires Ready(p) && p.sta.A5? && |payload| <= MAX_PAYLOAD && forall i :: 0 <= i < |run| ==> run[i] == 0xa5
    ensures EatAll(p, run + Package(cmd, payload)).calls == p.calls + [Call(cmd, payload)] <==> |run| % 2 == 0
  {
    hide EatAll, Crc16;
    RunOfMagic(p, run);
    var f := Package(cmd, payload);
    var q := EatAll(p, run);
    EatInParts(p, run, f);
    if |run| % 2 == 0 {
      FrameIsHandled(q, cmd, payload);
    } else {
      hide Package;
      assert f == [f[0]] + f[1..];
      EatInParts(q, [f[0]], f[1..]);
      EatOne(q, f[0]);
      var idle := Eat(q, f[0]);
      assert idle.sta.A5? && idle.calls == p.calls by {
        FrameStarts(cmd, payload);
      }
      CallNeedsFrame(idle, f[1..]);
    }
  }

  /** The shortest such run: one more magic byte, and a frame with an empty payload is lost. */
  lemma DoubledMagicHidesFrame(p: Link, cmd: Byte)
    requires Ready(p) && p.sta.A5?
    ensures EatAll(p, [0xa5] + Package(cmd, [])).calls != p.calls + [Call(cmd, [])]
  {
    hide EatAll, Package, Ready;
    FrameAfterRun(p, [0xa5], cmd, []);
  }

  lemma FrameStarts(cmd: Byte, payload: seq<Byte>)
    ensures Package(cmd, payload)[0] == 0xa5
  {
  }

  // ---------------------------------------------------------------- the parser as it runs

  lemma NextSlice(s: seq<Byte>, i: nat, l: nat)
    requires i + l <= |s|
    ensures s[..i] + s[i..][..l] == s[..i + l]
  {
  }

  class Parser {
    var sta: Phase
    var cmd: Byte
    var len: nat
    var count: nat
    var crc: nat
    const payload: array<Byte>
    ghost var calls: seq<Call>

    ghost function View(): Link
      reads this, payload
    {
      Link(sta, cmd, len, count, crc, payload[..], calls)
    }

    ghost predicate Valid()
      reads this, payload
    {
      Good(View())
    }

    /** What the reference parser would look like in this state. */
    ghost function State(): (p: Link)
      requires Valid()
      reads this, payload
      ensures Ready(p)
    {
      Norm(View())
    }

    constructor ()
      ensures Valid() && fresh(payload) && State().sta.A5? && State().calls == []
    {
      sta, cmd, len, count, crc := A5, 0, 0, 0, 0;
      payload := new Byte[MAX_PAYLOAD](_ => 0);
      calls := [];
    }

    /** Every phase but the payload copy. */
    method Step(b: Byte)
      requires Valid() && !sta.Data?
      modifies this
      ensures Valid() && State() == Eat(old(State()), b)
    {
      match sta
      case A5 => sta := if b == 0xa5 then FiveA else A5;
      case FiveA => sta := if b == 0x5a then Cmd else A5;
      case Cmd => cmd, sta := b, Len1;
      case Len1 => len, sta := b, Len2;
      case Len2 =>
        len := len * 256 + b;
        if len <= MAX_PAYLOAD {
          count, sta := 0, Data;
        } else {
          sta := A5;
        }
      case Crc1 => crc, sta := b, Crc2;
      case Crc2 => Check(b);
    }

    method Check(b: Byte)
      requires Valid() && sta.Crc2?
      modifies this
      ensures Valid() && State() == Eat(old(State()), b)
    {
      crc := crc * 256 + b;
      var c := ComputeCrc(payload[..len]);
      assert payload[..len] == payload[..][..len];
      if c == crc {
        calls := calls + [Call(cmd, payload[..len])];
      }
      sta := A5;
    }

    method CopyBytes(d: seq<Byte>)
      requires count + |d| <= payload.Length
      modifies payload
      ensures payload[..] == old(payload[..])[..count] + d + old(payload[..])[count + |d|..]
    {
      forall i | 0 <= i < |d| {
        payload[count + i] := d[i];
      }
    }

    /** The payload phase: copy what is there, up to what is missing. */
    method Copy(rest: seq<Byte>) returns (l: nat)
      requires Valid() && sta.Data?
      modifies `count, `sta, payload
      ensures Valid() && l <= |rest| && (sta.Data? ==> count < len)
      ensures l == 0 ==> |rest| == 0 || old(count == len)
      ensures State() == EatAll(old(State()), rest[..l])
    {
      hide EatAll, Ready;
      l := Min(|rest|, len - count);
      EatPayload(View(), rest[..l]);
      CopyBytes(rest[..l]);
      count := count + l;
      sta := if count == len then Crc1 else Data;
    }

    /** The parse loop over one pulled chunk: the same as the reference parser, byte by byte. */
    method Feed(chunk: seq<Byte>)
      requires Valid()
      modifies this, payload
      ensures Valid() && State() == EatAll(old(State()), chunk)
    {
      hide Good, Eat, Norm, Ready;
      var i := 0;
      while i < |chunk|
        invariant i <= |chunk| && Valid()
        invariant State() == EatAll(old(State()), chunk[..i])
        decreases |chunk| - i, if sta.Data? && count == len then 1 else 0
      {
        ghost var before := State();
        if sta.Data? {
          var l := Copy(chunk[i..]);
          EatInParts(old(State()), chunk[..i], chunk[i..][..l]);
          NextSlice(chunk, i, l);
          i := i + l;
        } else {
          EatOne(before, chunk[i]);
          EatInParts(old(State()), chunk[..i], [chunk[i]]);
          assert chunk[..i] + [chunk[i]] == chunk[..i + 1];
          Step(chunk[i]);
          i := i + 1;
        }
      }
      assert chunk[..i] == chunk;
    }
  }

  /** In the middle of a frame the parser is never idle. */
  lemma PartialFrameIsBusy(p: Link, cmd: Byte, payload: seq<Byte>, k: nat)
    requires Ready(p) && p.sta.A5? && |payload| <= MAX_PAYLOAD && 0 < k < |Package(cmd, payload)|
    ensures EatAll(p, Package(cmd, payload)[..k]).sta != A5
  {
    hide EatAll, Eat, Package, Ready;
    var f := Package(cmd, payload);
    var q := EatAll(p, f[..k]);
    FrameIsHandled(p, cmd, payload);
    PartialFrameIsQuiet(p, cmd, payload, k);
    assert f == f[..k] + f[k..];
    EatInParts(p, f[..k], f[k..]);
    if q.sta.A5? {
      CallNeedsFrame(q, f[k..]);
    }
  }

  // ---------------------------------------------------------------- the handler task

  /** How many of n waiting bytes one wake-up consumes. */
  function Taken(n: nat): (k: nat)
    ensures k <= n && n - k < MIN_PACKAGE
  {
    if n <= PULL then n else if n - PULL < MIN_PACKAGE then PULL else PULL + Taken(n - PULL)
  }

  /** The fill levels whose last pull is not shorter than a frame. */
  predicate Level(n: nat) {
    n <= PULL || n % PULL == 0 || n % PULL >= MIN_PACKAGE
  }

  /** Those are exactly the levels that a wake-up drains. */
  lemma {:induction false} DrainsIff(n: nat)
    ensures Taken(n) == n <==> Level(n)
    decreases n
  {
    hide Level;
    LevelStep(n);
    if n >= PULL + MIN_PACKAGE {
      DrainsIff(n - PULL);
    }
  }

  lemma LevelStep(n: nat)
    ensures n <= PULL ==> Level(n)
    ensures PULL < n < PULL + MIN_PACKAGE ==> !Level(n)
    ensures n >= PULL + MIN_PACKAGE ==> (Level(n) <==> Level(n - PULL))
  {
    if n >= PULL {
      assert n % PULL == (n - PULL) % PULL;
    }
  }

  /** A frame of 131 bytes loses its last three to the next wake-up. */
  lemma ShortTailIsLeft()
    ensures !Level(131) && Taken(131) == 128
  {
  }

  // ---------------------------------------------------------------- bytes in and out

  /** The bytes a device took in, how many of them its parser has seen, and whether its handler task is woken. */
  datatype Flow = Flow(start: Link, size: nat, accepted: seq<Byte>, taken: nat, wake: bool) {
    ghost predicate Valid() {
      Ready(start) && taken <= |accepted| <= taken + size
    }

    function Waiting(): int {
      |accepted| - taken
    }
  }

  /** A reception: as many bytes as there is room for. */
  ghost function Received(f: Flow, data: seq<Byte>): (g: Flow)
    requires f.Valid()
    ensures g.Valid() && f.accepted <= g.accepted && g.taken == f.taken
  {
    var acc := f.accepted + data[..Min(|data|, f.size - f.Waiting())];
    var wakes := |acc| - f.taken >= MIN_PACKAGE || EatAll(f.start, acc[..f.taken]).sta != A5;
    f.(accepted := acc, wake := f.wake || wakes)
  }

  /** One pull of the handler task, and the reception that interrupts it, if any. */
  ghost function Round(f: Flow, arrivals: seq<seq<Byte>>): (g: Flow)
    requires f.Valid()
    ensures g.Valid() && f.accepted <= g.accepted && g.taken == f.taken + Min(PULL, f.Waiting())
    ensures arrivals == [] ==> g == f.(taken := g.taken)
    ensures arrivals != [] ==>
              var room := f.size - f.Waiting() + Min(PULL, f.Waiting());
              g.accepted == f.accepted + arrivals[0][..Min(|arrivals[0]|, room)]
  {
    var pulled := f.(taken := f.taken + Min(PULL, f.Waiting()));
    if arrivals == [] then pulled else Received(pulled, arrivals[0])
  }

  function Rest(arrivals: seq<seq<Byte>>): seq<seq<Byte>> {
    if arrivals == [] then [] else arrivals[1..]
  }

  /** Rounds until less than the shortest frame waits. */
  ghost function Drained(f: Flow, arrivals: seq<seq<Byte>>): (g: Flow)
    requires f.Valid()
    ensures g.Valid() && f.accepted <= g.accepted && f.taken <= g.taken && g.Waiting() < MIN_PACKAGE
    decreases |arrivals|, f.Waiting()
  {
    var g := Round(f, arrivals);
    if g.Waiting() >= MIN_PACKAGE then Drained(g, Rest(arrivals)) else g
  }

  /** Undisturbed, they take the oldest bytes. */
  lemma {:induction false} DrainedAlone(f: Flow)
    requires f.Valid()
    ensures Drained(f, []) == f.(taken := f.taken + Taken(f.Waiting()))
    decreases f.Waiting()
  {
    hide Ready;
    var g := Round(f, []);
    if g.Waiting() >= MIN_PACKAGE {
      DrainedAlone(g);
    }
  }

  /** A reception, or a run of the handler task with receptions after its pulls. */
  datatype Event = Commit(data: seq<Byte>) | Task(arrivals: seq<seq<Byte>>)

  ghost function After(f: Flow, e: Event): (g: Flow)
    requires f.Valid()
    ensures g.Valid()
  {
    match e
    case Commit(data) => Received(f, data)
    case Task(arrivals) => if f.wake then Drained(f.(wake := false), arrivals) else f
  }

  ghost function AfterAll(f: Flow, es: seq<Event>): (g: Flow)
    requires f.Valid()
    ensures g.Valid()
  {
    if es == [] then f else After(AfterAll(f, es[..|es| - 1]), es[|es| - 1])
  }

  lemma AfterNext(f: Flow, es: seq<Event>, i: nat)
    requires f.Valid() && i < |es|
    ensures AfterAll(f, es[..i + 1]) == After(AfterAll(f, es[..i]), es[i])
  {
    assert es[..i + 1][..i] == es[..i];
  }

  class Device {
    const ring: Ring
    const parser: Parser
    var wake: bool
    ghost const start: Link
    ghost var accepted: seq<Byte>  // bytes the ring had room for
    ghost var consumed: seq<Byte>

    ghost predicate Sound()
      reads this, ring, ring.buf, parser, parser.payload
    {
      && ring.Valid() && parser.Valid() && ring.buf != parser.payload
      && Ready(start)
      && consumed + ring.Contents() == accepted
      && parser.State() == EatAll(start, consumed)
    }

    ghost function State(): Flow
      reads this
    {
      Flow(start, ring.size, accepted, |consumed|, wake)
    }

    /** No whole frame ever waits without the handler task having been woken. */
    ghost predicate Valid()
      reads this, ring, ring.buf, parser, parser.payload
    {
      Sound() && (!wake ==> |ring.Contents()| < MIN_PACKAGE)
    }

    constructor ()
      ensures Valid() && accepted == [] && consumed == [] && !wake
      ensures start.sta.A5? && start.calls == [] && ring.size == 1024
      ensures fresh(ring) && fresh(ring.buf) && fresh(parser) && fresh(parser.payload)
    {
      var r := new Ring(1024);
      var q := new Parser();
      ring, parser, wake := r, q, false;
      accepted, consumed, start := [], [], q.State();
    }

    /** bootloader_commit_data, called from the receive interrupt */
    method Commit(data: seq<Byte>)
      requires Sound()
      modifies `wake, `accepted, ring`inn, ring`pushed, ring.buf
      ensures Valid() && consumed == old(consumed)
      ensures accepted == old(accepted) + data[..Min(|data|, ring.size - |old(ring.Contents())|)]
      ensures wake == (old(wake) || |ring.Contents()| >= MIN_PACKAGE || parser.sta != A5)
    {
      hide EatAll, Ready, Window, GoodSize, Word, Norm, Good, Slot;
      var n := ring.Put(data);
      accepted := accepted + data[..n];
      var available := ring.Available();
      if available >= MIN_PACKAGE || parser.sta != A5 {
        wake := true;
      }
    }

    /** bootloader_com_handler_task, interrupted by a reception of `arrivals[i]` after its i-th pull. */
    method Task(arrivals: seq<seq<Byte>>)
      requires Valid()
      modifies this, ring, ring.buf, parser, parser.payload
      ensures Valid() && |ring.Contents()| < MIN_PACKAGE
      ensures old(State()).Valid() && State() == After(old(State()), Event.Task(arrivals))
      ensures old(consumed) <= consumed && old(accepted) <= accepted
      ensures !old(wake) || arrivals == [] ==>
                var c := old(ring.Contents());
                && accepted == old(accepted) && !wake
                && consumed == old(consumed) + if old(wake) then c[..Taken(|c|)] else []
    {
      hide EatAll, Ready, Window, GoodSize, Word, Slot, Drained, Received, Taken;
      StateIsValid();
      if !wake {
        return;
      }
      wake := false;
      Drain(arrivals);
    }

    /**
     A frame that an idle device receives at once is handled by the wake-up it causes exactly when its
     length is a level that a wake-up drains.
     */
    method ReceiveFrame(cmd: Byte, payload: seq<Byte>, frame: seq<Byte>)
      requires Valid() && frame == Package(cmd, payload) && |frame| <= ring.size && |payload| <= MAX_PAYLOAD
      requires ring.Contents() == [] && parser.State().sta.A5?
      modifies this, ring, ring.buf, parser, parser.payload
      ensures Valid()
      ensures parser.State().calls == old(parser.State().calls) + if Level(|frame|) then [Call(cmd, payload)] else []
    {
      hide EatAll, Ready, Package, Window, GoodSize, Word, Slot, Good;
      ghost var p, k := parser.State(), Taken(|frame|);
      DrainsIff(|frame|);
      EatInParts(start, consumed, frame[..k]);
      if k == |frame| {
        assert frame[..k] == frame;
        FrameIsHandled(p, cmd, payload);
      } else {
        PartialFrameIsQuiet(p, cmd, payload, k);
      }
      assert frame[..|frame|] == frame;
      assert consumed == accepted;
      Commit(frame);
      assert ring.Contents() == accepted[|consumed|..] == frame;
      Task([]);
    }

    /**
     The rest of a frame, received at once when the device has consumed the beginning: however short it is, it
     wakes the handler task, and is handled exactly when its length is a level that a wake-up drains.
     */
    method ReceiveRest(cmd: Byte, payload: seq<Byte>, k: nat, rest: seq<Byte>, ghost p: Link)
      requires Valid() && |payload| <= MAX_PAYLOAD && 0 < k < MIN_PACKAGE + |payload| && |rest| <= ring.size
      requires rest == Package(cmd, payload)[k..] && ring.Contents() == []
      requires Ready(p) && p.sta.A5? && parser.State() == EatAll(p, Package(cmd, payload)[..k])
      modifies this, ring, ring.buf, parser, parser.payload
      ensures Valid()
      ensures parser.State().calls == p.calls + if Level(|rest|) then [Call(cmd, payload)] else []
    {
      hide EatAll, Ready, Package, Window, GoodSize, Word, Slot, Good;
      ghost var frame, n := Package(cmd, payload), Taken(|rest|);
      DrainsIff(|rest|);
      PartialFrameIsBusy(p, cmd, payload, k);
      EatInParts(start, consumed, rest[..n]);
      EatInParts(p, frame[..k], rest[..n]);
      assert frame[..k] + rest[..n] == frame[..k + n];
      if n == |rest| {
        assert frame[..k + n] == frame;
        FrameIsHandled(p, cmd, payload);
      } else {
        PartialFrameIsQuiet(p, cmd, payload, k + n);
      }
      assert rest[..|rest|] == rest;
      assert consumed == accepted;
      Commit(rest);
      assert ring.Contents() == accepted[|consumed|..] == rest;
      Task([]);
    }

    /** What the handler task consumes: undisturbed, exactly the oldest bytes. */
    method Drain(arrivals: seq<seq<Byte>>)
      requires Sound()
      modifies this, ring, ring.buf, parser, parser.payload
      ensures Sound() && |Waiting()| < MIN_PACKAGE
      ensures old(State()).Valid() && State() == Drained(old(State()), arrivals)
      ensures old(consumed) <= consumed && old(accepted) <= accepted
      ensures arrivals == [] ==> accepted == old(accepted) && wake == old(wake)
      ensures arrivals == [] ==> consumed == old(consumed) + old(Waiting())[..Taken(old(|Waiting()|))]
    {
      hide Sound, Window, GoodSize, Word, Slot, Drained, Taken, Ready;
      StateIsValid();
      ghost var before, c, f := consumed, Waiting(), State();
      Rounds(arrivals);
      Prefixes(before, c, consumed, Waiting());
      if arrivals == [] {
        DrainedAlone(f);
      }
    }

    /** The do-while loop of the handler task. */
    method Rounds(arrivals: seq<seq<Byte>>)
      requires Sound()
      modifies this, ring, ring.buf, parser, parser.payload
      ensures Sound() && |Waiting()| < MIN_PACKAGE
      ensures old(State()).Valid() && State() == Drained(old(State()), arrivals)
    {
      hide Sound, Window, GoodSize, Word, Slot, Drained, Round, Ready;
      StateIsValid();
      ghost var f := State();
      assert arrivals[0..] == arrivals;
      DrainedStep(f, arrivals);
      var i := PullAndReceive(arrivals, 0);
      var available := Waits();
      while available >= MIN_PACKAGE
        invariant Sound() && available == |Waiting()| == State().Waiting() && i <= |arrivals| && State().Valid()
        invariant Drained(f, arrivals) == if available >= MIN_PACKAGE then Drained(State(), arrivals[i..]) else State()
        decreases |arrivals| - i, available
      {
        DrainedStep(State(), arrivals[i..]);
        i := PullAndReceive(arrivals, i);
        available := Waits();
      }
    }

    /** One round of the loop, and the reception that interrupts it, if any. */
    method PullAndReceive(arrivals: seq<seq<Byte>>, i: nat) returns (next: nat)
      requires Sound() && i <= |arrivals|
      modifies this, ring, ring.buf, parser, parser.payload
      ensures Sound() && next == Min(i + 1, |arrivals|) && arrivals[next..] == Rest(arrivals[i..])
      ensures old(State()).Valid() && State() == Round(old(State()), arrivals[i..])
    {
      hide Sound, Window, GoodSize, Word, Slot, Received, Ready;
      StateIsValid();
      Pull();
      next := i;
      if i < |arrivals| {
        Receive(arrivals[i]);
        next := i + 1;
      }
    }

    method Receive(data: seq<Byte>)
      requires Sound()
      modifies `wake, `accepted, ring`inn, ring`pushed, ring.buf
      ensures Valid() && consumed == old(consumed)
      ensures old(State()).Valid() && State() == Received(old(State()), data)
    {
      hide EatAll, Ready, Window, GoodSize, Word, Good, Slot;
      StateIsValid();
      Commit(data);
      assert accepted[..|consumed|] == consumed;
    }

    lemma StateIsValid()
      requires Sound()
      ensures State().Valid() && State().Waiting() == |ring.Contents()|
    {
      hide EatAll, Ready, Window;
    }

    ghost function Waiting(): (w: seq<Byte>)
      requires Sound()
      reads this, ring, ring.buf, parser, parser.payload
      ensures consumed + w == accepted
    {
      ring.Contents()
    }

    method Waits() returns (n: nat)
      requires Sound()
      ensures n == |Waiting()| == State().Waiting()
    {
      n := ring.Available();
    }


    /** One ringbuffer_get and the parse loop over what it returned. */
    method Pull()
      requires Sound()
      modifies `consumed, ring`out, ring`popped, parser, parser.payload
      ensures Sound() && old(consumed) <= consumed
      ensures State() == old(State()).(taken := old(|consumed|) + Min(PULL, old(|Waiting()|)))
    {
      hide EatAll, Ready, Window;
      var chunk := ring.Get(PULL);
      EatInParts(start, consumed, chunk);
      parser.Feed(chunk);
      consumed := consumed + chunk;
    }
  }

  lemma DrainedStep(f: Flow, arrivals: seq<seq<Byte>>)
    requires f.Valid()
    ensures var g := Round(f, arrivals);
            Drained(f, arrivals) == if g.Waiting() >= MIN_PACKAGE then Drained(g, Rest(arrivals)) else g
  {
  }

  lemma Prefixes(a: seq<Byte>, b: seq<Byte>, c: seq<Byte>, d: seq<Byte>)
    requires a + b <= c + d && |a| <= |c|
    ensures a <= c && (a + b == c + d ==> c == a + b[..|c| - |a|])
  {
    assert a == (a + b)[..|a|] == (c + d)[..|a|] == c[..|a|];
    if a + b == c + d {
      assert c == (c + d)[..|c|];
      assert (a + b)[..|c|] == a + b[..|c| - |a|];
    }
  }

  /**
   Any sequence of receptions, cut up in any way, between and inside any task runs: the device takes in and
   consumes exactly what these make of it, and when the bytes taken in are the
   beginning of some frames, the handler has been called for a prefix of the frames, in order; with every
   byte consumed, for all of them.
   */
  method RunDevice(events: seq<Event>, ghost cs: seq<Call>) returns (d: Device)
    requires forall i :: 0 <= i < |cs| ==> |cs[i].payload| <= MAX_PAYLOAD
    ensures d.Valid() && d.start.sta.A5? && d.start.calls == []
    ensures var f := Flow(d.start, 1024, [], 0, false); f.Valid() && d.State() == AfterAll(f, events)
    ensures d.parser.State() == EatAll(d.start, d.accepted[..d.State().taken])
    ensures Heard(d.accepted, d.parser.State().calls)
    ensures d.accepted <= Packages(cs) ==> d.parser.State().calls <= cs
    ensures d.accepted == Packages(cs) && d.ring.Contents() == [] ==>
              d.parser.State().calls == cs && d.parser.State().sta.A5?
  {
    hide EatAll, Ready, Packages, AfterAll, Window, Word, Slot, GoodSize, Heard, Partial;
    d := RunAll(events);
    CallsFollow(d.start, d.consumed, d.ring.Contents(), cs);
    OnlyFramesAreHandled(d.start, d.consumed);
    HeardMore(d.consumed, d.ring.Contents(), d.parser.State().calls);
  }

  /** The calls of a parser that has seen the first of the bytes taken in. */
  lemma CallsFollow(start: Link, seen: seq<Byte>, waiting: seq<Byte>, cs: seq<Call>)
    requires Ready(start) && start.sta.A5? && start.calls == []
    requires forall i :: 0 <= i < |cs| ==> |cs[i].payload| <= MAX_PAYLOAD
    ensures (seen + waiting)[..|seen|] == seen
    ensures seen + waiting <= Packages(cs) ==> EatAll(start, seen).calls <= cs
    ensures seen + waiting == Packages(cs) && waiting == [] ==>
              EatAll(start, seen).calls == cs && EatAll(start, seen).sta.A5?
  {
    hide EatAll, Ready, Packages;
    FramesAreHandled(start, cs);
    assert [] + cs == cs;
    if seen + waiting <= Packages(cs) {
      var rest := Packages(cs)[|seen|..];
      assert seen == (seen + waiting)[..|seen|] == Packages(cs)[..|seen|];
      assert Packages(cs) == seen + rest;
      EatInParts(start, seen, rest);
      CallsGrow(EatAll(start, seen), rest);
    }
    assert waiting == [] ==> seen + waiting == seen;
  }

  method RunAll(events: seq<Event>) returns (d: Device)
    ensures d.Valid() && d.start.sta.A5? && d.start.calls == []
    ensures var f := Flow(d.start, 1024, [], 0, false); f.Valid() && d.State() == AfterAll(f, events)
  {
    hide EatAll, Ready, Received, After, AfterAll, Word, Window, Slot;
    d := new Device();
    d.StateIsValid();
    ghost var f := d.State();
    NoEvents(f, events);
    for i := 0 to |events|
      invariant d.Valid() && d.start.sta.A5? && d.start.calls == []
      invariant f == Flow(d.start, 1024, [], 0, false) && f.Valid()
      invariant d.State() == AfterAll(f, events[..i])
      invariant fresh(d) && fresh(d.ring) && fresh(d.ring.buf) && fresh(d.parser) && fresh(d.parser.payload)
    {
      AfterNext(f, events, i);
      Perform(d, events[i]);
    }
    assert events[..|events|] == events;
  }

  method Perform(d: Device, e: Event)
    requires d.Valid()
    modifies d, d.ring, d.ring.buf, d.parser, d.parser.payload
    ensures d.Valid() && old(d.State()).Valid() && d.State() == After(old(d.State()), e)
  {
    hide EatAll, Ready, Received, Drained, Word, Window, Slot;
    match e
    case Commit(data) => d.Receive(data);
    case Task(arrivals) => d.Task(arrivals);
  }

  lemma NoEvents(f: Flow, es: seq<Event>)
    requires f.Valid()
    ensures AfterAll(f, es[..0]) == f
  {
  }
}
