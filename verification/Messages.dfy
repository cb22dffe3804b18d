/**
 Message parameters on the wire: integers as variable-length quantities, byte buffers with a
 length prefix.  Host and micro-controller have their own encoders and decoders.
 */
module Messages {
  import opened Bytes
  import opened Numbers
  import opened Options

  // ---------------------------------------------------------------- seven-bit groups

  /** Drop k groups of seven bits, rounding down. */
  function Shift(x: int, k: nat): int {
    if k == 0 then x else Shift(x, k - 1) / 128
  }

  /** The lowest k + 1 groups of x, highest first, all but the last with the continuation bit. */
  function Groups(x: int, k: nat): (s: seq<Byte>)
    ensures |s| == k + 1
  {
    if k == 0 then [x % 128] else [128 + Shift(x, k) % 128] + Groups(x, k - 1)
  }

  /** k + 1 groups are enough for x, and the top one tells its sign. */
  predicate Spans(x: int, k: nat) {
    -32 <= Shift(x, k) < 96
  }

  /** The first byte of a quantity: its two high bits extend the sign over all 32 bits. */
  function SignExtend(c: Byte): (v: int)
    ensures 0 <= v < WORD
  {
    var low: int := c % 128;
    if low >= 96 then low - 128 + WORD else low
  }

  datatype Parsed = Parsed(value: int, pos: nat) | Overrun

  /** The loop of parse_int: c is the byte just read. */
  function ParseMore(v: int, c: Byte, buf: seq<Byte>, pos: nat): Parsed
    decreases if pos <= |buf| then |buf| - pos else 0
  {
    if c < 128 then Parsed(v, pos)
    else if pos >= |buf| then Overrun
    else ParseMore((v * 128 + buf[pos] % 128) % WORD, buf[pos], buf, pos + 1)
  }

  function Parse(buf: seq<Byte>, pos: nat): Parsed {
    if pos >= |buf| then Overrun else ParseMore(SignExtend(buf[pos]), buf[pos], buf, pos + 1)
  }

  lemma ModStep(a: int, g: int)
    ensures ((a % WORD) * 128 + g) % WORD == (a * 128 + g) % WORD
  {
    var q := a / WORD;
    assert a * 128 + g == (a % WORD) * 128 + g + (q * 128) * WORD;
    ModShift((a % WORD) * 128 + g, q * 128);
  }

  /** In the middle of a quantity: the groups read so far determine the rest. */
  lemma {:induction false} ParseRest(x: int, k: nat, c: Byte, buf: seq<Byte>, pos: nat)
    requires if k == 0 then c < 128 else c >= 128 && pos + k <= |buf| && buf[pos..pos + k] == Groups(x, k - 1)
    ensures ParseMore(Shift(x, k) % WORD, c, buf, pos) == Parsed(x % WORD, pos + k)
    decreases k
  {
    if k > 0 {
      var g := Groups(x, k - 1);
      var c' := buf[pos];
      assert c' == g[0] == buf[pos..pos + k][0];
      var s := Shift(x, k - 1);
      assert s == Shift(x, k) * 128 + s % 128;
      assert c' % 128 == s % 128;
      ModStep(Shift(x, k), s % 128);
      assert buf[pos + 1..pos + k] == g[1..];
      ParseRest(x, k - 1, c', buf, pos + 1);
    }
  }

  lemma SignOfTop(x: int, k: nat)
    requires Spans(x, k)
    ensures SignExtend(Groups(x, k)[0]) == Shift(x, k) % WORD
  {
    var t := Shift(x, k);
    var g: int := Groups(x, k)[0];
    assert g == if k == 0 then t % 128 else 128 + t % 128;
    SignOfGroup(t, g);
  }

  lemma SignOfGroup(t: int, g: Byte)
    requires -32 <= t < 96 && (g == t % 128 || g == 128 + t % 128)
    ensures SignExtend(g) == t % WORD
  {
    if t < 0 {
      assert t % 128 == t + 128 && t % WORD == t + WORD;
    } else {
      assert t % 128 == t && t % WORD == t;
    }
    assert g % 128 == t % 128;
  }

  /** Both decoders read the groups of x as x modulo 2^32, and stop right behind them. */
  lemma ParseGroups(x: int, k: nat, buf: seq<Byte>, pos: nat)
    requires Spans(x, k) && pos + k + 1 <= |buf| && buf[pos..pos + k + 1] == Groups(x, k)
    ensures Parse(buf, pos) == Parsed(x % WORD, pos + k + 1)
  {
    var g := Groups(x, k);
    assert buf[pos] == buf[pos..pos + k + 1][0] == g[0];
    SignOfTop(x, k);
    assert k > 0 ==> buf[pos + 1..pos + k + 1] == buf[pos..pos + k + 1][1..] == g[1..];
    ParseRest(x, k, buf[pos], buf, pos + 1);
  }

  // ---------------------------------------------------------------- the two encoders

  function Signed(v: int): int {
    if v >= 0x8000_0000 then v - WORD else v
  }

  /** encode_int: small magnitudes, read as signed numbers, get short encodings. */
  function McuEncode(v: int): (s: seq<Byte>)
    requires 0 <= v < WORD
  {
    var sv := Signed(v);
    var last: seq<Byte> := [v % 128];
    if -0x20 <= sv < 0x60 then last
    else
      var s3: seq<Byte> := [v / 0x80 % 128 + 128] + last;
      if -0x1000 <= sv < 0x3000 then s3
      else
        var s2: seq<Byte> := [v / 0x4000 % 128 + 128] + s3;
        if -0x8_0000 <= sv < 0x18_0000 then s2
        else
          var s1: seq<Byte> := [v / 0x20_0000 % 128 + 128] + s2;
          if -0x400_0000 <= sv < 0xc00_0000 then s1
          else [v / 0x1000_0000 + 128] + s1
  }

  /** PT_base::encode: works on the number itself, so large unsigned values stay long. */
  function HostEncode(v: int): (s: seq<Byte>)
    requires -0x8000_0000 <= v < WORD
  {
    (if v >= 0xc00_0000 || v < -0x400_0000 then [v / 0x1000_0000 % 128 + 128] else []) +
    (if v >= 0x18_0000 || v < -0x8_0000 then [v / 0x20_0000 % 128 + 128] else []) +
    (if v >= 0x3000 || v < -0x1000 then [v / 0x4000 % 128 + 128] else []) +
    (if v >= 0x60 || v < -0x20 then [v / 0x80 % 128 + 128] else []) +
    [v % 128]
  }

  lemma Shifts(x: int)
    ensures Shift(x, 1) == x / 0x80 && Shift(x, 2) == x / 0x4000
    ensures Shift(x, 3) == x / 0x20_0000 && Shift(x, 4) == x / 0x1000_0000
  {
    assert Shift(x, 1) == x / 128;
    assert Shift(x, 2) == (x / 128) / 128;
    assert Shift(x, 3) == (x / 0x4000) / 128;
    assert Shift(x, 4) == (x / 0x20_0000) / 128;
  }

  function HostLength(v: int): (k: nat) {
    if v >= 0xc00_0000 || v < -0x400_0000 then 4
    else if v >= 0x18_0000 || v < -0x8_0000 then 3
    else if v >= 0x3000 || v < -0x1000 then 2
    else if v >= 0x60 || v < -0x20 then 1
    else 0
  }

  lemma HostEncodeIsGroups(v: int)
    requires -0x8000_0000 <= v < WORD
    ensures HostEncode(v) == Groups(v, HostLength(v)) && Spans(v, HostLength(v))
  {
    Shifts(v);
    GroupsUpTo(v);
  }

  /** No shorter encoding would do. */
  lemma HostEncodeIsShortest(v: int)
    requires -0x8000_0000 <= v < WORD
    ensures |HostEncode(v)| == HostLength(v) + 1 && (HostLength(v) > 0 ==> !Spans(v, HostLength(v) - 1))
  {
    Shifts(v);
  }

  /** The number whose groups the micro-controller sends: signed unless it takes five bytes. */
  function McuNumber(v: int): int {
    if HostLength(Signed(v)) == 4 then v else Signed(v)
  }

  lemma Wrap7(v: int)
    ensures (v - WORD) / 0x80 == v / 0x80 - 0x200_0000
  {
  }

  lemma Wrap14(v: int)
    ensures (v - WORD) / 0x4000 == v / 0x4000 - 0x4_0000
  {
  }

  lemma Wrap21(v: int)
    ensures (v - WORD) / 0x20_0000 == v / 0x20_0000 - 0x800
  {
  }

  lemma SameLow(a: int, m: int)
    ensures (a - m * 128) % 128 == a % 128
  {
  }

  /** Below bit 28 the groups of a number and of its 32-bit complement are the same. */
  lemma SameGroups(v: int)
    ensures (v - WORD) % 128 == v % 128
    ensures (v - WORD) / 0x80 % 128 == v / 0x80 % 128
    ensures (v - WORD) / 0x4000 % 128 == v / 0x4000 % 128
    ensures (v - WORD) / 0x20_0000 % 128 == v / 0x20_0000 % 128
  {
    var a, b, c := v / 0x80, v / 0x4000, v / 0x20_0000;
    Wrap7(v);
    Wrap14(v);
    Wrap21(v);
    SameLow(v, 0x200_0000);
    SameLow(a, 0x4_0000);
    SameLow(b, 0x800);
    SameLow(c, 0x10);
  }

  lemma GroupsUpTo(x: int)
    ensures Groups(x, 0) == [x % 128]
    ensures Groups(x, 1) == [x / 0x80 % 128 + 128, x % 128]
    ensures Groups(x, 2) == [x / 0x4000 % 128 + 128, x / 0x80 % 128 + 128, x % 128]
    ensures Groups(x, 3) == [x / 0x20_0000 % 128 + 128, x / 0x4000 % 128 + 128, x / 0x80 % 128 + 128, x % 128]
    ensures Groups(x, 4) == [x / 0x1000_0000 % 128 + 128, x / 0x20_0000 % 128 + 128, x / 0x4000 % 128 + 128,
                             x / 0x80 % 128 + 128, x % 128]
  {
    Shifts(x);
    assert Groups(x, 1) == [128 + Shift(x, 1) % 128] + Groups(x, 0);
    assert Groups(x, 2) == [128 + Shift(x, 2) % 128] + Groups(x, 1);
    assert Groups(x, 3) == [128 + Shift(x, 3) % 128] + Groups(x, 2);
    assert Groups(x, 4) == [128 + Shift(x, 4) % 128] + Groups(x, 3);
  }

  lemma McuSpans(v: int)
    requires 0 <= v < WORD
    ensures Spans(McuNumber(v), HostLength(Signed(v))) && McuNumber(v) % WORD == v
  {
    Shifts(McuNumber(v));
  }

  lemma McuEncodeIsGroups(v: int)
    requires 0 <= v < WORD
    ensures var k := HostLength(Signed(v));
            McuEncode(v) == Groups(McuNumber(v), k) && Spans(McuNumber(v), k) && McuNumber(v) % WORD == v
  {
    McuSpans(v);
    hide Groups, Spans, Shift;
    SameGroups(v);
    GroupsUpTo(McuNumber(v));
    if HostLength(Signed(v)) == 4 {
      assert v / 0x1000_0000 % 128 == v / 0x1000_0000;
    }
  }

  /** Nor does the micro-controller send more than the signed number needs. */
  lemma McuEncodeIsShortest(v: int)
    requires 0 <= v < WORD
    ensures var sv, k := if v >= 0x8000_0000 then v - WORD else v, |McuEncode(v)| - 1;
            k >= 0 && (k > 0 ==> !Spans(sv, k - 1))
  {
    hide McuEncode, Groups;
    McuEncodeIsGroups(v);
    Shifts(Signed(v));
  }

  /** Host to micro-controller, and back. */
  lemma IntegerRoundTrips(v: int, before: seq<Byte>, after: seq<Byte>)
    requires -0x8000_0000 <= v < WORD
    ensures Parse(before + HostEncode(v) + after, |before|) == Parsed(v % WORD, |before| + |HostEncode(v)|)
    ensures Parse(before + McuEncode(v % WORD) + after, |before|) == Parsed(v % WORD, |before| + |McuEncode(v % WORD)|)
  {
    HostEncodeIsGroups(v);
    McuEncodeIsGroups(v % WORD);
    hide HostEncode, McuEncode, Groups, Spans, Parse;
    var h, m := HostEncode(v), McuEncode(v % WORD);
    assert (before + h + after)[|before|..|before| + |h|] == h;
    assert (before + m + after)[|before|..|before| + |m|] == m;
    ParseGroups(v, HostLength(v), before + h + after, |before|);
    ParseGroups(McuNumber(v % WORD), HostLength(Signed(v % WORD)), before + m + after, |before|);
  }

  /** A quantity ends at its first byte without the continuation bit, and runs out exactly when there is none. */
  lemma {:induction false} ParseEnds(buf: seq<Byte>, pos: nat)
    ensures var r := Parse(buf, pos);
            if r.Overrun? then forall j :: pos <= j < |buf| ==> buf[j] >= 128
            else pos < r.pos <= |buf| && buf[r.pos - 1] < 128 && forall j :: pos <= j < r.pos - 1 ==> buf[j] >= 128
  {
    if pos < |buf| {
      ParseMoreEnds(SignExtend(buf[pos]), buf[pos], buf, pos + 1);
    }
  }

  lemma {:induction false} ParseMoreEnds(v: int, c: Byte, buf: seq<Byte>, pos: nat)
    requires 0 < pos <= |buf| && buf[pos - 1] == c
    ensures var r := ParseMore(v, c, buf, pos);
            if r.Overrun? then c >= 128 && forall j :: pos <= j < |buf| ==> buf[j] >= 128
            else && pos <= r.pos <= |buf| && buf[r.pos - 1] < 128
                 && forall j :: pos - 1 <= j < r.pos - 1 ==> buf[j] >= 128
    decreases |buf| - pos
  {
    if c >= 128 && pos < |buf| {
      ParseMoreEnds((v * 128 + buf[pos] % 128) % WORD, buf[pos], buf, pos + 1);
    }
  }

  // ---------------------------------------------------------------- whole messages

  /** A parameter: an integer, a counted buffer, or (micro-controller to host only) a string. */
  datatype Arg = Number(v: int) | Blob(bytes: seq<Byte>) | Text(bytes: seq<Byte>)

  datatype Kind = NumberKind | BlobKind | TextKind

  function KindOf(a: Arg): Kind {
    match a
    case Number(_) => NumberKind
    case Blob(_) => BlobKind
    case Text(_) => TextKind
  }

  function Kinds(args: seq<Arg>): (ks: seq<Kind>)
    ensures |ks| == |args|
  {
    if args == [] then [] else [KindOf(args[0])] + Kinds(args[1..])
  }

  /** The value a 32-bit receiver can know of a parameter. */
  function Reduced(a: Arg): Arg {
    if a.Number? then Number(a.v % WORD) else a
  }

  function ReducedAll(args: seq<Arg>): seq<Arg> {
    if args == [] then [] else [Reduced(args[0])] + ReducedAll(args[1..])
  }

  ghost predicate Sendable(a: Arg) {
    match a
    case Number(v) => -0x8000_0000 <= v < WORD
    case Blob(bytes) => |bytes| < 256
    case Text(bytes) => |bytes| < 256
  }

  /** The bytes of one parameter: the encoders differ in their integers only. */
  function Encoded(a: Arg, byHost: bool): (s: seq<Byte>)
    requires Sendable(a)
  {
    match a
    case Number(v) => if byHost then HostEncode(v) else McuEncode(v % WORD)
    case Blob(bytes) => [|bytes|] + bytes
    case Text(bytes) => [|bytes|] + bytes
  }

  function EncodedAll(args: seq<Arg>, byHost: bool): (s: seq<Byte>)
    requires forall i :: 0 <= i < |args| ==> Sendable(args[i])
  {
    if args == [] then [] else Encoded(args[0], byHost) + EncodedAll(args[1..], byHost)
  }

  datatype Decoded = Decoded(args: seq<Arg>, pos: nat) | Failed

  function Prepend(a: Arg, d: Decoded): Decoded {
    if d.Failed? then Failed else Decoded([a] + d.args, d.pos)
  }

  /** One parameter in command_parsef. */
  function McuDecodeOne(k: Kind, buf: seq<Byte>, p: nat, maxend: nat): Option<(Arg, nat)> {
    if p > maxend then None
    else match k
      case NumberKind =>
        var r := Parse(buf, p);
        if r.Overrun? then None else Some((Number(r.value), r.pos))
      case BlobKind =>
        if p >= |buf| || p + 1 + buf[p] > maxend || p + 1 + buf[p] > |buf| then None
        else Some((Blob(buf[p + 1..p + 1 + buf[p]]), p + 1 + buf[p]))
      case TextKind => None
  }

  /** command_parsef; Failed is its shutdown. */
  function McuDecode(ks: seq<Kind>, buf: seq<Byte>, p: nat, maxend: nat): Decoded {
    if ks == [] then Decoded([], p)
    else
      var r := McuDecodeOne(ks[0], buf, p, maxend);
      if r.None? then Failed else Prepend(r.value.0, McuDecode(ks[1..], buf, r.value.1, maxend))
  }

  /** One parameter in MessageFormat::parse; a string that does not fit reads as empty, at position 0. */
  function HostDecodeOne(k: Kind, buf: seq<Byte>, p: nat): Option<(Arg, nat)> {
    match k
    case NumberKind =>
      var r := Parse(buf, p);
      if r.Overrun? then None else Some((Number(r.value), r.pos))
    case _ =>
      var fits := p < |buf| && p + 1 + buf[p] <= |buf|;
      var bytes := if fits then buf[p + 1..p + 1 + buf[p]] else [];
      Some((if k == BlobKind then Blob(bytes) else Text(bytes), if fits then p + 1 + buf[p] else 0))
  }

  function HostDecode(ks: seq<Kind>, buf: seq<Byte>, p: nat): Decoded {
    if ks == [] then Decoded([], p)
    else
      var r := HostDecodeOne(ks[0], buf, p);
      if r.None? then Failed else Prepend(r.value.0, HostDecode(ks[1..], buf, r.value.1))
  }

  /** The firmware takes a buffer exactly when all of it lies inside the block, and never reads behind that. */
  lemma McuDecodesInside(k: Kind, buf: seq<Byte>, p: nat, maxend: nat)
    ensures var r := McuDecodeOne(k, buf, p, maxend);
            && (k == BlobKind ==> (r.Some? <==> p < |buf| && p + 1 + buf[p] <= maxend && p + 1 + buf[p] <= |buf|))
            && (k == BlobKind && r.Some? ==>
                  p < |buf| && r.value.1 == p + 1 + buf[p] && r.value.1 <= maxend && r.value.1 <= |buf|
                  && r.value.0 == Blob(buf[p + 1..r.value.1]))
            && (k == NumberKind ==> (r.Some? <==> p <= maxend && exists j :: p <= j < |buf| && buf[j] < 128))
            && (k == TextKind ==> r.None?)
  {
    hide Parse;
    ParseEnds(buf, p);
  }

  /** The host takes a buffer or string that is all there, and reads one that is not as empty, at position 0. */
  lemma HostDecodesInside(k: Kind, buf: seq<Byte>, p: nat)
    ensures var r := HostDecodeOne(k, buf, p);
            && (r.None? <==> k == NumberKind && forall j :: p <= j < |buf| ==> buf[j] >= 128)
            && (k != NumberKind && p < |buf| && p + 1 + buf[p] <= |buf| ==>
                  r.value.0.bytes == buf[p + 1..p + 1 + buf[p]] && r.value.1 == p + 1 + buf[p])
            && (k != NumberKind && (p >= |buf| || p + 1 + buf[p] > |buf|) ==>
                  r.value.0.bytes == [] && r.value.1 == 0)
            && (r.Some? ==> KindOf(r.value.0) == k)
  {
    hide Parse;
    ParseEnds(buf, p);
  }

  /** One parameter survives the trip, in either direction. */
  lemma OneRoundTrip(a: Arg, before: seq<Byte>, after: seq<Byte>, maxend: nat, byHost: bool)
    requires Sendable(a)
    ensures var e := Encoded(a, byHost);
            var buf, end := before + e + after, |before| + |e|;
            && (end <= maxend && !a.Text? ==> McuDecodeOne(KindOf(a), buf, |before|, maxend) == Some((Reduced(a), end)))
            && HostDecodeOne(KindOf(a), buf, |before|) == Some((Reduced(a), end))
  {
    hide HostEncode, McuEncode, Parse;
    var e := Encoded(a, byHost);
    var buf, p := before + e + after, |before|;
    if a.Number? {
      IntegerRoundTrips(a.v, before, after);
    } else {
      assert buf[p] == |a.bytes|;
      assert buf[p + 1..p + 1 + |a.bytes|] == a.bytes;
    }
  }

  /**
   The message round trip: whatever surrounds them, and wherever the block ends behind them, parameters
   encoded by either side are decoded by the other to the same values modulo 2^32, and exactly the bytes
   written are consumed.
   */
  lemma {:induction false} MessageRoundTrip(args: seq<Arg>, before: seq<Byte>, after: seq<Byte>,
                                            maxend: nat, byHost: bool)
    requires forall i :: 0 <= i < |args| ==> Sendable(args[i])
    requires |before| + |EncodedAll(args, byHost)| <= maxend
    ensures var e := EncodedAll(args, byHost);
            var buf, end := before + e + after, |before| + |e|;
            && ((forall i :: 0 <= i < |args| ==> !args[i].Text?) ==>
                  McuDecode(Kinds(args), buf, |before|, maxend) == Decoded(ReducedAll(args), end))
            && HostDecode(Kinds(args), buf, |before|) == Decoded(ReducedAll(args), end)
    decreases |args|
  {
    hide Encoded, McuDecodeOne, HostDecodeOne, Reduced, KindOf;
    var e := EncodedAll(args, byHost);
    var buf := before + e + after;
    if args != [] {
      var first, rest := Encoded(args[0], byHost), EncodedAll(args[1..], byHost);
      assert buf == before + first + (rest + after);
      OneRoundTrip(args[0], before, rest + after, maxend, byHost);
      assert buf == (before + first) + rest + after;
      MessageRoundTrip(args[1..], before + first, after, maxend, byHost);
    }
  }

  // ---------------------------------------------------------------- room in the transmit buffer

  /** What command_encodef makes of a parameter when `room` bytes are left before maxend. */
  function Trimmed(a: Arg, room: nat): (t: Arg)
    ensures a.Number? ==> t == a
    ensures !a.Number? ==> KindOf(t) == KindOf(a) && t.bytes <= a.bytes
  {
    match a
    case Number(_) => a
    case Blob(bytes) => if |bytes| > room then Blob(bytes[..room]) else a
    case Text(bytes) =>
      var n := if room == 0 then 0 else room - 1;
      if |bytes| > n then Text(bytes[..n]) else a
  }

  /** command_encodef, writing behind `out`; None is its shutdown. */
  function McuEncodeInto(args: seq<Arg>, out: seq<Byte>, maxend: nat): Option<seq<Byte>>
    requires maxend < 256 && forall i :: 0 <= i < |args| ==> args[i].Number? ==> Sendable(args[i])
    decreases |args|
  {
    if args == [] then Some(out)
    else if |out| > maxend then None
    else
      var t := Trimmed(args[0], maxend - |out|);
      assert args[0].Number? ==> Sendable(args[0]);
      McuEncodeInto(args[1..], out + Encoded(t, false), maxend)
  }

  /** As much of a buffer is sent as there is room for, and of a string one byte less. */
  lemma TrimmedIsLongest(a: Arg, room: nat)
    requires !a.Number?
    ensures var n := |a.bytes|;
            |Trimmed(a, room).bytes| == if a.Blob? then Min(n, room) else if room == 0 then 0 else Min(n, room - 1)
    ensures Trimmed(a, room).bytes <= a.bytes
  {
  }

  lemma NotTrimmed(a: Arg, room: nat)
    requires Sendable(a) && |Encoded(a, false)| <= room
    ensures Trimmed(a, room) == a
  {
    hide McuEncode;
  }

  /** When everything fits nothing is cut, so the host reads back what was sent. */
  lemma {:induction false} FittingMessageIsWhole(args: seq<Arg>, out: seq<Byte>, maxend: nat)
    requires maxend < 256 && forall i :: 0 <= i < |args| ==> Sendable(args[i])
    requires |out| + |EncodedAll(args, false)| <= maxend
    ensures McuEncodeInto(args, out, maxend) == Some(out + EncodedAll(args, false))
    decreases |args|
  {
    hide Encoded, Trimmed;
    if args == [] {
      assert out + [] == out;
    } else {
      var e := Encoded(args[0], false);
      NotTrimmed(args[0], maxend - |out|);
      FittingMessageIsWhole(args[1..], out + e, maxend);
      assert out + e + EncodedAll(args[1..], false) == out + EncodedAll(args, false);
    }
  }

  /** The parameters as command_encodef sends them, when `used` bytes are written already. */
  function TrimmedAll(args: seq<Arg>, used: nat, maxend: nat): (ts: seq<Arg>)
    requires maxend < 256 && forall i :: 0 <= i < |args| ==> args[i].Number? ==> Sendable(args[i])
    ensures |ts| == |args| && forall i :: 0 <= i < |ts| ==> Sendable(ts[i]) && KindOf(ts[i]) == KindOf(args[i])
    decreases |args|
  {
    if args == [] then []
    else
      assert args[0].Number? ==> Sendable(args[0]);
      var t := Trimmed(args[0], if used <= maxend then maxend - used else 0);
      [t] + TrimmedAll(args[1..], used + |Encoded(t, false)|, maxend)
  }

  lemma {:induction false} EncodeIntoTrims(args: seq<Arg>, out: seq<Byte>, maxend: nat)
    requires maxend < 256 && forall i :: 0 <= i < |args| ==> args[i].Number? ==> Sendable(args[i])
    ensures var sent := McuEncodeInto(args, out, maxend);
            sent.Some? ==> sent.value == out + EncodedAll(TrimmedAll(args, |out|, maxend), false)
    decreases |args|
  {
    hide Encoded;
    if args == [] {
      assert out + [] == out;
    } else if |out| <= maxend {
      assert args[0].Number? ==> Sendable(args[0]);
      var t := Trimmed(args[0], maxend - |out|);
      var e := Encoded(t, false);
      EncodeIntoTrims(args[1..], out + e, maxend);
      var ts := TrimmedAll(args[1..], |out + e|, maxend);
      assert ([t] + ts)[1..] == ts;
      assert out + e + EncodedAll(ts, false) == out + (e + EncodedAll(ts, false));
    }
  }

  /** Encoding fails exactly when the room is used up before the last parameter. */
  lemma {:induction false} EncodeFailsIff(args: seq<Arg>, out: seq<Byte>, maxend: nat)
    requires maxend < 256 && forall i :: 0 <= i < |args| ==> args[i].Number? ==> Sendable(args[i])
    ensures McuEncodeInto(args, out, maxend).None? <==> RunsOut(TrimmedAll(args, |out|, maxend), |out|, maxend)
    decreases |args|
  {
    hide Encoded, Trimmed, Used;
    var ts := TrimmedAll(args, |out|, maxend);
    if args != [] {
      UsedAtFirst(ts);
      if |out| <= maxend {
        var t := Trimmed(args[0], maxend - |out|);
        assert args[0].Number? ==> Sendable(args[0]);
        var next, us := out + Encoded(t, false), ts[1..];
        EncodeFailsIff(args[1..], next, maxend);
        forall i | 0 <= i < |us|
          ensures |out| + Used(ts, i + 1) == |next| + Used(us, i)
        {
          UsedNext(ts, i);
        }
        if RunsOut(ts, |out|, maxend) {
          var i :| 0 <= i < |ts| && |out| + Used(ts, i) > maxend;
          assert |next| + Used(us, i - 1) > maxend;
        }
        if RunsOut(us, |next|, maxend) {
          var i :| 0 <= i < |us| && |next| + Used(us, i) > maxend;
          assert |out| + Used(ts, i + 1) > maxend;
        }
      } else {
        assert |out| + Used(ts, 0) > maxend;
      }
    }
  }

  /** The bytes of the parameters in front of the i-th. */
  ghost function Used(ts: seq<Arg>, i: nat): nat
    requires i <= |ts| && forall j :: 0 <= j < |ts| ==> Sendable(ts[j])
  {
    |EncodedAll(ts[..i], false)|
  }

  /** There is no room left in front of some parameter. */
  ghost predicate RunsOut(ts: seq<Arg>, used: nat, maxend: nat)
    requires forall j :: 0 <= j < |ts| ==> Sendable(ts[j])
  {
    exists i :: 0 <= i < |ts| && used + Used(ts, i) > maxend
  }

  lemma UsedAtFirst(ts: seq<Arg>)
    requires forall j :: 0 <= j < |ts| ==> Sendable(ts[j])
    ensures Used(ts, 0) == 0
  {
  }

  lemma UsedNext(ts: seq<Arg>, i: nat)
    requires i < |ts| && forall j :: 0 <= j < |ts| ==> Sendable(ts[j])
    ensures Used(ts, i + 1) == |Encoded(ts[0], false)| + Used(ts[1..], i)
  {
    hide Encoded;
    assert ts[..i + 1][1..] == ts[1..][..i];
  }

  lemma {:induction false} KindsAgree(a: seq<Arg>, b: seq<Arg>)
    requires |a| == |b| && forall i :: 0 <= i < |a| ==> KindOf(a[i]) == KindOf(b[i])
    ensures Kinds(a) == Kinds(b)
    decreases |a|
  {
    if a != [] {
      KindsAgree(a[1..], b[1..]);
    }
  }

  /** The host reads back what the micro-controller sends, as far as it was not cut off. */
  lemma SentIsReadBack(args: seq<Arg>, out: seq<Byte>, maxend: nat)
    requires maxend < 256 && forall i :: 0 <= i < |args| ==> args[i].Number? ==> Sendable(args[i])
    ensures var sent, ts := McuEncodeInto(args, out, maxend), TrimmedAll(args, |out|, maxend);
            sent.Some? ==> HostDecode(Kinds(args), sent.value, |out|) == Decoded(ReducedAll(ts), |sent.value|)
  {
    hide Encoded, HostDecodeOne, Trimmed, TrimmedAll, McuEncodeInto, HostDecode;
    var ts := TrimmedAll(args, |out|, maxend);
    EncodeIntoTrims(args, out, maxend);
    KindsAgree(args, ts);
    var e := EncodedAll(ts, false);
    MessageRoundTrip(ts, out, [], |out| + |e|, false);
    assert out + e + [] == out + e;
  }

  /** Nothing is cut off a message that fits. */
  lemma {:induction false} FittingIsNotTrimmed(args: seq<Arg>, used: nat, maxend: nat)
    requires maxend < 256 && forall i :: 0 <= i < |args| ==> Sendable(args[i])
    requires used + |EncodedAll(args, false)| <= maxend
    ensures TrimmedAll(args, used, maxend) == args
    decreases |args|
  {
    hide Encoded, Trimmed;
    if args != [] {
      NotTrimmed(args[0], maxend - used);
      FittingIsNotTrimmed(args[1..], used + |Encoded(args[0], false)|, maxend);
    }
  }

  // ---------------------------------------------------------------- the loops

  /** command_encodef, behind the message id. */
  method CommandEncode(args: seq<Arg>, out0: seq<Byte>, maxend: nat) returns (r: Option<seq<Byte>>)
    requires maxend < 256 && forall i :: 0 <= i < |args| ==> args[i].Number? ==> Sendable(args[i])
    ensures r == McuEncodeInto(args, out0, maxend)
  {
    hide Encoded;
    var out := out0;
    for i := 0 to |args|
      invariant McuEncodeInto(args, out0, maxend) == McuEncodeInto(args[i..], out, maxend)
    {
      assert args[i..][0] == args[i] && args[i..][1..] == args[i + 1..];
      if |out| > maxend {
        return None;
      }
      assert args[i].Number? ==> Sendable(args[i]);
      out := out + Encoded(Trimmed(args[i], maxend - |out|), false);
    }
    r := Some(out);
  }

  /** parse_int and PT_base::parse, which are the same loop. */
  method ParseInt(buf: seq<Byte>, pos0: nat) returns (r: Parsed)
    ensures r == Parse(buf, pos0)
  {
    if pos0 >= |buf| {
      return Overrun;
    }
    var pos := pos0;
    var c: Byte := buf[pos];
    pos := pos + 1;
    var v := SignExtend(c);
    while c >= 128
      invariant pos0 < pos <= |buf| && Parse(buf, pos0) == ParseMore(v, c, buf, pos)
      decreases |buf| - pos
    {
      if pos >= |buf| {
        return Overrun;
      }
      c := buf[pos];
      pos := pos + 1;
      v := (v * 128 + c % 128) % WORD;
    }
    r := Parsed(v, pos);
  }

  function Join(args: seq<Arg>, d: Decoded): Decoded {
    if d.Failed? then Failed else Decoded(args + d.args, d.pos)
  }

  lemma JoinPrepend(args: seq<Arg>, a: Arg, d: Decoded)
    ensures Join(args, Prepend(a, d)) == Join(args + [a], d)
  {
    assert d.Decoded? ==> args + ([a] + d.args) == args + [a] + d.args;
  }

  /** command_parsef */
  method CommandParse(ks: seq<Kind>, buf: seq<Byte>, p0: nat, maxend: nat) returns (r: Decoded)
    ensures r == McuDecode(ks, buf, p0, maxend)
  {
    hide McuDecodeOne;
    var args: seq<Arg> := [];
    var p := p0;
    for i := 0 to |ks|
      invariant McuDecode(ks, buf, p0, maxend) == Join(args, McuDecode(ks[i..], buf, p, maxend))
    {
      assert ks[i..][1..] == ks[i + 1..];
      var one := McuDecodeOne(ks[i], buf, p, maxend);
      if one.None? {
        return Failed;
      }
      JoinPrepend(args, one.value.0, McuDecode(ks[i + 1..], buf, one.value.1, maxend));
      args := args + [one.value.0];
      p := one.value.1;
    }
    r := Decoded(args, p);
  }

  /** MessageFormat::parse, from behind the message id. */
  method FormatParse(ks: seq<Kind>, buf: seq<Byte>, p0: nat) returns (r: Decoded)
    ensures r == HostDecode(ks, buf, p0)
  {
    hide HostDecodeOne;
    var args: seq<Arg> := [];
    var p := p0;
    for i := 0 to |ks|
      invariant HostDecode(ks, buf, p0) == Join(args, HostDecode(ks[i..], buf, p))
    {
      assert ks[i..][1..] == ks[i + 1..];
      var one := HostDecodeOne(ks[i], buf, p);
      if one.None? {
        return Failed;
      }
      JoinPrepend(args, one.value.0, HostDecode(ks[i + 1..], buf, one.value.1));
      args := args + [one.value.0];
      p := one.value.1;
    }
    r := Decoded(args, p);
  }

  /** MessageFormat::encode: the micro-controller decodes it to the same parameters. */
  method FormatEncode(msgid: seq<Byte>, args: seq<Arg>) returns (out: seq<Byte>)
    requires forall i :: 0 <= i < |args| ==> Sendable(args[i]) && !args[i].Text?
    ensures out == msgid + EncodedAll(args, true)
    ensures McuDecode(Kinds(args), out, |msgid|, |out|) == Decoded(ReducedAll(args), |out|)
  {
    hide Encoded, McuDecode;
    out := msgid;
    for i := 0 to |args|
      invariant out + EncodedAll(args[i..], true) == msgid + EncodedAll(args, true)
    {
      assert args[i..][1..] == args[i + 1..];
      out := out + Encoded(args[i], true);
    }
    MessageRoundTrip(args, msgid, [], |msgid| + |EncodedAll(args, true)|, true);
    assert msgid + EncodedAll(args, true) + [] == out;
  }

  // ---------------------------------------------------------------- message ids

  function EncodeMsgid(id: nat): (s: seq<Byte>)
    requires id < 0x4000
  {
    (if id >= 0x80 then [id / 0x80 + 0x80] else []) + [id % 0x80]
  }

  function ParseMsgid(buf: seq<Byte>, p: nat): Option<(nat, nat)> {
    if p >= |buf| then None
    else if buf[p] < 0x80 then Some((buf[p], p + 1))
    else if p + 1 >= |buf| then None
    else Some((Pair(buf[p] % 0x80, buf[p + 1]), p + 2))
  }

  /** (high << 7) | low, where low is a whole byte. */
  function Pair(high: nat, low: nat): (r: nat)
    requires low < 0x100
  {
    if low < 0x80 then high * 0x80 + low else (high - high % 2 + 1) * 0x80 + (low - 0x80)
  }

  /** The two bytes of an identifier are or-ed together, with one bit in common. */
  lemma PairIsOr(high: nat, low: nat)
    requires low < 0x100
    ensures var r := Pair(high, low);
            && r % 0x80 == low % 0x80 && r / 0x100 == high / 2
            && (r / 0x80 % 2 == 1 <==> high % 2 == 1 || low >= 0x80)
  {
    var q, b := high / 2, high % 2;
    assert high == 2 * q + b;
  }

  /** The first byte tells how long an identifier is. */
  lemma MsgidLength(buf: seq<Byte>, p: nat)
    ensures var r := ParseMsgid(buf, p);
            && (r.Some? <==> p < |buf| && (buf[p] < 0x80 || p + 1 < |buf|))
            && (r.Some? ==> p < |buf| && r.value.1 == if buf[p] < 0x80 then p + 1 else p + 2)
  {
  }

  lemma MsgidRoundTrip(id: nat, before: seq<Byte>, after: seq<Byte>)
    requires id < 0x4000
    ensures ParseMsgid(before + EncodeMsgid(id) + after, |before|) == Some((id, |before| + |EncodeMsgid(id)|))
  {
    var buf, p := before + EncodeMsgid(id) + after, |before|;
    if id >= 0x80 {
      assert buf[p] == id / 0x80 + 0x80 && buf[p + 1] == id % 0x80;
      assert Pair((id / 0x80 + 0x80) % 0x80, id % 0x80) == id;
    } else {
      assert buf[p] == id;
    }
  }
}
