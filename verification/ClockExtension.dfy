/**
 Long clocks from 32-bit counters: the firmware's 64-bit uptime, kept by its statistics report, and
 the host's 64-bit view of the firmware clock.
 */
module ClockExtension {
  import opened Numbers
  import opened Options
  import opened Ticks

  const LONG := 0x1_0000_0000_0000_0000

  // ---------------------------------------------------------------- arithmetic of wraps

  /** Between two times less than a wrap apart the counter falls exactly when the high word rises. */
  lemma HighWord(sent: nat, now: nat)
    requires sent <= now < sent + WORD
    ensures now / WORD == sent / WORD + if Word(now) < Word(sent) then 1 else 0
  {
  }

  /** The two words of a 64-bit time. */
  lemma TwoWords(t: nat)
    ensures t / WORD % WORD * WORD + Word(t) == t % LONG
  {
    var h := t / WORD;
    var q := h / WORD;
    assert t == q * LONG + (h % WORD * WORD + t % WORD);
  }

  lemma LongWord(t: nat)
    ensures Word(t % LONG) == Word(t)
  {
    ModShift(t % LONG, t / LONG * WORD);
  }

  /** The time that a high word recorded at `sent` and a counter read at `now` stand for. */
  function Extended(sent: nat, now: nat): nat {
    (sent / WORD + if Word(now) < Word(sent) then 1 else 0) * WORD + Word(now)
  }

  /** The extension is the true time exactly when less than a wrap has passed since the record. */
  lemma ExtendedIff(sent: nat, now: nat)
    requires sent <= now
    ensures Extended(sent, now) == now <==> now < sent + WORD
  {
    if now < sent + WORD {
      HighWord(sent, now);
    } else {
      assert Extended(sent, now) < sent + WORD;
    }
  }

  /** A whole wrap after the record the extension is still at the record. */
  lemma LostWrap()
    ensures Extended(0, WORD) == 0
  {
  }

  // ---------------------------------------------------------------- the firmware

  class Uptime {
    const period: nat
    var sendTime: nat
    var sendHigh: nat
    ghost var sent: nat  // true time of the last report
    ghost var last: nat  // true time of the last look at the clock

    ghost predicate Valid()
      reads this
    {
      && 0 < period <= HALF
      && sendTime == Word(sent) && sendHigh == sent / WORD % WORD
      && sent <= last < sent + period
    }

    constructor (period: nat)
      requires 0 < period <= HALF
      ensures Valid() && last == 0 && this.period == period
    {
      this.period := period;
      sendTime, sendHigh, sent, last := 0, 0, 0, 0;
    }

    /** stats_update: report, and move the reference point, exactly when the period is over. */
    method Update(cur: nat, ghost now: nat) returns (report: bool)
      requires Valid() && last <= now <= last + HALF && cur == Word(now)
      modifies this
      ensures Valid() && last == now
      ensures report <==> now >= old(sent) + period
      ensures sent == if report then now else old(sent)
    {
      WordAdd(sent, period);
      IsBeforeIsEarlier(now, sent + period);
      last := now;
      if IsBefore(cur, (sendTime + period) % WORD) {
        return false;
      }
      HighWord(sent, now);
      if cur < sendTime {
        WrapUp(sent / WORD);
        sendHigh := (sendHigh + 1) % WORD;
      }
      sendTime, sent := cur, now;
      report := true;
    }

    /** get_uptime: the true time, modulo 64 bits. */
    method Read(cur: nat, ghost now: nat) returns (high: nat, clock: nat)
      requires Valid() && last <= now < sent + WORD && cur == Word(now)
      ensures high * WORD + clock == now % LONG
    {
      HighWord(sent, now);
      WrapUp(sent / WORD);
      TwoWords(now);
      high := (sendHigh + if cur < sendTime then 1 else 0) % WORD;
      clock := cur;
    }
  }

  lemma WrapUp(h: nat)
    ensures (h % WORD + 1) % WORD == (h + 1) % WORD
  {
  }

  // ---------------------------------------------------------------- the host

  /** Signed distance of a 32-bit clock from the last known time. */
  function Distance(last: nat, clock32: nat): (d: int)
    ensures -HALF <= d < HALF
  {
    var d := (clock32 - last) % WORD;
    if d >= HALF then d - WORD else d
  }

  /** clock32_to_clock64 */
  function Clock64(last: nat, clock32: nat): (c: nat)
    ensures c < LONG
  {
    (last + Distance(last, clock32)) % LONG
  }

  /** Of all times that look like the given counter value, the one within half a wrap of the last clock. */
  lemma Clock64IsNearest(last: nat, t: nat)
    requires last < LONG && t < LONG && last - HALF <= t < last + HALF
    ensures Clock64(last, Word(t)) == t
  {
    NearestIsUnique(last, t);
  }

  lemma NearestIsUnique(last: nat, t: int)
    requires last - HALF <= t < last + HALF
    ensures Distance(last, Word(t)) == t - last
  {
    ModShift(t - last, -(t / WORD));
    assert Word(t) - last == t - last + -(t / WORD) * WORD;
  }

  /** It is a time within half a wrap of the last clock exactly when none of that range is negative or over-long. */
  lemma Clock64Iff(last: nat, clock32: nat)
    requires last < LONG && clock32 < WORD
    ensures var c := Clock64(last, clock32);
            && Word(c) == clock32
            && (last - HALF <= c < last + HALF <==> 0 <= last + Distance(last, clock32) < LONG)
  {
    var d := Distance(last, clock32);
    assert exists k :: last + d == clock32 + k * WORD by {
      var e := clock32 - last;
      assert last + d == clock32 + (-(e / WORD)) * WORD || last + d == clock32 + (-(e / WORD) - 1) * WORD;
    }
    var k :| last + d == clock32 + k * WORD;
    ModShift(clock32, k);
    assert Word(last + d) == clock32;
    if last + d < 0 {
      assert Clock64(last, clock32) == last + d + LONG;
      ModShift(last + d, WORD);
    } else if last + d >= LONG {
      assert Clock64(last, clock32) == last + d - LONG;
      ModShift(last + d, -WORD);
    }
  }

  /** Just after start-up, a counter value half a wrap ahead reads as a time before zero. */
  lemma WrapsBelowZero()
    ensures Clock64(0, HALF) == LONG - HALF
  {
  }

  class ClockSync {
    var lastClock: nat
    ghost var seen: nat  // true time of the last sample

    ghost predicate Valid()
      reads this
    {
      lastClock == seen % LONG
    }

    /** The first sample, from an uptime answer. */
    constructor (high: nat, clock: nat, ghost now: nat)
      requires high * WORD + clock == now % LONG
      ensures Valid() && seen == now
    {
      lastClock, seen := high * WORD + clock, now;
    }

    /** handle_clock: a 32-bit sample less than a wrap after the previous one. */
    method HandleClock(clock: nat, ghost now: nat)
      requires Valid() && seen <= now < seen + WORD && clock == Word(now)
      modifies this
      ensures Valid() && seen == now
    {
      LongWord(seen);
      SampleDelta(seen, now);
      var delta := (clock - lastClock) % WORD;
      LongAdd(seen, now - seen);
      lastClock := (lastClock + delta) % LONG;
      seen := now;
    }
  }

  lemma SampleDelta(seen: nat, now: nat)
    requires seen <= now < seen + WORD
    ensures (Word(now) - seen % LONG) % WORD == now - seen
  {
    var m := seen % LONG;
    var k := seen / LONG * WORD - now / WORD;
    assert Word(now) - m == (now - seen) + k * WORD;
    ModShift(now - seen, k);
  }

  lemma LongAdd(t: nat, d: nat)
    ensures (t % LONG + d) % LONG == (t + d) % LONG
  {
  }

  // ---------------------------------------------------------------- whole runs

  /**
   The firmware updates its statistics, a host connects, the connected host samples the clock, or somebody
   asks for the uptime.
   */
  datatype Kind = Tick | Connect | Sample | Ask

  /** Something that happens `dt` ticks after the previous event. */
  datatype Event = Event(dt: nat, kind: Kind)

  /** The firmware looks at its clock every half wrap, a host samples it every wrap once it is connected. */
  ghost predicate Timely(es: seq<Event>, sinceTick: nat, sinceSample: Option<nat>)
    decreases |es|
  {
    es != [] ==>
      var e := es[0];
      && sinceTick + e.dt <= HALF
      && (e.kind.Sample? ==> sinceSample.Some? && sinceSample.value + e.dt < WORD)
      && Timely(es[1..], if e.kind.Tick? then 0 else sinceTick + e.dt, SinceSample(sinceSample, e))
  }

  function SinceSample(since: Option<nat>, e: Event): Option<nat> {
    if e.kind.Sample? || e.kind.Connect? then Some(0)
    else if since.Some? then Some(since.value + e.dt) else None
  }

  /** The true times of the events of some kinds, as 64-bit numbers. */
  function TimesOf(kinds: set<Kind>, es: seq<Event>, now: nat): seq<nat>
    decreases |es|
  {
    if es == [] then [] else
      var t := now + es[0].dt;
      (if es[0].kind in kinds then [t % LONG] else []) + TimesOf(kinds, es[1..], t)
  }

  lemma TimesStep(kinds: set<Kind>, es: seq<Event>, i: nat, now: nat, before: seq<nat>)
    requires i < |es|
    ensures var t := now + es[i].dt;
            before + TimesOf(kinds, es[i..], now) ==
            before + (if es[i].kind in kinds then [t % LONG] else []) + TimesOf(kinds, es[i + 1..], t)
  {
    assert es[i..][0] == es[i] && es[i..][1..] == es[i + 1..];
  }

  /** How long ago the host last saw the clock. */
  ghost function Since(host: ClockSync?, now: nat): Option<nat>
    requires host != null ==> host.seen <= now
    reads host
  {
    if host == null then None else Some(now - host.seen)
  }

  /** One event, at the true time `now`; `host` is who is connected afterwards. */
  method Happen(up: Uptime, sync: ClockSync?, e: Event, now: nat)
    returns (host: ClockSync?, clocks: seq<nat>, answers: seq<nat>)
    requires up.Valid() && up.last <= now <= up.last + HALF && e.dt <= now
    requires sync != null ==> sync.Valid() && sync.seen <= now - e.dt
    requires e.kind.Sample? ==> sync != null && now < sync.seen + WORD
    modifies up, sync
    ensures up.Valid() && up.last == if e.kind.Tick? then now else old(up.last)
    ensures if e.kind.Connect? then host != null && fresh(host) else host == sync
    ensures host != null ==> host.Valid() && host.seen <= now
    ensures Since(host, now) == SinceSample(old(Since(sync, now - e.dt)), e)
    ensures clocks == if e.kind in {Connect, Sample} then [now % LONG] else []
    ensures answers == if e.kind in {Ask} then [now % LONG] else []
  {
    host, clocks, answers := sync, [], [];
    match e.kind
    case Tick => var _ := up.Update(Word(now), now);
    case Connect =>
      var high, clock := up.Read(Word(now), now);
      host := new ClockSync(high, clock, now);
      clocks := [host.lastClock];
    case Sample =>
      host.HandleClock(Word(now), now);
      clocks := [host.lastClock];
    case Ask =>
      var high, clock := up.Read(Word(now), now);
      answers := [high * WORD + clock];
  }

  /**
   Over every timely run from the start of the firmware, with hosts that connect and connect again at any
   time, each clock a host holds is the true time of its connection or sample, and each answer of the firmware
   to a question for its uptime is the true time of the question.
   */
  method RunClocks(period: nat, es: seq<Event>) returns (clocks: seq<nat>, answers: seq<nat>)
    requires 0 < period <= HALF && Timely(es, 0, None)
    ensures clocks == TimesOf({Connect, Sample}, es, 0) && answers == TimesOf({Ask}, es, 0)
  {
    hide Word, TimesOf;
    var up := new Uptime(period);
    var host: ClockSync? := null;
    var now := 0;
    clocks, answers := [], [];
    assert es[0..] == es;
    for i := 0 to |es|
      invariant up.Valid() && fresh(up) && up.last <= now <= up.last + HALF
      invariant host != null ==> host.Valid() && fresh(host) && host.seen <= now
      invariant Timely(es[i..], now - up.last, Since(host, now))
      invariant clocks + TimesOf({Connect, Sample}, es[i..], now) == TimesOf({Connect, Sample}, es, 0)
      invariant answers + TimesOf({Ask}, es[i..], now) == TimesOf({Ask}, es, 0)
    {
      TimesStep({Connect, Sample}, es, i, now, clocks);
      TimesStep({Ask}, es, i, now, answers);
      assert es[i..][0] == es[i] && es[i..][1..] == es[i + 1..];
      now := now + es[i].dt;
      var h, c, a := Happen(up, host, es[i], now);
      host, clocks, answers := h, clocks + c, answers + a;
    }
    NoTimes({Connect, Sample}, es, now);
    NoTimes({Ask}, es, now);
  }

  lemma NoTimes(kinds: set<Kind>, es: seq<Event>, now: nat)
    ensures TimesOf(kinds, es[|es|..], now) == []
  {
  }
}
