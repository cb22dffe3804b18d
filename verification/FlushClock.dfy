/**
 The time keeping of the tool head: when moves are placed on the motion queue, and up to when
 steps have been generated.  Times are print times in seconds, as exact reals; the MCU clock
 estimates are arbitrary inputs.
 */
module FlushClock {
  import opened Reals

  const BUFFER_TIME_LOW := 1.0
  const BUFFER_TIME_START := 0.250
  const BGFLUSH_LOW_TIME := 0.200
  const BGFLUSH_BATCH_TIME := 0.200
  const BGFLUSH_EXTRA_TIME := 0.250
  const MIN_KIN_TIME := 0.100
  const MOVE_BATCH_TIME := 0.500
  const STEPCOMPRESS_FLUSH_TIME := 0.050
  const SDS_CHECK_TIME := 0.001
  const DRIP_SEGMENT_TIME := 0.050
  const DRIP_TIME := 0.100

  /** special_queuing_state; Main is the empty string. */
  datatype Queuing = Main | NeedPrime | Priming | Drip

  /** A planned move: only its duration matters here. */
  datatype Timed = Timed(accelT: real, cruiseT: real, decelT: real) {
    ghost predicate Valid() {
      accelT >= 0.0 && cruiseT >= 0.0 && decelT >= 0.0
    }
  }

  // ---------------------------------------------------------------- what an observer sees

  /** Calls into the step generators and the motion queue, in order. */
  datatype Event =
    | Generate(time: real)                             // steps generated up to `time`
    | Append(start: real, end: real, delay: real)      // a move queued, with the scan delay then in force
    | Discard                                          // the motion queue emptied by a drip abort

  ghost function LatestGenerate(log: seq<Event>): real {
    if log == [] then 0.0 else
    var e, rest := log[|log| - 1], LatestGenerate(log[..|log| - 1]);
    if e.Generate? then Max(rest, e.time) else rest
  }

  ghost function LatestEnd(log: seq<Event>): real {
    if log == [] then 0.0 else
    match log[|log| - 1]
    case Generate(_) => LatestEnd(log[..|log| - 1])
    case Append(_, end, _) => Max(LatestEnd(log[..|log| - 1]), end)
    case Discard => 0.0
  }

  /** How far steps must be generated for every queued move to be complete. */
  ghost function LatestReach(log: seq<Event>): real {
    if log == [] then 0.0 else
    match log[|log| - 1]
    case Generate(_) => LatestReach(log[..|log| - 1])
    case Append(_, end, delay) => Max(LatestReach(log[..|log| - 1]), end + delay)
    case Discard => 0.0
  }

  ghost predicate SafeLog(log: seq<Event>) {
    log == [] ||
    var e, rest := log[|log| - 1], log[..|log| - 1];
    && SafeLog(rest)
    && (e.Append? ==>
          && LatestGenerate(rest) + e.delay <= e.start
          && LatestEnd(rest) <= e.start <= e.end)
  }

  /** A drip abort emptied the motion queue between the two events. */
  ghost predicate Discarded(log: seq<Event>, i: nat, j: nat)
    requires j <= |log|
  {
    exists k :: i < k < j && log[k].Discard?
  }

  lemma {:induction false} LatestGenerateBounds(log: seq<Event>, i: nat)
    requires i < |log| && log[i].Generate?
    ensures log[i].time <= LatestGenerate(log)
  {
    if i < |log| - 1 {
      LatestGenerateBounds(log[..|log| - 1], i);
    }
  }

  lemma {:induction false} LatestEndBounds(log: seq<Event>, i: nat)
    requires i < |log| && log[i].Append?
    requires forall k :: i < k < |log| ==> !log[k].Discard?
    ensures log[i].end <= LatestEnd(log)
    ensures log[i].end + log[i].delay <= LatestReach(log)
  {
    if i < |log| - 1 {
      LatestEndBounds(log[..|log| - 1], i);
    }
  }

  /**
   A safe log, pair by pair: no move is queued at a time, less the scan delay, up to which steps
   were already generated; and no move is queued before an earlier one has ended.
   */
  lemma {:induction false} SafeLogMeans(log: seq<Event>, i: nat, j: nat)
    requires SafeLog(log) && i < j < |log| && log[j].Append?
    ensures log[i].Generate? ==> log[i].time + log[j].delay <= log[j].start
    ensures log[i].Append? && (forall k :: i < k < j ==> !log[k].Discard?) ==> log[i].end <= log[j].start
  {
    var rest := log[..|log| - 1];
    if j < |log| - 1 {
      SafeLogMeans(rest, i, j);
    } else {
      if log[i].Generate? {
        LatestGenerateBounds(rest, i);
      }
      if log[i].Append? && forall k :: i < k < j ==> !log[k].Discard? {
        LatestEndBounds(rest, i);
      }
    }
  }

  lemma LogGrows(log: seq<Event>, e: Event)
    ensures (log + [e])[..|log|] == log && (log + [e])[|log|] == e
  {
  }

  /** The moves queued so far, discarded or not. */
  ghost function Appends(log: seq<Event>): seq<Event> {
    if log == [] then [] else
    var rest := Appends(log[..|log| - 1]);
    if log[|log| - 1].Append? then rest + [log[|log| - 1]] else rest
  }

  /** Behind whatever was queued before, the moves follow each other from time t on, each for as long as it takes. */
  ghost predicate BackToBack(moves: seq<Timed>, es: seq<Event>, t: real, delay: real) {
    |es| == |moves| && forall i :: 0 <= i < |es| ==> PlacedAt(moves[i], es, t, delay, i)
  }

  ghost predicate PlacedAt(m: Timed, es: seq<Event>, t: real, delay: real, i: nat)
    requires i < |es|
  {
    && es[i].Append? && es[i].delay == delay
    && (if i == 0 then es[i].start == t else es[i - 1].Append? && es[i].start == es[i - 1].end)
    && es[i].end == es[i].start + m.accelT + m.cruiseT + m.decelT
  }

  /** When the last of some queued moves ends. */
  ghost function LastEnd(es: seq<Event>, t: real): real {
    if es != [] && es[|es| - 1].Append? then es[|es| - 1].end else t
  }

  lemma NothingPlaced(t: real, delay: real)
    ensures BackToBack([], [], t, delay)
  {
  }

  lemma PlaceOne(moves: seq<Timed>, es: seq<Event>, t: real, delay: real, m: Timed)
    requires BackToBack(moves, es, t, delay)
    ensures var start := LastEnd(es, t);
            BackToBack(moves + [m], es + [Append(start, start + m.accelT + m.cruiseT + m.decelT, delay)], t, delay)
  {
    var start := LastEnd(es, t);
    var fs := es + [Append(start, start + m.accelT + m.cruiseT + m.decelT, delay)];
    forall i | 0 <= i < |fs|
      ensures PlacedAt((moves + [m])[i], fs, t, delay, i)
    {
      if i < |es| {
        assert PlacedAt(moves[i], es, t, delay, i);
      } else if i > 0 {
        assert PlacedAt(moves[i - 1], es, t, delay, i - 1);
      }
    }
  }

  /**
   Moves handed over together.  In the main state they go on at the print time `since`; in any other the
   print time is set anew from the clock estimate.
   */
  datatype Batch = Batch(moves: seq<Timed>, primed: bool, est: real, since: real) {
    /** They may start at t: late enough for the micro-controller, if it has been waiting. */
    ghost predicate MayStart(t: real, delay: real) {
      if primed then t >= since && t >= est + 0.250 && t >= est + 0.100 + delay else t == since
    }
  }

  /** Between the two logs exactly these moves were queued, back to back. */
  ghost predicate Queued(before: seq<Event>, after: seq<Event>, b: Batch) {
    Follows(Appends(before), Appends(after), b)
  }

  ghost predicate Follows(before: seq<Event>, after: seq<Event>, b: Batch) {
    before <= after && exists t, d :: b.MayStart(t, d) && BackToBack(b.moves, after[|before|..], t, d)
  }

  /** The same for several batches, one behind the other. */
  ghost predicate Handed(before: seq<Event>, after: seq<Event>, batches: seq<Batch>)
    decreases |batches|
  {
    if batches == [] then after == before else
    var init, last := batches[..|batches| - 1], batches[|batches| - 1];
    exists mid :: Handed(before, mid, init) && Follows(mid, after, last)
  }

  lemma HandedOne(before: seq<Event>, after: seq<Event>, b: Batch)
    requires Follows(before, after, b)
    ensures Handed(before, after, [b])
  {
    hide Follows;
    assert [b][..0] == [];
    assert Handed(before, before, [b][..0]);
  }

  lemma {:induction false} HandedOn(a: seq<Event>, b: seq<Event>, c: seq<Event>,
                                   xs: seq<Batch>, ys: seq<Batch>)
    requires Handed(a, b, xs) && Handed(b, c, ys)
    ensures Handed(a, c, xs + ys)
    decreases |ys|
  {
    hide Follows;
    if ys == [] {
      assert xs + ys == xs;
    } else {
      var init, y := ys[..|ys| - 1], ys[|ys| - 1];
      var mid :| Handed(b, mid, init) && Follows(mid, c, y);
      HandedOn(a, b, mid, xs, init);
      assert (xs + ys)[..|xs + ys| - 1] == xs + init;
    }
  }

  lemma QueuedNothing(before: seq<Event>, after: seq<Event>, b: Batch)
    requires b.moves == []
    ensures Queued(before, after, b) <==> Appends(after) == Appends(before)
  {
    FollowsNothing(Appends(before), Appends(after), b);
  }

  lemma QueuedFollows(before: seq<Event>, after: seq<Event>, b: Batch)
    requires Queued(before, after, b)
    ensures Follows(Appends(before), Appends(after), b)
  {
  }

  lemma FollowsNothing(before: seq<Event>, after: seq<Event>, b: Batch)
    requires b.moves == []
    ensures Follows(before, after, b) <==> after == before
  {
    var t := if b.primed then Max(b.since, b.est + 0.250) else b.since;
    assert b.MayStart(t, 0.0) && BackToBack([], [], t, 0.0);
    assert after == before ==> after[|before|..] == [];
    assert before <= after && after[|before|..] == [] ==> after == before;
  }

  lemma SameQueued(before: seq<Event>, mid: seq<Event>, after: seq<Event>, b: Batch)
    requires Queued(before, mid, b) && Appends(after) == Appends(mid)
    ensures Queued(before, after, b)
  {
  }

  lemma PlacedFollow(before: seq<Event>, after: seq<Event>, b: Batch, t: real, delay: real)
    requires before <= after && b.MayStart(t, delay) && BackToBack(b.moves, after[|before|..], t, delay)
    ensures Follows(before, after, b)
    ensures b.moves != [] ==> after != [] && LastEnd(after, 0.0) == LastEnd(after[|before|..], t)
  {
    assert b.moves != [] ==> PlacedAt(b.moves[|b.moves| - 1], after[|before|..], t, delay, |b.moves| - 1);
  }

  /** How one more event changes what the log sums up to. */
  lemma LogStep(log: seq<Event>, e: Event)
    ensures Appends(log + [e]) == if e.Append? then Appends(log) + [e] else Appends(log)
    ensures LatestGenerate(log + [e]) == if e.Generate? then Max(LatestGenerate(log), e.time) else LatestGenerate(log)
    ensures LatestEnd(log + [e]) ==
            if e.Discard? then 0.0 else if e.Append? then Max(LatestEnd(log), e.end) else LatestEnd(log)
    ensures LatestReach(log + [e]) ==
            if e.Discard? then 0.0 else if e.Append? then Max(LatestReach(log), e.end + e.delay) else LatestReach(log)
    ensures SafeLog(log + [e]) <==>
              && SafeLog(log)
              && (e.Append? ==> LatestGenerate(log) + e.delay <= e.start && LatestEnd(log) <= e.start <= e.end)
  {
    LogGrows(log, e);
  }

  /** Steps are generated in batches: each reaches at most half a second further than the one before. */
  ghost predicate InBatches(es: seq<Event>, from: real) {
    forall k :: 0 <= k < |es| ==> es[k].Generate? && es[k].time <= from + 0.500 * ((k + 1) as real) + 0.050
  }

  lemma NoBatches(from: real)
    ensures InBatches([], from)
  {
  }

  lemma MoreBatches(es: seq<Event>, from: real, e: Event)
    requires InBatches(es, from) && e.Generate? && e.time <= from + 0.500 * ((|es| + 1) as real) + 0.050
    ensures InBatches(es + [e], from)
  {
  }

  /** Only the step generators ran between the two logs. */
  ghost predicate SameMoves(before: seq<Event>, after: seq<Event>) {
    && LatestEnd(after) == LatestEnd(before) && LatestReach(after) == LatestReach(before)
    && Appends(after) == Appends(before)
  }

  // ---------------------------------------------------------------- drip moves

  /** One poll of the drip completion, and the clock estimate read after it. */
  datatype DripTick = DripTick(completed: bool, est: real, meanwhile: seq<Meanwhile>)

  /** What other parts of the host may do to the tool head while a drip move waits. */
  datatype Meanwhile = Noted(mqTime: real, setStepGenTime: bool) | PrimingFires(pending: seq<Timed>, est: real)

  datatype DripOutcome = Finished | Aborted | StillDripping

  ghost predicate Completes(ticks: seq<DripTick>) {
    exists k :: 0 <= k < |ticks| && ticks[k].completed
  }

  /**
   The print times before each tick and after the last: a tick waits when the print time is far enough ahead
   of the micro-controller, and moves it on by a segment otherwise.
   */
  ghost predicate Drips(ps: seq<real>, ticks: seq<DripTick>, target: real, canPause: bool, delay: real) {
    0 < |ps| <= |ticks| + 1 && forall k :: 0 <= k < |ps| - 1 ==> DripsAt(ps, ticks[k], target, canPause, delay, k)
  }

  ghost predicate DripsAt(ps: seq<real>, tick: DripTick, target: real, canPause: bool, delay: real, k: nat)
    requires k < |ps| - 1
  {
    && !tick.completed && ps[k] < target
    && ps[k + 1] == if canPause && ps[k] - tick.est > 0.150 + delay then ps[k] else Min(ps[k] + 0.050, target)
  }

  lemma NoDrips(p: real, ticks: seq<DripTick>, target: real, canPause: bool, delay: real)
    ensures Drips([p], ticks, target, canPause, delay)
  {
  }

  lemma MoreDrips(ps: seq<real>, p: real, ticks: seq<DripTick>, target: real, canPause: bool, delay: real)
    requires Drips(ps, ticks, target, canPause, delay) && |ps| <= |ticks|
    requires DripsAt(ps + [p], ticks[|ps| - 1], target, canPause, delay, |ps| - 1)
    ensures Drips(ps + [p], ticks, target, canPause, delay)
  {
    var qs := ps + [p];
    forall k | 0 <= k < |qs| - 1
      ensures DripsAt(qs, ticks[k], target, canPause, delay, k)
    {
      if k < |ps| - 1 {
        assert DripsAt(ps, ticks[k], target, canPause, delay, k);
      }
    }
  }

  /**
   A drip move that started at t has dripped to p: by 50 ms a tick at most, counting no tick behind a
   completed one, and never far ahead of the micro-controller if the host can wait.
   */
  ghost predicate Dripped(t: real, p: real, ticks: seq<DripTick>, canPause: bool, delay: real) {
    && t <= p <= t + 0.050 * (|ticks| as real)
    && (forall k :: 0 <= k < |ticks| && ticks[k].completed ==> p <= t + 0.050 * (k as real))
    && (canPause ==> p == t || exists k :: 0 <= k < |ticks| && p <= ticks[k].est + 0.200 + delay)
  }

  /** The print time is so far ahead of some estimate that the host waits. */
  ghost predicate Ahead(p: real, ticks: seq<DripTick>, delay: real) {
    exists k :: 0 <= k < |ticks| && p > ticks[k].est + 0.150 + delay
  }

  lemma {:induction false} DripsAreBounded(ps: seq<real>, ticks: seq<DripTick>, target: real,
                                          canPause: bool, delay: real)
    requires Drips(ps, ticks, target, canPause, delay)
    ensures Dripped(ps[0], ps[|ps| - 1], ticks, canPause, delay)
    ensures ps[|ps| - 1] <= Max(ps[0], target) && ps[|ps| - 1] <= ps[0] + 0.050 * ((|ps| - 1) as real)
    ensures ps[|ps| - 1] < target ==> ps[|ps| - 1] == ps[0] + 0.050 * ((|ps| - 1) as real)
                                      || (canPause && Ahead(ps[|ps| - 1], ticks, delay))
    decreases |ps|
  {
    var n := |ps| - 1;
    if n > 0 {
      var qs := ps[..n];
      forall k | 0 <= k < |qs| - 1
        ensures DripsAt(qs, ticks[k], target, canPause, delay, k)
      {
        assert DripsAt(ps, ticks[k], target, canPause, delay, k);
      }
      DripsAreBounded(qs, ticks, target, canPause, delay);
      assert DripsAt(ps, ticks[n - 1], target, canPause, delay, n - 1);
      forall k | 0 <= k < n
        ensures !ticks[k].completed
      {
        assert DripsAt(ps, ticks[k], target, canPause, delay, k);
      }
    }
  }

  // ---------------------------------------------------------------- the tool head

  datatype Wake = At(time: real) | Never

  class ToolHead {
    var printTime: real
    var lastFlushTime: real
    var minRestartTime: real
    var needFlushTime: real
    var stepGenTime: real
    var kinFlushDelay: real
    var kinFlushTimes: seq<real>
    var state: Queuing
    var canPause: bool
    var doKickFlushTimer: bool
    ghost var log: seq<Event>

    /** Holds at every moment, also in the middle of a drip move. */
    ghost predicate Clocks()
      reads this
    {
      && kinFlushDelay >= SDS_CHECK_TIME && printTime >= 0.0 && stepGenTime >= 0.0
      && lastFlushTime <= LatestGenerate(log) <= minRestartTime
      && (state == Main ==> LatestGenerate(log) + kinFlushDelay <= printTime)
      && SafeLog(log)
    }

    ghost predicate Valid()
      reads this
    {
      Clocks() && LatestEnd(log) <= printTime && LatestReach(log) <= stepGenTime
    }

    /** No clock of the tool head ever runs backwards, and nothing that happened is undone. */
    twostate predicate Forward()
      reads this
    {
      && old(log) <= log
      && old(printTime) <= printTime && old(lastFlushTime) <= lastFlushTime
      && old(minRestartTime) <= minRestartTime
      && old(needFlushTime) <= needFlushTime && old(stepGenTime) <= stepGenTime
    }

    /** A restart has to wait for the generated steps, and for nothing else. */
    twostate predicate Restarts()
      reads this
    {
      && LatestGenerate(old(log)) <= LatestGenerate(log)
      && minRestartTime <= Max(old(minRestartTime), LatestGenerate(log))
    }

    /** The scan windows of the step generators are as they were. */
    twostate predicate SameWindows()
      reads this
    {
      kinFlushDelay == old(kinFlushDelay) && kinFlushTimes == old(kinFlushTimes)
    }

    ghost function Now(): Moment
      reads this
    {
      Moment(state, printTime, log)
    }

    constructor (canPause: bool)
      ensures Valid() && state == NeedPrime && log == [] && this.canPause == canPause && doKickFlushTimer
      ensures printTime == lastFlushTime == minRestartTime == needFlushTime == stepGenTime == 0.0
      ensures kinFlushDelay == 0.001 && kinFlushTimes == []
    {
      printTime, lastFlushTime, minRestartTime, needFlushTime, stepGenTime := 0.0, 0.0, 0.0, 0.0, 0.0;
      kinFlushDelay, kinFlushTimes := SDS_CHECK_TIME, [];
      state, this.canPause, doKickFlushTimer := NeedPrime, canPause, true;
      log := [];
    }

    /** Run the step generators, never past a point where a move may still be queued. */
    method AdvanceFlushTime(flushTime0: real)
      requires Clocks() && (state == Main ==> flushTime0 + kinFlushDelay <= printTime)
      modifies `lastFlushTime, `minRestartTime, `log
      ensures Clocks() && Forward()
      ensures lastFlushTime == Max(flushTime0, old(lastFlushTime))
      ensures var sg := Max(Min(lastFlushTime + STEPCOMPRESS_FLUSH_TIME, printTime - kinFlushDelay), lastFlushTime);
              && log == old(log) + [Generate(sg)] && LatestGenerate(log) >= sg
              && minRestartTime == Max(old(minRestartTime), sg)
      ensures SameMoves(old(log), log) && Restarts()
    {
      var flushTime := Max(flushTime0, lastFlushTime);
      var sgFlushWant := Min(flushTime + STEPCOMPRESS_FLUSH_TIME, printTime - kinFlushDelay);
      var sgFlushTime := Max(sgFlushWant, flushTime);
      LogStep(log, Generate(sgFlushTime));
      log := log + [Generate(sgFlushTime)];
      minRestartTime := Max(minRestartTime, sgFlushTime);
      lastFlushTime := flushTime;
    }

    method AdvanceMoveTime(nextPrintTime: real)
      requires Clocks()
      modifies `printTime, `lastFlushTime, `minRestartTime, `log
      ensures Clocks() && Forward() && printTime == Max(old(printTime), nextPrintTime)
      ensures lastFlushTime == Max(old(lastFlushTime), printTime - kinFlushDelay - STEPCOMPRESS_FLUSH_TIME)
      ensures SameMoves(old(log), log) && Restarts()
      ensures InBatches(log[|old(log)|..], Max(old(lastFlushTime), old(printTime) - kinFlushDelay - 0.050))
    {
      hide LatestGenerate, LatestEnd, LatestReach, SafeLog, Appends, InBatches;
      var ptDelay := kinFlushDelay + STEPCOMPRESS_FLUSH_TIME;
      var flushTime := Max(lastFlushTime, printTime - ptDelay);
      printTime := Max(printTime, nextPrintTime);
      var wantFlushTime := Max(flushTime, printTime - ptDelay);
      FlushInBatches(flushTime, wantFlushTime);
    }

    /** The loop of _advance_move_time. */
    method FlushInBatches(from: real, want: real)
      requires Clocks() && lastFlushTime <= from <= want && (state == Main ==> want + kinFlushDelay <= printTime)
      modifies `lastFlushTime, `minRestartTime, `log
      ensures Clocks() && Forward() && lastFlushTime == want
      ensures SameMoves(old(log), log) && Restarts() && InBatches(log[|old(log)|..], from)
    {
      hide LatestGenerate, LatestEnd, LatestReach, SafeLog, Appends, InBatches;
      var flushTime := from;
      ghost var new_: seq<Event> := [];
      NoBatches(from);
      while true
        invariant Clocks() && Forward() && lastFlushTime <= flushTime <= want
        invariant SameMoves(old(log), log) && Restarts() && log == old(log) + new_
        invariant InBatches(new_, from) && flushTime <= from + 0.500 * (|new_| as real)
        decreases (want - flushTime) / MOVE_BATCH_TIME
      {
        flushTime := Min(flushTime + MOVE_BATCH_TIME, want);
        AdvanceFlushTime(flushTime);
        ghost var e := log[|log| - 1];
        MoreBatches(new_, from, e);
        new_ := new_ + [e];
        if flushTime >= want {
          break;
        }
      }
      assert log[|old(log)|..] == new_;
    }

    method CalcPrintTime(est: real)
      requires Clocks()
      modifies `printTime
      ensures Clocks() && Forward()
      ensures Largest(printTime, old(printTime), est + 0.250, est + 0.100 + kinFlushDelay,
                      minRestartTime + kinFlushDelay)
    {
      var kinTime := Max(est + MIN_KIN_TIME, minRestartTime) + kinFlushDelay;
      var minPrintTime := Max(est + BUFFER_TIME_START, kinTime);
      if minPrintTime > printTime {
        printTime := minPrintTime;
      }
    }

    /** `kick` tells whether the background flush is started at once. */
    method NoteActivity(mqTime: real, setStepGenTime: bool) returns (kick: bool)
      modifies `needFlushTime, `stepGenTime, `doKickFlushTimer
      ensures kick == old(doKickFlushTimer) && !doKickFlushTimer
      ensures needFlushTime == Max(old(needFlushTime), mqTime)
      ensures stepGenTime == if setStepGenTime then Max(old(stepGenTime), mqTime) else old(stepGenTime)
    {
      needFlushTime := Max(needFlushTime, mqTime);
      if setStepGenTime {
        stepGenTime := Max(stepGenTime, mqTime);
      }
      kick := doKickFlushTimer;
      if doKickFlushTimer {
        doKickFlushTimer := false;
      }
    }

    /** Place the moves on the motion queue, one after the other, from the current print time on. */
    method AppendMoves(moves: seq<Timed>) returns (nextMoveTime: real)
      requires Clocks() && LatestEnd(log) <= printTime && LatestReach(log) <= stepGenTime
      requires LatestGenerate(log) + kinFlushDelay <= printTime
      requires forall m :: m in moves ==> m.Valid()
      modifies `log
      ensures Clocks() && printTime <= nextMoveTime && LatestEnd(log) <= nextMoveTime && old(log) <= log
      ensures LatestGenerate(log) == LatestGenerate(old(log))
      ensures LatestReach(log) <= Max(stepGenTime, nextMoveTime + kinFlushDelay)
      ensures Appends(old(log)) <= Appends(log)
      ensures var new_ := Appends(log)[|Appends(old(log))|..];
              BackToBack(moves, new_, printTime, kinFlushDelay) && nextMoveTime == LastEnd(new_, printTime)
    {
      hide LatestGenerate, LatestEnd, LatestReach, SafeLog, Appends, BackToBack;
      nextMoveTime := printTime;
      ghost var new_: seq<Event> := [];
      NothingPlaced(printTime, kinFlushDelay);
      for i := 0 to |moves|
        invariant Clocks() && printTime <= nextMoveTime && LatestEnd(log) <= nextMoveTime && old(log) <= log
        invariant LatestGenerate(log) == LatestGenerate(old(log)) && LatestGenerate(log) + kinFlushDelay <= printTime
        invariant LatestReach(log) <= Max(stepGenTime, nextMoveTime + kinFlushDelay)
        invariant Appends(log) == Appends(old(log)) + new_ && nextMoveTime == LastEnd(new_, printTime)
        invariant BackToBack(moves[..i], new_, printTime, kinFlushDelay)
      {
        assert moves[i].Valid();
        PlaceOne(moves[..i], new_, printTime, kinFlushDelay, moves[i]);
        assert moves[..i] + [moves[i]] == moves[..i + 1];
        var end := nextMoveTime + moves[i].accelT + moves[i].cruiseT + moves[i].decelT;
        LogStep(log, Append(nextMoveTime, end, kinFlushDelay));
        log := log + [Append(nextMoveTime, end, kinFlushDelay)];
        new_ := new_ + [Append(nextMoveTime, end, kinFlushDelay)];
        nextMoveTime := end;
      }
      assert moves[..|moves|] == moves;
      assert Appends(log)[|Appends(old(log))|..] == new_;
    }

    /** `t` is when the first move starts. */
    method ProcessMoves(moves: seq<Timed>, est: real, ticks: seq<DripTick>)
      returns (outcome: DripOutcome, ghost t: real)
      requires Valid() && forall m :: m in moves ==> m.Valid()
      modifies this
      ensures Clocks() && Forward() && SameWindows() && Restarts() && canPause == old(canPause)
      ensures outcome == Finished ==> Valid()
      ensures if old(state) == Drip then state == Drip else outcome == Finished && state == Main
      ensures if old(state) == Main then t == old(printTime)
              else Largest(t, old(printTime), est + 0.250, est + 0.100 + kinFlushDelay,
                           old(minRestartTime) + kinFlushDelay)
      ensures Appends(old(log)) <= Appends(log)
      ensures var new_ := Appends(log)[|Appends(old(log))|..];
              && BackToBack(moves, new_, t, kinFlushDelay)
              && (outcome == Finished ==> printTime == LastEnd(new_, t))
              && (outcome == Aborted <==> printTime < LastEnd(new_, t) && Completes(ticks))
              && (outcome == StillDripping <==> printTime < LastEnd(new_, t) && !Completes(ticks))
      ensures old(state) == Drip ==> Dripped(t, printTime, ticks, canPause, kinFlushDelay)
      ensures old(state) != Drip ==>
                lastFlushTime == Max(old(lastFlushTime), printTime - kinFlushDelay - STEPCOMPRESS_FLUSH_TIME)
      ensures doKickFlushTimer ==> old(doKickFlushTimer)
      decreases if ticks == [] then 0 else 1, 5
    {
      hide LatestGenerate, LatestEnd, LatestReach, SafeLog, Appends, BackToBack, Dripped, Completes;
      if state != Main {
        CalcPrintTime(est);
        if state != Drip {
          state := Main;
        }
      }
      t := printTime;
      var nextMoveTime := AppendMoves(moves);
      outcome := Finished;
      if state != Main {
        outcome := UpdateDripMoveTime(nextMoveTime, ticks);
        if outcome != Finished {
          return;
        }
      }
      var _ := NoteActivity(nextMoveTime + kinFlushDelay, true);
      AdvanceMoveTime(nextMoveTime);
    }

    /** Feed a drip move out in small segments, until done, aborted or out of ticks. */
    method UpdateDripMoveTime(nextPrintTime: real, ticks: seq<DripTick>) returns (outcome: DripOutcome)
      requires Clocks() && state == Drip
      modifies this
      ensures Clocks() && Forward() && state == Drip && Restarts()
      ensures SameWindows() && canPause == old(canPause)
      ensures doKickFlushTimer ==> old(doKickFlushTimer)
      ensures printTime > old(printTime) ==> Min(needFlushTime, stepGenTime) >= printTime + kinFlushDelay
      ensures printTime <= Max(old(printTime), nextPrintTime)
      ensures outcome == Finished <==> printTime >= nextPrintTime
      ensures outcome == Aborted <==> printTime < nextPrintTime && Completes(ticks)
      ensures Dripped(old(printTime), printTime, ticks, canPause, kinFlushDelay)
      ensures outcome == StillDripping ==> printTime == old(printTime) + 0.050 * (|ticks| as real)
                                           || (canPause && Ahead(printTime, ticks, kinFlushDelay))
      ensures SameMoves(old(log), log)
      decreases if ticks == [] then 0 else 1, 4
    {
      ghost var ps;
      outcome, ps := DripLoop(nextPrintTime, ticks);
      DripsAreBounded(ps, ticks, nextPrintTime, canPause, kinFlushDelay);
    }

    /** `ps` are the print times on the way. */
    method DripLoop(nextPrintTime: real, ticks: seq<DripTick>) returns (outcome: DripOutcome, ghost ps: seq<real>)
      requires Clocks() && state == Drip
      modifies this
      ensures Clocks() && Forward() && state == Drip && Restarts()
      ensures SameWindows() && canPause == old(canPause)
      ensures doKickFlushTimer ==> old(doKickFlushTimer)
      ensures printTime > old(printTime) ==> Min(needFlushTime, stepGenTime) >= printTime + kinFlushDelay
      ensures Drips(ps, ticks, nextPrintTime, canPause, kinFlushDelay)
      ensures ps[0] == old(printTime) && ps[|ps| - 1] == printTime
      ensures outcome == Finished <==> printTime >= nextPrintTime
      ensures outcome == Aborted ==> |ps| <= |ticks| && ticks[|ps| - 1].completed
      ensures outcome == StillDripping ==> |ps| == |ticks| + 1
      ensures SameMoves(old(log), log)
      decreases if ticks == [] then 0 else 1, 4, 0
    {
      hide LatestGenerate, LatestEnd, LatestReach, SafeLog, Appends, Drips;
      var flushDelay := DRIP_TIME + STEPCOMPRESS_FLUSH_TIME + kinFlushDelay;
      ps := [printTime];
      NoDrips(printTime, ticks, nextPrintTime, canPause, kinFlushDelay);
      for k := 0 to |ticks|
        invariant Clocks() && Forward() && state == Drip && Restarts()
        invariant SameWindows()
        invariant canPause == old(canPause) && (doKickFlushTimer ==> old(doKickFlushTimer))
        invariant printTime > old(printTime) ==> Min(needFlushTime, stepGenTime) >= printTime + kinFlushDelay
        invariant |ps| == k + 1 && ps[0] == old(printTime) && ps[k] == printTime
        invariant Drips(ps, ticks, nextPrintTime, old(canPause), old(kinFlushDelay))
        invariant SameMoves(old(log), log)
      {
        if printTime >= nextPrintTime {
          return Finished, ps;
        }
        if ticks[k].completed {
          return Aborted, ps;
        }
        var waitTime := printTime - ticks[k].est - flushDelay;
        if waitTime > 0.0 && canPause {
          Wait(ticks[k].meanwhile);
        } else {
          var npt := Min(printTime + DRIP_SEGMENT_TIME, nextPrintTime);
          var _ := NoteActivity(npt + kinFlushDelay, true);
          AdvanceMoveTime(npt);
        }
        MoreDrips(ps, printTime, ticks, nextPrintTime, canPause, kinFlushDelay);
        ps := ps + [printTime];
      }
      outcome := if printTime >= nextPrintTime then Finished else StillDripping;
    }

    /** The wait for the drip completion, and what happens in it: no clock moves, and no flush is started. */
    method Wait(ms: seq<Meanwhile>)
      requires Clocks() && state == Drip
      modifies this
      ensures Clocks() && Forward() && state == Drip && log == old(log) && printTime == old(printTime)
      ensures SameWindows() && canPause == old(canPause)
      ensures lastFlushTime == old(lastFlushTime) && minRestartTime == old(minRestartTime)
      ensures doKickFlushTimer ==> old(doKickFlushTimer)
      decreases 1, 3
    {
      for k := 0 to |ms|
        invariant Clocks() && Forward() && state == Drip && log == old(log) && printTime == old(printTime)
        invariant SameWindows()
        invariant canPause == old(canPause) && (doKickFlushTimer ==> old(doKickFlushTimer))
        invariant lastFlushTime == old(lastFlushTime) && minRestartTime == old(minRestartTime)
      {
        match ms[k] {
          case Noted(mqTime, set_) => var _ := NoteActivity(mqTime, set_);
          case PrimingFires(pending, est) => PrimingHandler(pending, est);
        }
      }
    }

    // -------------------------------------------------------------- the callers

    /** What is handed over in the present state. */
    ghost function BatchOf(moves: seq<Timed>, est: real): Batch
      reads this
    {
      Batch(moves, state != Main, est, printTime)
    }

    /** The print time behind the pending moves, and how far flushing follows it. */
    twostate predicate Followed(pending: seq<Timed>)
      reads this
    {
      if pending == [] then printTime == old(printTime) && lastFlushTime == old(lastFlushTime)
      else && Appends(log) != [] && printTime == LastEnd(Appends(log), 0.0)
           && lastFlushTime == Max(old(lastFlushTime), printTime - kinFlushDelay - STEPCOMPRESS_FLUSH_TIME)
    }

    /** lookahead.flush: `pending` is what the look-ahead queue hands over, possibly nothing. */
    method FlushMoves(pending: seq<Timed>, est: real)
      requires Valid() && state != Drip && forall m :: m in pending ==> m.Valid()
      modifies this
      ensures Valid() && Forward() && SameWindows() && Restarts() && canPause == old(canPause)
      ensures state == if pending == [] then old(state) else Main
      ensures Queued(old(log), log, old(BatchOf(pending, est))) && Followed(pending)
      ensures doKickFlushTimer ==> old(doKickFlushTimer)
      decreases 1, 0
    {
      hide LatestGenerate, LatestEnd, LatestReach, SafeLog, Appends, BackToBack;
      ghost var b := BatchOf(pending, est);
      if pending == [] {
        QueuedNothing(log, log, b);
      } else {
        var _, t := ProcessMoves(pending, est, []);
        PlacedFollow(Appends(old(log)), Appends(log), b, t, kinFlushDelay);
      }
    }

    method FlushLookahead(pending: seq<Timed>, est: real)
      requires Valid() && (state == Drip ==> pending == []) && forall m :: m in pending ==> m.Valid()
      modifies this
      ensures Valid() && Forward() && state == NeedPrime && SameWindows() && Restarts() && canPause == old(canPause)
      ensures Queued(old(log), log, old(BatchOf(pending, est))) && Followed(pending)
      ensures doKickFlushTimer ==> old(doKickFlushTimer)
      decreases 1, 1
    {
      hide LatestGenerate, LatestEnd, LatestReach, SafeLog, Appends, Queued;
      if state != Drip {
        FlushMoves(pending, est);
      } else {
        QueuedNothing(log, log, BatchOf(pending, est));
      }
      state := NeedPrime;
    }

    /** After this, steps have been generated past the end of every queued move. */
    method FlushStepGeneration(pending: seq<Timed>, est: real)
      requires Valid() && (state == Drip ==> pending == []) && forall m :: m in pending ==> m.Valid()
      modifies this
      ensures Valid() && Forward() && state == NeedPrime && SameWindows() && canPause == old(canPause)
      ensures LatestReach(log) <= LatestGenerate(log) && minRestartTime >= printTime
      ensures minRestartTime <= Max(old(minRestartTime), Max(LatestGenerate(log), printTime))
      ensures Queued(old(log), log, old(BatchOf(pending, est)))
      ensures printTime == if pending == [] then old(printTime) else LastEnd(Appends(log), 0.0)
      ensures stepGenTime <= lastFlushTime
      ensures lastFlushTime <= Max(Max(old(lastFlushTime), printTime - kinFlushDelay - 0.050), stepGenTime)
      ensures doKickFlushTimer ==> old(doKickFlushTimer)
    {
      hide LatestGenerate, LatestEnd, SafeLog, Appends, Queued;
      FlushLookahead(pending, est);
      ghost var was := log;
      AdvanceFlushTime(stepGenTime);
      SameQueued(old(log), was, log, old(BatchOf(pending, est)));
      minRestartTime := Max(minRestartTime, printTime);
    }

    method GetLastMoveTime(pending: seq<Timed>, est: real, est2: real) returns (time: real)
      requires Valid() && state != Drip && forall m :: m in pending ==> m.Valid()
      modifies this
      ensures Valid() && Forward() && state == (if old(state) == Main then Main else NeedPrime) && SameWindows()
      ensures time == printTime && LatestGenerate(log) + kinFlushDelay <= time
      ensures Queued(old(log), log, old(BatchOf(pending, est)))
      ensures var end := if pending == [] then old(printTime) else LastEnd(Appends(log), 0.0);
              if old(state) == Main then time == end
              else Largest(time, end, est2 + 0.250, est2 + 0.100 + kinFlushDelay, minRestartTime + kinFlushDelay)
    {
      if state != Main {
        FlushLookahead(pending, est);
        CalcPrintTime(est2);
      } else {
        FlushMoves(pending, est);
      }
      time := printTime;
    }

    /** The state change of _check_pause. */
    method CheckPause()
      requires Valid()
      modifies `state
      ensures Valid() && state == if old(state) == Main then Main else Priming
    {
      if state != Main {
        state := Priming;
      }
    }

    /** `time` is the time from which the delay counts. */
    method Dwell(delay: real, pending: seq<Timed>, est: real, est2: real) returns (ghost time: real)
      requires Valid() && state != Drip && forall m :: m in pending ==> m.Valid()
      modifies this
      ensures Valid() && Forward() && state == (if old(state) == Main then Main else Priming) && SameWindows()
      ensures printTime == time + Max(0.0, delay) && time >= old(printTime)
      ensures var end := if pending == [] then old(printTime) else LastEnd(Appends(log), 0.0);
              if old(state) == Main then time == end
              else time >= end && time >= est2 + 0.250 && time >= est2 + 0.100 + kinFlushDelay
      ensures Queued(old(log), log, old(BatchOf(pending, est)))
    {
      var last := GetLastMoveTime(pending, est, est2);
      time := last;
      AdvanceMoveTime(last + Max(0.0, delay));
      CheckPause();
    }

    method PrimingHandler(pending: seq<Timed>, est: real)
      requires state == Priming ==> Valid() && forall m :: m in pending ==> m.Valid()
      modifies this
      ensures old(state) != Priming ==> unchanged(this)
      ensures old(state) == Priming ==> Valid() && Forward() && state == NeedPrime && Followed(pending)
      ensures SameWindows()
      ensures Queued(old(log), log, old(BatchOf(if state == Priming then pending else [], est)))
      decreases 1, 2
    {
      if state == Priming {
        FlushLookahead(pending, est);
      } else {
        QueuedNothing(log, log, BatchOf([], est));
      }
    }

    /** The background flush: it ends, and asks to be called again only at a later time. */
    method FlushHandler(eventTime: real, est: real, pending: seq<Timed>, est2: real) returns (wake: Wake)
      requires Valid() && state != Drip && forall m :: m in pending ==> m.Valid()
      modifies this
      ensures Valid() && Forward() && state != Drip && SameWindows()
      ensures wake.At? ==> wake.time > eventTime
      ensures wake.Never? ==> lastFlushTime >= needFlushTime + BGFLUSH_EXTRA_TIME && doKickFlushTimer
      ensures wake.At? && state != Main ==>
                && lastFlushTime > est + BGFLUSH_LOW_TIME
                && wake.time == eventTime + lastFlushTime - est - BGFLUSH_LOW_TIME
      ensures wake.At? && state == Main ==>
                printTime > est + BUFFER_TIME_LOW && wake.time == eventTime + printTime - est - BUFFER_TIME_LOW
      ensures state == if old(state) == Main && old(printTime) <= est + BUFFER_TIME_LOW then NeedPrime else old(state)
      ensures var low := old(state) == Main && old(printTime) <= est + BUFFER_TIME_LOW;
              Queued(old(log), log, old(BatchOf(if low then pending else [], est2)))
      ensures lastFlushTime <= Max(Max(old(lastFlushTime), printTime - kinFlushDelay - STEPCOMPRESS_FLUSH_TIME),
                                   Min(needFlushTime + 0.250, est + 0.400))
    {
      hide LatestGenerate, LatestEnd, LatestReach, SafeLog, Appends, Queued;
      QueuedNothing(log, log, BatchOf([], est2));
      if state == Main {
        var bufferTime := printTime - est;
        if bufferTime > BUFFER_TIME_LOW {
          return At(eventTime + bufferTime - BUFFER_TIME_LOW);
        }
        FlushLookahead(pending, est2);
      }
      var endFlush := needFlushTime + BGFLUSH_EXTRA_TIME;
      while true
        invariant Valid() && Forward() && SameWindows()
        invariant state == (if old(state) == Main then NeedPrime else old(state)) && state != Drip
        invariant endFlush == needFlushTime + BGFLUSH_EXTRA_TIME
        invariant Queued(old(log), log, old(BatchOf(if state == Main then pending else [], est2)))
        invariant lastFlushTime <= Max(Max(old(lastFlushTime), printTime - kinFlushDelay - STEPCOMPRESS_FLUSH_TIME),
                                       Min(needFlushTime + 0.250, est + 0.400))
        decreases lastFlushTime < endFlush && lastFlushTime - est <= BGFLUSH_LOW_TIME
      {
        if lastFlushTime >= endFlush {
          doKickFlushTimer := true;
          return Never;
        }
        var bufferTime := lastFlushTime - est;
        if bufferTime > BGFLUSH_LOW_TIME {
          return At(eventTime + bufferTime - BGFLUSH_LOW_TIME);
        }
        var fTime := est + BGFLUSH_LOW_TIME + BGFLUSH_BATCH_TIME;
        ghost var was := log;
        AdvanceFlushTime(Min(endFlush, fTime));
        SameQueued(old(log), was, log, old(BatchOf(if state == Main then pending else [], est2)));
      }
    }

    /** Change the scan window of the step generators; the pending steps are flushed first. */
    method NoteScanTime(delay: real, oldDelay: real, pending: seq<Timed>, est: real)
      requires Valid() && state != Drip && forall m :: m in pending ==> m.Valid()
      modifies this
      ensures Valid() && Forward() && state == NeedPrime && LatestReach(log) <= LatestGenerate(log)
      ensures multiset(kinFlushTimes) == Windows(multiset(old(kinFlushTimes)), oldDelay, delay)
      ensures var kept := if oldDelay != 0.0 then RemoveFirst(old(kinFlushTimes), oldDelay) else old(kinFlushTimes);
              kinFlushTimes == if delay != 0.0 then kept + [delay] else kept
      ensures forall i :: 0 <= i < |kinFlushTimes| ==> kinFlushTimes[i] <= kinFlushDelay
      ensures kinFlushDelay == SDS_CHECK_TIME || kinFlushDelay in kinFlushTimes
      ensures Queued(old(log), log, old(BatchOf(pending, est)))
      ensures printTime == if pending == [] then old(printTime) else LastEnd(Appends(log), 0.0)
    {
      hide LatestGenerate, LatestEnd, LatestReach, SafeLog, Appends, Queued, MaxOf, Windows, RemoveFirst;
      FlushStepGeneration(pending, est);
      kinFlushTimes := Registered(kinFlushTimes, oldDelay, delay);
      kinFlushDelay := Max(MaxOf(kinFlushTimes, SDS_CHECK_TIME), SDS_CHECK_TIME);
    }

    method ClearMotionQueue()
      requires Clocks()
      modifies `log
      ensures Valid() && state == old(state) && log == old(log) + [Discard] && Appends(log) == Appends(old(log))
    {
      LogStep(log, Discard);
      log := log + [Discard];
    }

    /**
     A homing move, fed out bit by bit until it ends or its completion is signalled.  It starts with a dwell;
     `later` are the moves queued by others in the pause of that dwell.
     */
    method DripMove(pending: seq<Timed>, est: real, est2: real, later: seq<Timed>, ests: (real, real, real),
                    moves: seq<Timed>, ticks: seq<DripTick>)
      returns (outcome: DripOutcome, ghost mid: Batch, ghost drip: Batch)
      requires Valid() && state != Drip && forall m :: m in pending ==> m.Valid()
      requires (forall m :: m in later ==> m.Valid()) && forall m :: m in moves ==> m.Valid()
      modifies this
      ensures SafeLog(log) && Forward()
      ensures mid.moves == later && mid.est == ests.0 && mid.since >= old(printTime) + Max(0.0, old(kinFlushDelay))
      ensures drip == Batch(moves, true, ests.1, mid.since)
      ensures Handed(Appends(old(log)), Appends(log), [old(BatchOf(pending, est)), mid, drip])
      ensures outcome != StillDripping ==> Valid() && state == NeedPrime && LatestReach(log) <= LatestGenerate(log)
      ensures DripEnds(moves, ticks, outcome) && !doKickFlushTimer
    {
      hide LatestGenerate, LatestEnd, LatestReach, SafeLog, Appends, Queued, Handed, DripEnds;
      var _ := Dwell(kinFlushDelay, pending, est, est2);
      ghost var was, a := log, old(BatchOf(pending, est));
      assert Follows(Appends(old(log)), Appends(was), a) by {
        QueuedFollows(old(log), was, a);
      }
      HandedOne(Appends(old(log)), Appends(was), a);
      mid, drip := BatchOf(later, ests.0), Batch(moves, true, ests.1, printTime);
      outcome := DripAfterDwell(later, ests, moves, ticks);
      HandedOn(Appends(old(log)), Appends(was), Appends(log), [a], [mid, drip]);
      assert [a] + [mid, drip] == [a, mid, drip];
    }

    /** How far a drip move got, and how it ended; its moves are the last ones queued. */
    ghost predicate DripEnds(moves: seq<Timed>, ticks: seq<DripTick>, outcome: DripOutcome)
      reads this
    {
      if moves == [] then outcome == Finished else
      var es := Appends(log);
      && |moves| <= |es| && es[|es| - |moves|].Append? && es[|es| - 1].Append?
      && Dripped(es[|es| - |moves|].start, printTime, ticks, canPause, kinFlushDelay)
      && (outcome == Finished ==> printTime == es[|es| - 1].end)
      && (outcome == Aborted <==> printTime < es[|es| - 1].end && Completes(ticks))
      && (outcome == StillDripping <==> printTime < es[|es| - 1].end && !Completes(ticks))
    }

    /** What follows the dwell, whatever happened in its pause. */
    method DripAfterDwell(later: seq<Timed>, ests: (real, real, real), moves: seq<Timed>, ticks: seq<DripTick>)
      returns (outcome: DripOutcome)
      requires Valid() && state != Drip
      requires (forall m :: m in later ==> m.Valid()) && forall m :: m in moves ==> m.Valid()
      modifies this
      ensures SafeLog(log) && Forward()
      ensures Handed(Appends(old(log)), Appends(log),
                     [old(BatchOf(later, ests.0)), Batch(moves, true, ests.1, old(printTime))])
      ensures outcome != StillDripping ==> Valid() && state == NeedPrime && LatestReach(log) <= LatestGenerate(log)
      ensures outcome == StillDripping ==> state == Drip
      ensures DripEnds(moves, ticks, outcome) && !doKickFlushTimer
    {
      hide LatestGenerate, LatestEnd, LatestReach, SafeLog, Appends, Queued, Handed, Dripped, Completes;
      ghost var b, c := BatchOf(later, ests.0), Batch(moves, true, ests.1, printTime);
      FlushMoves(later, ests.0);
      state := Drip;
      doKickFlushTimer := false;
      ghost var mid := log;
      QueuedFollows(old(log), mid, b);
      HandedOne(Appends(old(log)), Appends(mid), b);
      outcome := Dripping(moves, ests.1, ticks, c);
      HandedOne(Appends(mid), Appends(log), c);
      HandedOn(Appends(old(log)), Appends(mid), Appends(log), [b], [c]);
      assert [b] + [c] == [b, c];
      if outcome == StillDripping {
        return;
      }
      if outcome == Aborted {
        ClearMotionQueue();
      }
      ghost var was := log;
      QueuedNothing(was, was, BatchOf([], ests.2));
      FlushStepGeneration([], ests.2);
      QueuedNothing(was, log, Batch([], true, ests.2, printTime));
    }

    /** The drip itself: the move, handed over in the Drip state. */
    method Dripping(moves: seq<Timed>, est: real, ticks: seq<DripTick>, ghost c: Batch) returns (outcome: DripOutcome)
      requires Valid() && state == Drip && (forall m :: m in moves ==> m.Valid()) && !doKickFlushTimer
      requires c.moves == moves && c.primed && c.est == est && c.since <= printTime
      modifies this
      ensures Clocks() && Forward() && SameWindows() && state == Drip && !doKickFlushTimer && canPause == old(canPause)
      ensures outcome == Finished ==> Valid()
      ensures Follows(Appends(old(log)), Appends(log), c) && DripEnds(moves, ticks, outcome)
    {
      hide LatestGenerate, LatestEnd, LatestReach, SafeLog, Appends, Dripped, Completes;
      outcome := Finished;
      if moves == [] {
        FollowsNothing(Appends(log), Appends(log), c);
        return;
      }
      ghost var t;
      outcome, t := ProcessMoves(moves, est, ticks);
      PlacedFollow(Appends(old(log)), Appends(log), c, t, kinFlushDelay);
      ghost var es, n := Appends(log), |Appends(old(log))|;
      assert PlacedAt(moves[0], es[n..], t, kinFlushDelay, 0);
      assert PlacedAt(moves[|moves| - 1], es[n..], t, kinFlushDelay, |moves| - 1);
      assert es[|es| - |moves|] == es[n..][0] && es[|es| - 1] == es[n..][|moves| - 1];
    }
  }

  function RemoveFirst(s: seq<real>, x: real): seq<real> {
    if s == [] then [] else if s[0] == x then s[1..] else [s[0]] + RemoveFirst(s[1..], x)
  }

  /** One registered window of that length, if there is one, is dropped. */
  lemma {:induction false} RemoveFirstDropsOne(s: seq<real>, x: real)
    ensures multiset(RemoveFirst(s, x)) == multiset(s) - multiset{x}
    decreases |s|
  {
    if s != [] {
      assert s == [s[0]] + s[1..];
      if s[0] != x {
        RemoveFirstDropsOne(s[1..], x);
      }
    }
  }

  /** The scan windows when one of length `oldDelay` goes and one of length `delay` comes; zero stands for none. */
  ghost function Windows(w: multiset<real>, oldDelay: real, delay: real): multiset<real> {
    (if oldDelay != 0.0 then w - multiset{oldDelay} else w) + if delay != 0.0 then multiset{delay} else multiset{}
  }

  method Registered(s: seq<real>, oldDelay: real, delay: real) returns (t: seq<real>)
    ensures multiset(t) == Windows(multiset(s), oldDelay, delay)
    ensures var kept := if oldDelay != 0.0 then RemoveFirst(s, oldDelay) else s;
            t == if delay != 0.0 then kept + [delay] else kept
  {
    RemoveFirstDropsOne(s, oldDelay);
    t := s;
    if oldDelay != 0.0 {
      t := RemoveFirst(t, oldDelay);
    }
    if delay != 0.0 {
      t := t + [delay];
    }
  }

  function MaxOf(s: seq<real>, least: real): (m: real)
    ensures m >= least && (m == least || m in s) && forall i :: 0 <= i < |s| ==> s[i] <= m
  {
    if s == [] then least else
    var rest := MaxOf(s[1..], least);
    assert forall i :: 0 < i < |s| ==> s[i] == s[1..][i - 1];
    Max(s[0], rest)
  }

  // ---------------------------------------------------------------- whole runs

  /** The ways in which the rest of the host uses the tool head. */
  datatype Op =
    | Flush(moves: seq<Timed>, est: real)
    | FlushSteps(moves: seq<Timed>, est: real)
    | DwellFor(delay: real, moves: seq<Timed>, est: real, est2: real)
    | PrimingTimer(moves: seq<Timed>, est: real)
    | FlushTimer(eventTime: real, est: real, moves: seq<Timed>, est2: real)
    | Check
    | Activity(mqTime: real, setStepGenTime: bool)
    | ScanTime(delay: real, oldDelay: real, moves: seq<Timed>, est: real)
    | WaitMoves(moves: seq<Timed>, est: real)
    | LastMoveTime(moves: seq<Timed>, est: real, est2: real)
    // a drip move follows a DwellFor, with anything in between
    | DripTo(moves: seq<Timed>, ests: (real, real, real), dripMoves: seq<Timed>, ticks: seq<DripTick>)

  ghost predicate Planned(op: Op) {
    match op
    case Check => true
    case Activity(_, _) => true
    case DripTo(moves, _, dripMoves, _) =>
      (forall m :: m in moves ==> m.Valid()) && forall m :: m in dripMoves ==> m.Valid()
    case _ => forall m :: m in op.moves ==> m.Valid()
  }

  /** What a run shows between two operations. */
  datatype Moment = Moment(state: Queuing, printTime: real, log: seq<Event>)

  /** The moves that an operation hands over from a moment on, batch by batch. */
  ghost function TakenBy(op: Op, m: Moment): seq<Batch> {
    var primed := m.state != Main;
    match op
    case Check => []
    case Activity(_, _) => []
    case PrimingTimer(moves, est) => [Batch(if m.state == Priming then moves else [], primed, est, m.printTime)]
    case FlushTimer(_, est, moves, est2) =>
      var low := m.state == Main && m.printTime <= est + BUFFER_TIME_LOW;
      [Batch(if low then moves else [], primed, est2, m.printTime)]
    case DripTo(moves, ests, dripMoves, _) =>
      [Batch(moves, primed, ests.0, m.printTime), Batch(dripMoves, true, ests.1, m.printTime)]
    case _ => [Batch(op.moves, primed, op.est, m.printTime)]
  }

  /** The state that an operation leaves; a drip move may also still be dripping. */
  ghost function StateAfter(op: Op, m: Moment): Queuing {
    var main := m.state == Main;
    match op
    case Flush(moves, _) => if moves == [] then m.state else Main
    case DwellFor(_, _, _, _) => if main then Main else Priming
    case Check => if main then Main else Priming
    case LastMoveTime(_, _, _) => if main then Main else NeedPrime
    case PrimingTimer(_, _) => if m.state == Priming then NeedPrime else m.state
    case FlushTimer(_, est, _, _) => if main && m.printTime <= est + BUFFER_TIME_LOW then NeedPrime else m.state
    case Activity(_, _) => m.state
    case _ => NeedPrime
  }

  /** What an operation does: which moves it queues, in which state it leaves the tool head, how far steps exist. */
  ghost predicate Did(op: Op, m: Moment, n: Moment) {
    && m.log <= n.log && m.printTime <= n.printTime
    && Handed(Appends(m.log), Appends(n.log), TakenBy(op, m))
    && (n.state == StateAfter(op, m) || (op.DripTo? && n.state == Drip))
    && ((op.FlushSteps? || op.ScanTime? || op.DripTo?) && n.state != Drip ==>
          LatestReach(n.log) <= LatestGenerate(n.log))
    && (op.DwellFor? ==> Dwelt(op, m, n))
    && (op.LastMoveTime? && m.state != Main ==> n.printTime >= op.est2 + 0.250)
    && (op.DripTo? && op.dripMoves != [] ==> DrippedOn(op, n))
  }

  /** The delay counts from the end of the moves, or from a time that leaves room for the micro-controller. */
  ghost predicate Dwelt(op: Op, m: Moment, n: Moment)
    requires op.DwellFor?
  {
    var end := if op.moves == [] then m.printTime else LastEnd(Appends(n.log), 0.0);
    if m.state == Main then n.printTime == end + Max(0.0, op.delay)
    else n.printTime >= end + Max(0.0, op.delay) && n.printTime >= op.est2 + 0.250 + Max(0.0, op.delay)
  }

  /** A drip move goes on by 50 ms a tick at most, and still drips only as long as no completion is seen. */
  ghost predicate DrippedOn(op: Op, n: Moment)
    requires op.DripTo? && op.dripMoves != []
  {
    var es := Appends(n.log);
    && |op.dripMoves| <= |es| && es[|es| - |op.dripMoves|].Append? && es[|es| - 1].Append?
    && n.printTime <= es[|es| - |op.dripMoves|].start + 0.050 * (|op.ticks| as real)
    && (n.state == Drip <==> n.printTime < es[|es| - 1].end && !Completes(op.ticks))
  }

  method Perform(th: ToolHead, op: Op) returns (more: bool)
    requires th.Valid() && th.state != Drip && Planned(op)
    modifies th
    ensures SafeLog(th.log) && th.Forward() && (more ==> th.Valid()) && (more <==> th.state != Drip)
    ensures Did(op, old(th.Now()), th.Now())
  {
    hide LatestGenerate, LatestEnd, LatestReach, SafeLog, Appends, Handed, Completes;
    if op.DripTo? {
      var outcome := th.DripAfterDwell(op.moves, op.ests, op.dripMoves, op.ticks);
      more := outcome != StillDripping;
    } else {
      PerformOne(th, op);
      HandedByOne(old(th.log), th.log, op, old(th.Now()));
      more := true;
    }
  }

  method PerformOne(th: ToolHead, op: Op)
    requires th.Valid() && th.state != Drip && Planned(op) && !op.DripTo?
    modifies th
    ensures th.Valid() && th.Forward() && th.state == StateAfter(op, old(th.Now())) && th.state != Drip
    ensures var bs := TakenBy(op, old(th.Now()));
            if bs == [] then Appends(th.log) == Appends(old(th.log)) else Queued(old(th.log), th.log, bs[0])
    ensures op.FlushSteps? || op.ScanTime? ==> LatestReach(th.log) <= LatestGenerate(th.log)
    ensures op.DwellFor? ==> Dwelt(op, old(th.Now()), th.Now())
    ensures op.LastMoveTime? && old(th.state) != Main ==> th.printTime >= op.est2 + 0.250
  {
    hide LatestGenerate, LatestEnd, LatestReach, SafeLog, Appends, Queued;
    match op
    case Flush(moves, est) => th.FlushMoves(moves, est);
    case FlushSteps(moves, est) => th.FlushStepGeneration(moves, est);
    case DwellFor(delay, moves, est, est2) => var _ := th.Dwell(delay, moves, est, est2);
    case PrimingTimer(moves, est) => th.PrimingHandler(moves, est);
    case FlushTimer(eventTime, est, moves, est2) => var _ := th.FlushHandler(eventTime, est, moves, est2);
    case Check => th.CheckPause();
    case Activity(mqTime, set_) => var _ := th.NoteActivity(mqTime, set_);
    case ScanTime(delay, oldDelay, moves, est) => th.NoteScanTime(delay, oldDelay, moves, est);
    case WaitMoves(moves, est) => th.FlushLookahead(moves, est);
    case LastMoveTime(moves, est, est2) => var _ := th.GetLastMoveTime(moves, est, est2);
  }

  lemma HandedByOne(before: seq<Event>, after: seq<Event>, op: Op, m: Moment)
    requires !op.DripTo?
    requires var bs := TakenBy(op, m);
             if bs == [] then Appends(after) == Appends(before) else Queued(before, after, bs[0])
    ensures Handed(Appends(before), Appends(after), TakenBy(op, m))
  {
    hide Follows, Appends;
    if TakenBy(op, m) != [] {
      HandedOne(Appends(before), Appends(after), TakenBy(op, m)[0]);
    }
  }

  /** Everything that the operations of a run hand over, in their order. */
  ghost function AllTaken(ops: seq<Op>, run: seq<Moment>): seq<Batch>
    requires 0 < |run| <= |ops| + 1
  {
    var k := |run| - 1;
    if k == 0 then [] else AllTaken(ops, run[..k]) + TakenBy(ops[k - 1], run[k - 1])
  }

  /** The run of some operations: each did its work from where the one before left the tool head. */
  ghost predicate Ran(ops: seq<Op>, run: seq<Moment>) {
    && 0 < |run| <= |ops| + 1 && run[0] == Moment(NeedPrime, 0.0, [])
    && forall k :: 0 < k < |run| ==> Did(ops[k - 1], run[k - 1], run[k])
  }

  lemma {:induction false} AllHanded(ops: seq<Op>, run: seq<Moment>)
    requires Ran(ops, run)
    ensures Handed([], Appends(run[|run| - 1].log), AllTaken(ops, run))
    decreases |run|
  {
    hide Handed;
    var k := |run| - 1;
    if k == 0 {
      NothingHanded();
    } else {
      AllHanded(ops, run[..k]);
      assert Did(ops[k - 1], run[k - 1], run[k]);
      var taken := TakenBy(ops[k - 1], run[k - 1]);
      HandedOn([], Appends(run[k - 1].log), Appends(run[k].log), AllTaken(ops, run[..k]), taken);
    }
  }

  lemma NothingHanded()
    ensures Handed([], Appends([]), [])
  {
  }

  /**
   Step-generation safety over every run: whatever the operations, clock estimates, planned moves and drip
   completions, exactly the moves that the operations hand over are queued, in their order, and none of them
   where steps were already generated.  A run ends early only with a drip move that still waits.
   */
  method RunSafely(canPause: bool, ops: seq<Op>) returns (th: ToolHead, ghost run: seq<Moment>)
    requires forall op :: op in ops ==> Planned(op)
    ensures fresh(th) && SafeLog(th.log)
    ensures forall i, j :: 0 <= i < j < |th.log| && th.log[i].Generate? && th.log[j].Append? ==>
              th.log[i].time + th.log[j].delay <= th.log[j].start
    ensures forall i, j ::
              0 <= i < j < |th.log| && th.log[i].Append? && th.log[j].Append? && !Discarded(th.log, i, j) ==>
              th.log[i].end <= th.log[j].start
    ensures Ran(ops, run) && run[|run| - 1] == th.Now() && (|run| <= |ops| ==> th.state == Drip)
    ensures Handed([], Appends(th.log), AllTaken(ops, run))
  {
    th, run := RunAll(canPause, ops);
    AllHanded(ops, run);
    forall i, j | 0 <= i < j < |th.log| && th.log[i].Generate? && th.log[j].Append?
      ensures th.log[i].time + th.log[j].delay <= th.log[j].start
    {
      SafeLogMeans(th.log, i, j);
    }
    forall i, j | 0 <= i < j < |th.log| && th.log[i].Append? && th.log[j].Append? && !Discarded(th.log, i, j)
      ensures th.log[i].end <= th.log[j].start
    {
      SafeLogMeans(th.log, i, j);
    }
  }

  method RunAll(canPause: bool, ops: seq<Op>) returns (th: ToolHead, ghost run: seq<Moment>)
    requires forall op :: op in ops ==> Planned(op)
    ensures fresh(th) && SafeLog(th.log)
    ensures Ran(ops, run) && run[|run| - 1] == th.Now() && (|run| <= |ops| ==> th.state == Drip)
  {
    hide SafeLog, Did, Planned;
    th := new ToolHead(canPause);
    run := [th.Now()];
    var k, more := 0, true;
    while k < |ops| && more
      invariant 0 <= k <= |ops| && SafeLog(th.log) && (more ==> th.Valid()) && (more <==> th.state != Drip)
      invariant Ran(ops, run) && |run| == k + 1 && run[k] == th.Now()
    {
      assert ops[k] in ops;
      more := Perform(th, ops[k]);
      run := run + [th.Now()];
      k := k + 1;
    }
  }
}
