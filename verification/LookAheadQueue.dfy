/**
 The look-ahead queue of the tool head: moves are queued, joined to their predecessor, and
 planned backwards, either lazily (a settled prefix) or completely.
 */
module LookAheadQueue {
  import opened LookAheadPlan
  import opened Reals

  const LOOKAHEAD_FLUSH_TIME := 0.250
  const EXTRUDE_ACCEL := 99999999.9
  const NO_JUNCTION_LIMIT := 999999999.9

  /** The largest change of squared speed over a length. */
  function Budget(moveD: real, accel: real): real {
    2.0 * moveD * accel
  }

  lemma BudgetScales(moveD: real, a: real, b: real)
    requires moveD > 0.0 && 0.0 < a <= b
    ensures 0.0 < Budget(moveD, a) <= Budget(moveD, b)
  {
    assert moveD * a > 0.0 && moveD * (b - a) >= 0.0;
    assert moveD * b == moveD * a + moveD * (b - a);
  }

  function Product(a: real, b: real): (r: real)
    ensures a > 0.0 && b > 0.0 ==> r > 0.0
  {
    a * b
  }

  function Squared(v: real): (r: real)
    ensures v > 0.0 ==> r > 0.0
  {
    Product(v, v)
  }

  lemma UnjoinedSane(moveD: real, speed: real, isKinematic: bool,
                     maxVelocity: real, maxAccel: real, maxAccelToDecel: real)
    requires moveD > 0.0 && speed > 0.0 && maxVelocity > 0.0
    requires 0.0 < maxAccelToDecel <= maxAccel
    ensures var m := Unjoined(moveD, speed, isKinematic, maxVelocity, maxAccel, maxAccelToDecel);
            Sane(m) && (isKinematic ==> m.smoothDelta <= m.delta)
  {
    hide Budget, Squared;
    BudgetScales(moveD, maxAccelToDecel, maxAccel);
    BudgetScales(moveD, EXTRUDE_ACCEL, EXTRUDE_ACCEL);
  }

  /** The limits of a move joined to its predecessor; only two kinematic moves meet at speed. */
  function Junction(p: Limits, pKinematic: bool, pNextJunction: real, m: Limits, mKinematic: bool, cap: real): Limits {
    if !mKinematic || !pKinematic then m
    else
      var maxStart := Min(Min(Min(cap, m.maxCruise), Min(p.maxCruise, pNextJunction)), p.maxStart + p.delta);
      m.(maxStart := maxStart, maxSmoothed := Min(maxStart, p.maxSmoothed + p.smoothDelta))
  }

  /**
   Where two kinematic moves meet, the speed is the least of five limits; where an extruder-only move is
   involved it stays what it was.
   */
  lemma JunctionMeans(p: Limits, pKinematic: bool, pNextJunction: real, m: Limits, mKinematic: bool, cap: real)
    ensures var j := Junction(p, pKinematic, pNextJunction, m, mKinematic, cap);
            && j.delta == m.delta && j.smoothDelta == m.smoothDelta && j.maxCruise == m.maxCruise
            && if pKinematic && mKinematic
               then && Smallest(j.maxStart, cap, m.maxCruise, p.maxCruise, pNextJunction, p.maxStart + p.delta)
                    && j.maxSmoothed <= j.maxStart && j.maxSmoothed <= p.maxSmoothed + p.smoothDelta
                    && (j.maxSmoothed == j.maxStart || j.maxSmoothed == p.maxSmoothed + p.smoothDelta)
               else j.maxStart == m.maxStart && j.maxSmoothed == m.maxSmoothed
  {
  }

  /** The limits of a move before it is joined to anything. */
  function Unjoined(moveD: real, speed: real, isKinematic: bool,
                    maxVelocity: real, maxAccel: real, maxAccelToDecel: real): Limits {
    var velocity := if isKinematic then Min(speed, maxVelocity) else speed;
    var accel := if isKinematic then maxAccel else EXTRUDE_ACCEL;
    Limits(Budget(moveD, accel), Budget(moveD, maxAccelToDecel), Squared(velocity), 0.0, 0.0)
  }

  /** The limits of a move after limit_speed. */
  function Slowed(m: Limits, moveD: real, accel: real, speed: real, acc: real): Limits {
    var delta := Budget(moveD, Min(accel, acc));
    m.(maxCruise := Min(m.maxCruise, Squared(speed)), delta := delta, smoothDelta := Min(m.smoothDelta, delta))
  }

  class Move {
    const moveD: real
    const isKinematic: bool
    var accel: real
    var minMoveT: real
    var maxCruiseV2: real
    var deltaV2: real
    var smoothDeltaV2: real
    var nextJunctionV2: real
    var maxStartV2: real
    var maxSmoothedV2: real
    var junction: Profile  // the speeds given by SetJunction

    function Limits(): Limits
      reads `deltaV2, `smoothDeltaV2, `maxCruiseV2, `maxStartV2, `maxSmoothedV2
    {
      LookAheadPlan.Limits(deltaV2, smoothDeltaV2, maxCruiseV2, maxStartV2, maxSmoothedV2)
    }

    ghost predicate Valid()
      reads `deltaV2, `smoothDeltaV2, `maxCruiseV2, `maxStartV2, `maxSmoothedV2, `nextJunctionV2
    {
      nextJunctionV2 >= 0.0 && Sane(Limits()) && (isKinematic ==> smoothDeltaV2 <= deltaV2)
    }

    /** The squared-speed budget is what the acceleration allows over the length of the move. */
    ghost predicate Scaled()
      reads `accel, `deltaV2
    {
      moveD > 0.0 && accel > 0.0 && deltaV2 == Budget(moveD, accel)
    }

    /** A move of positive length; the extruder-only case ignores the tool head's limits. */
    constructor (moveD: real, speed: real, isKinematic: bool, maxVelocity: real, maxAccel: real, maxAccelToDecel: real)
      requires moveD > 0.0 && speed > 0.0 && maxVelocity > 0.0
      requires 0.0 < maxAccelToDecel <= maxAccel
      ensures Valid() && Scaled() && this.moveD == moveD && this.isKinematic == isKinematic
      ensures Limits() == Unjoined(moveD, speed, isKinematic, maxVelocity, maxAccel, maxAccelToDecel)
      ensures accel == if isKinematic then maxAccel else EXTRUDE_ACCEL
      ensures minMoveT == moveD / if isKinematic then Min(speed, maxVelocity) else speed
      ensures nextJunctionV2 == NO_JUNCTION_LIMIT && maxStartV2 == 0.0 == maxSmoothedV2
    {
      var velocity := if isKinematic then Min(speed, maxVelocity) else speed;
      var a := if isKinematic then maxAccel else EXTRUDE_ACCEL;
      hide Sane, Budget, Squared;
      UnjoinedSane(moveD, speed, isKinematic, maxVelocity, maxAccel, maxAccelToDecel);
      this.moveD := moveD;
      this.isKinematic := isKinematic;
      accel := a;
      minMoveT := moveD / velocity;
      maxStartV2, maxSmoothedV2 := 0.0, 0.0;
      maxCruiseV2 := Squared(velocity);
      deltaV2 := Budget(moveD, a);
      smoothDeltaV2 := Budget(moveD, maxAccelToDecel);
      nextJunctionV2 := NO_JUNCTION_LIMIT;
      junction := Profile(0.0, 0.0, 0.0);
    }

    method LimitSpeed(speed: real, acc: real)
      requires Valid() && Scaled() && maxStartV2 == 0.0 && speed > 0.0 && acc > 0.0
      modifies `maxCruiseV2, `minMoveT, `accel, `deltaV2, `smoothDeltaV2
      ensures Valid() && Scaled()
      ensures accel == Min(old(accel), acc) && Limits() == Slowed(old(Limits()), moveD, old(accel), speed, acc)
      ensures minMoveT == if Squared(speed) < old(maxCruiseV2) then moveD / speed else old(minMoveT)
    {
      var speed2 := Squared(speed);
      if speed2 < maxCruiseV2 {
        maxCruiseV2 := speed2;
        minMoveT := moveD / speed;
      }
      accel := Min(accel, acc);
      BudgetScales(moveD, accel, accel);
      deltaV2 := Budget(moveD, accel);
      smoothDeltaV2 := Min(smoothDeltaV2, deltaV2);
    }

    method LimitNextJunctionSpeed(speed: real)
      requires Valid()
      modifies `nextJunctionV2
      ensures Valid() && nextJunctionV2 == Min(old(nextJunctionV2), Squared(speed))
    {
      nextJunctionV2 := Min(nextJunctionV2, Squared(speed));
    }

    /** `cap` stands for the extruder's and the corner's own speed limits. */
    method CalcJunction(prev: Move, cap: real)
      requires Valid() && prev.Valid() && prev != this && cap >= 0.0
      requires maxStartV2 == 0.0 == maxSmoothedV2
      modifies `maxStartV2, `maxSmoothedV2
      ensures Valid() && Joined(prev.Limits(), Limits())
      ensures Limits() ==
              Junction(prev.Limits(), prev.isKinematic, prev.nextJunctionV2, old(Limits()), isKinematic, cap)
      ensures if isKinematic && prev.isKinematic
              then Smallest(maxStartV2, cap, maxCruiseV2, prev.maxCruiseV2, prev.nextJunctionV2,
                            prev.maxStartV2 + prev.deltaV2)
              else maxStartV2 == 0.0
    {
      if !isKinematic || !prev.isKinematic {
        return;
      }
      maxStartV2 := Min(Min(Min(cap, maxCruiseV2), Min(prev.maxCruiseV2, prev.nextJunctionV2)),
                        prev.maxStartV2 + prev.deltaV2);
      maxSmoothedV2 := Min(maxStartV2, prev.maxSmoothedV2 + prev.smoothDeltaV2);
    }

    method SetJunction(startV2: real, cruiseV2: real, endV2: real)
      modifies `junction
      ensures junction == Profile(startV2, cruiseV2, endV2)
    {
      junction := Profile(startV2, cruiseV2, endV2);
    }
  }

  /** The limits a move gets when it is queued behind ms. */
  ghost function JoinedToLast(ms: seq<Move>, move: Move, cap: real): Limits
    reads ms, move
  {
    if ms == [] then move.Limits() else
    var p := ms[|ms| - 1];
    Junction(p.Limits(), p.isKinematic, p.nextJunctionV2, move.Limits(), move.isKinematic, cap)
  }

  ghost predicate Distinct(ms: seq<Move>) {
    forall i, j :: 0 <= i < j < |ms| ==> ms[i] != ms[j]
  }

  lemma DistinctBehind(ms: seq<Move>, n: nat)
    requires Distinct(ms) && n <= |ms|
    ensures Distinct(ms[n..])
  {
  }

  /** q lists the limits of the queued moves. */
  ghost predicate Lists(ms: seq<Move>, q: seq<Limits>)
    reads ms
  {
    |q| == |ms| && forall i :: 0 <= i < |ms| ==> ms[i].Limits() == q[i]
  }

  /** The delayed list holds the run of delayed moves from `at` on, last move first. */
  ghost predicate Collected(queue: seq<Move>, delayed: seq<(Move, real, real)>, vs: seq<View>, at: nat) {
    && |vs| == |queue| + 1 && at + |delayed| <= |queue|
    && (forall j :: at <= j < at + |delayed| ==>
          vs[j].delayed && delayed[at + |delayed| - 1 - j] == (queue[j], vs[j].start, vs[j + 1].start))
    && !vs[at + |delayed|].delayed
  }

  lemma CollectMore(queue: seq<Move>, delayed: seq<(Move, real, real)>, vs: seq<View>, at: nat)
    requires Collected(queue, delayed, vs, at + 1) && vs[at].delayed
    ensures Collected(queue, delayed + [(queue[at], vs[at].start, vs[at + 1].start)], vs, at)
  {
  }

  /** How far the pass has decided the flush count after the moves from `at` on. */
  ghost predicate Decided(n: nat, lazy: bool, pending: bool, flushCount: nat, v: View, at: nat) {
    && flushCount <= n
    && pending == (lazy && v.lazy < 0)
    && (pending ==> flushCount == n)
    && (!pending ==> flushCount == if lazy then at + v.lazy else n)
  }

  class LookAheadQueue {
    var queue: seq<Move>
    var junctionFlush: real
    var output: seq<Profile>      // everything handed to the tool head so far
    ghost var sent: seq<Limits>   // of the moves queued since the queue was last empty, those handed over
    ghost var kept: seq<Limits>   // and those still queued

    ghost predicate Valid()
      reads this, queue
    {
      && Distinct(queue) && (forall m :: m in queue ==> m.Valid())
      && Lists(queue, kept)
      && Ledger(sent, kept, output)
    }

    constructor ()
      ensures Valid() && queue == [] && output == [] && sent == [] && kept == []
    {
      queue, junctionFlush, output := [], LOOKAHEAD_FLUSH_TIME, [];
      sent, kept := [], [];
      LedgerStarts([]);
    }

    /** The moves from `lo` up to `hi` carry their planned profiles. */
    ghost predicate Planned(q: seq<Limits>, vs: seq<View>, lo: nat, hi: nat)
      reads `queue, (set m | m in queue)`junction
    {
      && |q| == |queue| && |vs| == |queue| + 1 && hi <= |queue|
      && forall j :: lo <= j < hi ==> queue[j].junction == ProfileAt(q, vs, j)
    }

    /** Give the delayed moves their profiles once the peak in front of them is known. */
    method PropagatePeak(delayed: seq<(Move, real, real)>, peak: real,
                         ghost q: seq<Limits>, ghost vs: seq<View>, ghost at: nat, ghost hi: nat)
      requires Distinct(queue) && |q| == |queue| && Views(q, vs) && Collected(queue, delayed, vs, at)
      requires peak == vs[at].ceiling && Planned(q, vs, at + |delayed|, hi)
      modifies (set m | m in queue)`junction
      ensures Planned(q, vs, at, hi)
    {
      var mc := peak;
      var n := |delayed|;
      for s := 0 to n
        invariant mc == vs[at + s].ceiling
        invariant forall j :: at <= j < at + s ==> queue[j].junction == ProfileAt(q, vs, j)
        invariant Planned(q, vs, at + n, hi)
      {
        ghost var j := at + s;
        var (m, startV2, endV2) := delayed[n - 1 - s];
        assert ViewStepAt(q, vs, j) && vs[j].delayed && m == queue[j];
        mc := Min(mc, startV2);
        m.SetJunction(Min(startV2, mc), mc, Min(endV2, mc));
      }
    }

    method PlanLimited(i: nat, startV2: real, reachableStartV2: real, nextEndV2: real, peakCruiseV2: real,
                       ghost q: seq<Limits>, ghost vs: seq<View>, ghost hi: nat)
      requires Distinct(queue) && |q| == |queue| && |vs| == |queue| + 1 && i < |queue| && Planned(q, vs, i + 1, hi)
      requires q[i].maxCruise == queue[i].maxCruiseV2
      requires startV2 == vs[i].start && reachableStartV2 == vs[i + 1].start + q[i].delta
      requires nextEndV2 == vs[i + 1].start && peakCruiseV2 == vs[i].peak && !vs[i].delayed
      modifies (set m | m in queue)`junction
      ensures Planned(q, vs, i, hi)
    {
      var move := queue[i];
      var cruiseV2 := Min(Min((startV2 + reachableStartV2) * 0.5, move.maxCruiseV2), peakCruiseV2);
      move.SetJunction(Min(startV2, cruiseV2), cruiseV2, Min(nextEndV2, cruiseV2));
    }

    /** The backward pass of flush: plans the moves that will be handed over. */
    method PlanQueue(lazy: bool, ghost q: seq<Limits>) returns (pending: bool, flushCount: nat)
      requires Distinct(queue) && Lists(queue, q) && !Delayed(q)
      modifies (set m | m in queue)`junction
      ensures pending == (lazy && LazyPoint(q) < 0)
      ensures !pending ==> flushCount == if lazy then LazyPoint(q) else |queue|
      ensures !pending ==> forall j :: 0 <= j < flushCount ==> queue[j].junction == BatchPlan(q)[j]
    {
      ghost var vs := PlanByViews(q, 0.0);
      pending, flushCount := PlanByPass(lazy, q, vs);
      if !pending {
        forall j | 0 <= j < flushCount
          ensures queue[j].junction == BatchPlan(q)[j]
        {
          assert BatchPlan(q)[j] == Plan(q, 0.0)[j] == ProfileAt(q, vs, j);
        }
      }
    }

    /** One step of the pass at a move that can still accelerate. */
    method PassLimited(i: nat, lazy: bool, pending0: bool, flushCount0: nat, delayed: seq<(Move, real, real)>,
                       nextEndV2: real, nextSmoothedV2: real, peak0: real, ghost q: seq<Limits>, ghost vs: seq<View>)
      returns (pending: bool, flushCount: nat, peakCruiseV2: real)
      requires Distinct(queue) && |q| == |queue| && Views(q, vs)
      requires i < |queue| && queue[i].Limits() == q[i] && !vs[i].delayed
      requires nextEndV2 == vs[i + 1].start && nextSmoothedV2 == vs[i + 1].smoothed && peak0 == vs[i + 1].peak
      requires Collected(queue, delayed, vs, i + 1) && Decided(|queue|, lazy, pending0, flushCount0, vs[i + 1], i + 1)
      requires !pending0 ==> Planned(q, vs, i + 1 + |delayed|, flushCount0)
      modifies (set m | m in queue)`junction
      ensures peakCruiseV2 == vs[i].peak && Decided(|queue|, lazy, pending, flushCount, vs[i], i)
      ensures !pending ==> Planned(q, vs, i, flushCount)
    {
      var move := queue[i];
      assert ViewStepAt(q, vs, i);
      var reachableStartV2 := nextEndV2 + move.deltaV2;
      var startV2 := Min(move.maxStartV2, reachableStartV2);
      var reachableSmoothedV2 := nextSmoothedV2 + move.smoothDeltaV2;
      var smoothedV2 := Min(move.maxSmoothedV2, reachableSmoothedV2);
      pending, flushCount, peakCruiseV2 := pending0, flushCount0, peak0;
      if smoothedV2 + move.smoothDeltaV2 > nextSmoothedV2 || delayed != [] {
        if pending && peakCruiseV2 != 0.0 {
          flushCount := i;
          pending := false;
        }
        peakCruiseV2 := Min(move.maxCruiseV2, (smoothedV2 + reachableSmoothedV2) * 0.5);
        if delayed != [] && !pending && i < flushCount {
          PropagatePeak(delayed, peakCruiseV2, q, vs, i + 1, flushCount);
        }
      }
      if !pending && i < flushCount {
        PlanLimited(i, startV2, reachableStartV2, nextEndV2, peakCruiseV2, q, vs, flushCount);
      }
    }

    method PlanByPass(lazy: bool, ghost q: seq<Limits>, ghost vs: seq<View>) returns (pending: bool, flushCount: nat)
      requires Distinct(queue) && Lists(queue, q) && Views(q, vs) && !vs[0].delayed
      modifies (set m | m in queue)`junction
      ensures Decided(|queue|, lazy, pending, flushCount, vs[0], 0)
      ensures !pending ==> Planned(q, vs, 0, flushCount)
    {
      pending, flushCount := lazy, |queue|;
      var delayed: seq<(Move, real, real)> := [];
      var nextEndV2, nextSmoothedV2, peakCruiseV2 := 0.0, 0.0, 0.0;
      var i := |queue| - 1;
      while i >= 0
        invariant -1 <= i < |queue|
        invariant nextEndV2 == vs[i + 1].start && nextSmoothedV2 == vs[i + 1].smoothed && peakCruiseV2 == vs[i + 1].peak
        invariant Collected(queue, delayed, vs, i + 1) && Decided(|queue|, lazy, pending, flushCount, vs[i + 1], i + 1)
        invariant !pending ==> Planned(q, vs, i + 1 + |delayed|, flushCount)
      {
        var move := queue[i];
        assert ViewStepAt(q, vs, i) && move.Limits() == q[i];
        var startV2 := Min(move.maxStartV2, nextEndV2 + move.deltaV2);
        var reachableSmoothedV2 := nextSmoothedV2 + move.smoothDeltaV2;
        var smoothedV2 := Min(move.maxSmoothedV2, reachableSmoothedV2);
        if smoothedV2 < reachableSmoothedV2 {
          pending, flushCount, peakCruiseV2 :=
            PassLimited(i, lazy, pending, flushCount, delayed, nextEndV2, nextSmoothedV2, peakCruiseV2, q, vs);
          delayed := [];
        } else {
          CollectMore(queue, delayed, vs, i);
          delayed := delayed + [(move, startV2, nextEndV2)];
        }
        nextEndV2 := startV2;
        nextSmoothedV2 := smoothedV2;
        i := i - 1;
      }
    }

    /** Plan the queue, hand its final part to the tool head, and drop it from the queue. */
    method HandOver(lazy: bool, ghost q: seq<Limits>) returns (ghost count: nat)
      requires Distinct(queue) && Lists(queue, q) && !Delayed(q)
      modifies `queue, `output, `junctionFlush, (set m | m in queue)`junction
      ensures count == FlushCount(q, lazy) && count <= |q|
      ensures queue == old(queue)[count..] && output == old(output) + BatchPlan(q)[..count]
      ensures junctionFlush == LOOKAHEAD_FLUSH_TIME
    {
      junctionFlush := LOOKAHEAD_FLUSH_TIME;
      var pending, flushCount := PlanQueue(lazy, q);
      count := 0;
      if pending || flushCount == 0 {
        return;
      }
      count := flushCount;
      var profiles := [];
      for j := 0 to flushCount
        invariant profiles == BatchPlan(q)[..j]
      {
        profiles := profiles + [queue[j].junction];
      }
      output := output + profiles;
      queue := queue[flushCount..];
    }

    /**
     Plan the queue and hand over what is final.  A full flush leaves the batch planned as a
     whole, however much of it lazy flushes had already handed over.
     */
    method Flush(lazy: bool)
      requires Valid()
      modifies this, (set m | m in queue)`junction
      ensures Valid() && junctionFlush == LOOKAHEAD_FLUSH_TIME
      ensures lazy ==> var n := FlushCount(old(kept), true);
                sent == old(sent) + old(kept)[..n] && kept == old(kept)[n..] && queue == old(queue)[n..]
      ensures lazy ==> output == old(output) + BatchPlan(sent + kept)[|old(sent)|..|sent|]
      ensures !lazy ==> queue == [] && sent == []
      ensures !lazy ==> output == old(output)[..|old(output)| - |old(sent)|] + BatchPlan(old(sent) + old(kept))
    {
      hide Ledger, FlushCount, LazyPoint, Plan, BatchPlan, Delayed, Distinct;
      KeptHeadLimited(sent, kept, output);
      if lazy {
        LazyFlushAdvances(sent, kept, output);
      } else {
        FullFlushAdvances(sent, kept, output);
      }
      ghost var n := HandOver(lazy, kept);
      DistinctBehind(old(queue), n);
      if lazy {
        sent, kept := sent + kept[..n], kept[n..];
      } else {
        assert BatchPlan(kept)[..n] == BatchPlan(kept);
        LedgerStarts(output);
        sent, kept := [], [];
      }
    }

    /** set_flush_time: how much queued motion the next lazy flush waits for. */
    method SetFlushTime(flushTime: real)
      requires Valid()
      modifies `junctionFlush
      ensures Valid() && junctionFlush == flushTime
    {
      junctionFlush := flushTime;
    }

    /** Queue a move; `cap` is the junction speed allowed by the extruder and the corner. */
    method AddMove(move: Move, cap: real)
      requires Valid() && move.Valid() && move !in queue && cap >= 0.0
      requires move.maxStartV2 == 0.0 == move.maxSmoothedV2
      modifies this, (set m | m in queue)`junction, move`maxStartV2, move`maxSmoothedV2, move`junction
      ensures Valid() && sent + kept == old(sent) + old(kept) + [move.Limits()]
      ensures old(sent) <= sent && output == old(output) + BatchPlan(sent + kept)[|old(sent)|..|sent|]
      ensures queue == (old(queue) + [move])[|sent| - |old(sent)|..] && queue != [] && queue[|queue| - 1] == move
      ensures |kept| == |queue| && kept[|kept| - 1] == move.Limits()
      ensures var wait := if old(queue) == [] then old(junctionFlush) else old(junctionFlush) - move.minMoveT;
              if old(queue) != [] && wait <= 0.0
              then && junctionFlush == LOOKAHEAD_FLUSH_TIME
                   && |sent| - |old(sent)| == FlushCount(old(kept) + [move.Limits()], true)
              else junctionFlush == wait && sent == old(sent)
      ensures move.Limits() == old(JoinedToLast(queue, move, cap))
    {
      hide Ledger, FlushCount, LazyPoint, Plan, BatchPlan, Distinct, JoinedToLast;
      Enqueue(move, cap);
      assert kept[|kept| - 1] == move.Limits();
      if |queue| == 1 {
        return;
      }
      junctionFlush := junctionFlush - move.minMoveT;
      if junctionFlush <= 0.0 {
        Flush(true);
      }
    }

    method Enqueue(move: Move, cap: real)
      requires Valid() && move.Valid() && move !in queue && cap >= 0.0
      requires move.maxStartV2 == 0.0 == move.maxSmoothedV2
      modifies `queue, `kept, move`maxStartV2, move`maxSmoothedV2
      ensures Valid() && kept == old(kept) + [move.Limits()] && queue == old(queue) + [move]
      ensures move.Limits() == old(JoinedToLast(queue, move, cap))
    {
      hide Ledger;
      if queue != [] {
        var prev := queue[|queue| - 1];
        move.CalcJunction(prev, cap);
      }
      LedgerGrows(sent, kept, output, move.Limits());
      queue := queue + [move];
      kept := kept + [move.Limits()];
    }
  }

  /** How many moves a flush hands over. */
  function FlushCount(q: seq<Limits>, lazy: bool): (n: nat)
    ensures n <= |q| && (!lazy ==> n == |q|) && (lazy && q != [] ==> n < |q|)
    ensures lazy ==> (LazyPoint(q) >= 0 ==> n == LazyPoint(q)) && (LazyPoint(q) < 0 ==> n == 0)
  {
    if !lazy then |q| else if LazyPoint(q) > 0 then LazyPoint(q) else 0
  }

  /** The output ends with the plan of the batch so far, up to the move that was kept. */
  ghost predicate Ledger(sent: seq<Limits>, kept: seq<Limits>, output: seq<Profile>) {
    && Batch(sent + kept) && Settled(sent + kept, |sent|)
    && |sent| <= |output| && output[|output| - |sent|..] == BatchPlan(sent + kept)[..|sent|]
  }

  lemma SplitAtKept(sent: seq<Limits>, kept: seq<Limits>)
    requires Batch(sent + kept) && Settled(sent + kept, |sent|)
    ensures !Delayed(kept)
    ensures BatchPlan(sent + kept) == BatchPlan(sent + kept)[..|sent|] + BatchPlan(kept)
  {
    var ms := sent + kept;
    assert ms[|sent|..] == kept && ms + [] == ms;
    StreamingEqualsBatch(ms, [], |sent|);
    if sent == [] && kept != [] {
      HeadIsLimited(ms);
    }
  }

  lemma KeptHeadLimited(sent: seq<Limits>, kept: seq<Limits>, output: seq<Profile>)
    requires Ledger(sent, kept, output)
    ensures !Delayed(kept)
  {
    SplitAtKept(sent, kept);
  }

  lemma LedgerStarts(output: seq<Profile>)
    ensures Ledger([], [], output)
  {
    assert output[|output|..] == [];
  }

  lemma SuffixGrows(output: seq<Profile>, plan: seq<Profile>, b: nat, n: nat)
    requires b + n <= |plan| && b <= |output| && output[|output| - b..] == plan[..b]
    ensures var out := output + plan[b..b + n];
            b + n <= |out| && out[|out| - (b + n)..] == plan[..b + n]
  {
    var out := output + plan[b..b + n];
    assert out[|out| - (b + n)..] == output[|output| - b..] + plan[b..b + n];
  }

  lemma LazyFlushAdvances(sent: seq<Limits>, kept: seq<Limits>, output: seq<Profile>)
    requires Ledger(sent, kept, output)
    ensures var n := FlushCount(kept, true);
            && (kept != [] ==> n < |kept|)
            && BatchPlan(kept)[..n] == BatchPlan(sent + kept)[|sent|..|sent| + n]
            && (sent + kept[..n]) + kept[n..] == sent + kept
            && Ledger(sent + kept[..n], kept[n..], output + BatchPlan(kept)[..n])
  {
    hide BatchPlan, Linked, IsPeak, Limited;
    var ms, b, n := sent + kept, |sent|, FlushCount(kept, true);
    SplitAtKept(sent, kept);
    assert (sent + kept[..n]) + kept[n..] == ms;
    if n > 0 {
      assert ms[b..] == kept;
      SettledFurther(ms, b);
    }
    SuffixGrows(output, BatchPlan(ms), b, n);
  }

  lemma FullFlushAdvances(sent: seq<Limits>, kept: seq<Limits>, output: seq<Profile>)
    requires Ledger(sent, kept, output)
    ensures output + BatchPlan(kept) == output[..|output| - |sent|] + BatchPlan(sent + kept)
  {
    SplitAtKept(sent, kept);
    assert output == output[..|output| - |sent|] + output[|output| - |sent|..];
  }

  lemma LedgerGrows(sent: seq<Limits>, kept: seq<Limits>, output: seq<Profile>, m: Limits)
    requires Ledger(sent, kept, output) && Sane(m)
    requires if kept == [] then m.maxStart == 0.0 else Joined(kept[|kept| - 1], m)
    ensures Ledger(sent, kept + [m], output)
  {
    hide BatchPlan, IsPeak, Limited;
    var ms := sent + kept;
    assert sent + (kept + [m]) == ms + [m];
    if kept != [] {
      forall i | 0 < i < |ms + [m]|
        ensures JoinedAt(ms + [m], i)
      {
        assert i < |ms| ==> JoinedAt(ms, i);
      }
      SettledStays(ms, m, |sent|);
    }
  }

  // ---------------------------------------------------------------- whole runs

  /**
   One call of ToolHead::move; the speed limits of the kinematics and the extruder, if any, as one
   call of limit_speed; a speed limit for the junction behind it; whether the tool head sets the flush
   time before it, and to what; and whether an extra lazy flush follows.
   */
  datatype Request = Request(moveD: real, speed: real, isKinematic: bool,
                             maxVelocity: real, maxAccel: real, maxAccelToDecel: real,
                             limitSpeed: real, limitAccel: real, cap: real, nextSpeed: real,
                             setsFlushTime: bool, flushTime: real, lazyFlush: bool)

  ghost predicate Sensible(r: Request) {
    && r.moveD > 0.0 && r.speed > 0.0 && r.maxVelocity > 0.0 && r.cap >= 0.0
    && 0.0 < r.maxAccelToDecel <= r.maxAccel
    && r.limitSpeed > 0.0 && r.limitAccel > 0.0
  }

  function RequestLimits(r: Request): Limits {
    var m := Unjoined(r.moveD, r.speed, r.isKinematic, r.maxVelocity, r.maxAccel, r.maxAccelToDecel);
    Slowed(m, r.moveD, if r.isKinematic then r.maxAccel else EXTRUDE_ACCEL, r.limitSpeed, r.limitAccel)
  }

  function RequestAccel(r: Request): real {
    Min(if r.isKinematic then r.maxAccel else EXTRUDE_ACCEL, r.limitAccel)
  }

  /** The profile speeds up, cruises and brakes over lengths that make up the requested move. */
  ghost predicate Drives(r: Request, p: Profile)
    requires Sensible(r)
  {
    var (a, c, d) := Distances(p, RequestAccel(r), r.moveD);
    0.0 <= a && 0.0 <= c && 0.0 <= d && a + c + d == r.moveD
  }

  lemma {:induction false} JoinedBudget(rs: seq<Request>, i: nat)
    requires i < |rs|
    ensures JoinedLimits(rs)[i].delta == Budget(rs[i].moveD, RequestAccel(rs[i]))
    decreases |rs|
  {
    hide Budget;
    var n := |rs| - 1;
    if i < n {
      JoinedBudget(rs[..n], i);
    }
  }

  lemma {:induction false} FeasibleDrives(rs: seq<Request>, i: nat, p: Profile)
    requires i < |rs| && Sensible(rs[i]) && Feasible(JoinedLimits(rs)[i], p)
    ensures Drives(rs[i], p)
  {
    hide JoinedLimits;
    JoinedBudget(rs, i);
    DistancesFit(JoinedLimits(rs)[i], p, RequestAccel(rs[i]), rs[i].moveD);
  }

  /** A speed and an acceleration that a request allows. */
  ghost predicate Allows(r: Request, v2: real, a: real) {
    && v2 <= r.speed * r.speed && v2 <= r.limitSpeed * r.limitSpeed
    && a <= r.limitAccel
    && if r.isKinematic then v2 <= r.maxVelocity * r.maxVelocity && a <= r.maxAccel else a <= 99999999.9
  }

  /** The limits of a request are the greatest that it allows. */
  lemma RequestMeans(r: Request)
    requires Sensible(r)
    ensures var m, a := RequestLimits(r), RequestAccel(r);
            && Allows(r, m.maxCruise, a) && m.delta == 2.0 * r.moveD * a
            && (m.smoothDelta == m.delta || m.smoothDelta == 2.0 * r.moveD * r.maxAccelToDecel)
            && m.smoothDelta <= m.delta && m.smoothDelta <= 2.0 * r.moveD * r.maxAccelToDecel
            && (a == r.limitAccel || a == if r.isKinematic then r.maxAccel else 99999999.9)
            && (m.maxCruise == r.speed * r.speed || m.maxCruise == r.limitSpeed * r.limitSpeed
                || (r.isKinematic && m.maxCruise == r.maxVelocity * r.maxVelocity))
  {
    if r.isKinematic {
      SquaresOrder(r.speed, r.maxVelocity);
    }
  }

  lemma SquaresOrder(a: real, b: real)
    requires a > 0.0 && b > 0.0
    ensures a <= b <==> a * a <= b * b
  {
    assert b * b - a * a == (b - a) * (b + a);
  }

  /** What a profile must keep to, said of the request alone. */
  ghost predicate Respects(r: Request, p: Profile) {
    && 0.0 <= p.start <= p.cruise && 0.0 <= p.end <= p.cruise && 0.0 < p.cruise
    && exists a :: Allows(r, p.cruise, a) && (p.cruise - p.start) + (p.cruise - p.end) <= 2.0 * r.moveD * a
  }

  /** How a move may start, said of its request and the one before: slow enough for the corner between them. */
  ghost predicate Corners(before: Request, r: Request, p: Profile) {
    if before.isKinematic && r.isKinematic
    then p.start <= r.cap && p.start <= before.nextSpeed * before.nextSpeed
    else p.start == 0.0
  }

  lemma {:induction false} JoinedMeans(rs: seq<Request>, i: nat)
    requires i < |rs|
    ensures var m, n := JoinedLimits(rs)[i], RequestLimits(rs[i]);
            && m.delta == n.delta && m.smoothDelta == n.smoothDelta && m.maxCruise == n.maxCruise
            && (i == 0 ==> m == n)
            && (i > 0 ==> m == Junction(JoinedLimits(rs)[i - 1], rs[i - 1].isKinematic, NextJunction(rs[i - 1]),
                                        n, rs[i].isKinematic, rs[i].cap))
    decreases |rs|
  {
    hide RequestLimits, NextJunction;
    var n := |rs| - 1;
    if i < n {
      JoinedMeans(rs[..n], i);
    } else if i > 0 {
      JunctionMeans(JoinedLimits(rs)[i - 1], rs[i - 1].isKinematic, NextJunction(rs[i - 1]),
                    RequestLimits(rs[i]), rs[i].isKinematic, rs[i].cap);
    }
  }

  lemma {:induction false} FeasibleRespects(rs: seq<Request>, i: nat, p: Profile)
    requires i < |rs| && Sensible(rs[i]) && Feasible(JoinedLimits(rs)[i], p)
    ensures Respects(rs[i], p) && (i > 0 ==> Corners(rs[i - 1], rs[i], p))
  {
    hide JoinedLimits, RequestLimits, Junction, Respects, Corners, NextJunction;
    JoinedMeans(rs, i);
    RespectsRequest(rs[i], p);
    if i > 0 {
      CornersRequest(JoinedLimits(rs)[i - 1], rs[i - 1], rs[i], p);
    }
  }

  lemma RespectsRequest(r: Request, p: Profile)
    requires Sensible(r)
    requires var m := RequestLimits(r); Feasible(m.(maxStart := m.maxCruise), p)
    ensures Respects(r, p)
  {
    hide RequestLimits, RequestAccel;
    RequestMeans(r);
    assert Allows(r, p.cruise, RequestAccel(r));
  }

  lemma CornersRequest(before: Limits, b: Request, r: Request, p: Profile)
    requires Sensible(r) && p.start >= 0.0
    requires var m := Junction(before, b.isKinematic, NextJunction(b), RequestLimits(r), r.isKinematic, r.cap);
             p.start <= m.maxStart
    ensures Corners(b, r, p)
  {
    hide RequestLimits, Junction, NextJunction;
    StandsAtFirst(r);
    NextJunctionMeans(b);
    JunctionMeans(before, b.isKinematic, NextJunction(b), RequestLimits(r), r.isKinematic, r.cap);
  }

  lemma StandsAtFirst(r: Request)
    ensures RequestLimits(r).maxStart == 0.0
  {
    hide Budget, Squared;
  }

  lemma NextJunctionMeans(r: Request)
    ensures NextJunction(r) <= r.nextSpeed * r.nextSpeed
    ensures NextJunction(r) == r.nextSpeed * r.nextSpeed || NextJunction(r) == 999999999.9
  {
  }

  /** The squared speed that the smoothed acceleration reaches halfway through the requests. */
  ghost function Halfway(rs: seq<Request>): real {
    if rs == [] then 0.0 else Halfway(rs[..|rs| - 1]) + rs[|rs| - 1].moveD * rs[|rs| - 1].maxAccelToDecel
  }

  lemma {:induction false} GainIsHalfway(rs: seq<Request>)
    requires forall i :: 0 <= i < |rs| ==> Sensible(rs[i])
    ensures SmoothGain(JoinedLimits(rs)) <= 2.0 * Halfway(rs)
    decreases |rs|
  {
    hide RequestLimits, Sensible, Junction, NextJunction;
    if rs != [] {
      var n := |rs| - 1;
      GainIsHalfway(rs[..n]);
      JoinedMeans(rs, n);
      RequestMeans(rs[n]);
      assert JoinedLimits(rs)[..n] == JoinedLimits(rs[..n]);
    }
  }

  function NextJunction(r: Request): real {
    Min(NO_JUNCTION_LIMIT, Squared(r.nextSpeed))
  }

  /** The limits of the requested moves, each joined to the one before it: no flush matters. */
  function JoinedLimits(rs: seq<Request>): (ms: seq<Limits>)
    ensures |ms| == |rs|
  {
    if rs == [] then []
    else
      var n := |rs| - 1;
      var ms := JoinedLimits(rs[..n]);
      var m := RequestLimits(rs[n]);
      ms + [if n == 0 then m
            else Junction(ms[n - 1], rs[n - 1].isKinematic, NextJunction(rs[n - 1]), m, rs[n].isKinematic, rs[n].cap)]
  }

  /** The last move in the queue, and the limits recorded for it. */
  ghost predicate EndsWith(q: LookAheadQueue, isKinematic: bool, next: real, m: Limits)
    reads q, q.queue
  {
    && q.queue != [] && |q.kept| == |q.queue| && q.kept[|q.kept| - 1] == m
    && var p := q.queue[|q.queue| - 1]; p.isKinematic == isKinematic && p.nextJunctionV2 == next
  }

  method MakeMove(r: Request) returns (move: Move)
    requires Sensible(r)
    ensures fresh(move) && move.Valid() && move.isKinematic == r.isKinematic && move.Limits() == RequestLimits(r)
    ensures move.nextJunctionV2 == NO_JUNCTION_LIMIT && move.maxStartV2 == 0.0 == move.maxSmoothedV2
  {
    hide Unjoined, Slowed, Sane, Budget, Squared;
    move := new Move(r.moveD, r.speed, r.isKinematic, r.maxVelocity, r.maxAccel, r.maxAccelToDecel);
    move.LimitSpeed(r.limitSpeed, r.limitAccel);
  }

  method Serve(q: LookAheadQueue, r: Request, ghost pKinematic: bool, ghost next: real, ghost p: Limits)
    returns (ghost m: Limits)
    requires q.Valid() && Sensible(r) && (q.queue == [] || EndsWith(q, pKinematic, next, p))
    modifies q, (set m | m in q.queue)`junction
    ensures q.Valid() && |q.output| - |q.sent| == |old(q.output)| - |old(q.sent)|
    ensures forall m :: m in q.queue ==> m in old(q.queue) || fresh(m)
    ensures EndsWith(q, r.isKinematic, NO_JUNCTION_LIMIT, m) && fresh(q.queue[|q.queue| - 1])
    ensures q.sent + q.kept == old(q.sent + q.kept) + [m]
    ensures m == if old(q.queue) == [] then RequestLimits(r)
                 else Junction(p, pKinematic, next, RequestLimits(r), r.isKinematic, r.cap)
  {
    hide Ledger, FlushCount, BatchPlan, Junction, RequestLimits, Distinct;
    var move := MakeMove(r);
    q.AddMove(move, r.cap);
    m := move.Limits();
  }

  method FlushLazily(q: LookAheadQueue, ghost kinematic: bool, ghost next: real, ghost m: Limits)
    requires q.Valid() && EndsWith(q, kinematic, next, m)
    modifies q, (set m | m in q.queue)`junction
    ensures q.Valid() && |q.output| - |q.sent| == |old(q.output)| - |old(q.sent)|
    ensures forall m :: m in q.queue ==> m in old(q.queue)
    ensures EndsWith(q, kinematic, next, m) && q.sent + q.kept == old(q.sent + q.kept)
  {
    hide Ledger, FlushCount, BatchPlan, Distinct;
    q.Flush(true);
  }

  /** ToolHead::limit_next_junction_speed, for the move queued last. */
  method LimitNext(q: LookAheadQueue, last: Move, r: Request, ghost m: Limits)
    requires q.Valid() && EndsWith(q, r.isKinematic, NO_JUNCTION_LIMIT, m) && last == q.queue[|q.queue| - 1]
    modifies last`nextJunctionV2
    ensures q.Valid() && EndsWith(q, r.isKinematic, NextJunction(r), m)
  {
    hide Ledger, Distinct;
    last.LimitNextJunctionSpeed(r.nextSpeed);
  }

  /**
   Queue any sequence of moves, setting the flush time to anything at any point and flushing lazily at
   any points besides those the queue chooses itself.  What the tool head receives in the end is the
   plan of one full flush over the whole sequence: continuous, feasible and at rest at both ends.
   */
  method PlanStream(rs: seq<Request>) returns (profiles: seq<Profile>)
    requires forall i :: 0 <= i < |rs| ==> Sensible(rs[i])
    ensures profiles == BatchPlan(JoinedLimits(rs))
    ensures Continuous(profiles) && forall i :: 0 <= i < |rs| ==> Feasible(JoinedLimits(rs)[i], profiles[i])
    ensures rs != [] ==> profiles[0].start == 0.0 && profiles[|rs| - 1].end == 0.0
    ensures forall i :: 0 <= i < |rs| ==> Drives(rs[i], profiles[i]) && Respects(rs[i], profiles[i])
    ensures forall i :: 0 < i < |rs| ==> Corners(rs[i - 1], rs[i], profiles[i])
    ensures forall i :: 0 <= i < |rs| ==> profiles[i].cruise <= Halfway(rs)
  {
    hide Halfway, Drives, Respects, Corners, JoinedLimits, LookAheadQueue.Valid, BatchPlan, Feasible, MeetsAt;
    var q := QueueAll(rs);
    profiles := FlushRest(q, JoinedLimits(rs));
    GainIsHalfway(rs);
    forall i | 0 <= i < |rs|
      ensures Drives(rs[i], profiles[i]) && Respects(rs[i], profiles[i])
      ensures (i > 0 ==> Corners(rs[i - 1], rs[i], profiles[i])) && profiles[i].cruise <= Halfway(rs)
    {
      CruiseIsSmooth(JoinedLimits(rs), i);
      FeasibleDrives(rs, i, profiles[i]);
      FeasibleRespects(rs, i, profiles[i]);
    }
  }

  /** The queue after all requests, with whatever has been handed over on the way. */
  method QueueAll(rs: seq<Request>) returns (q: LookAheadQueue)
    requires forall i :: 0 <= i < |rs| ==> Sensible(rs[i])
    ensures fresh(q) && q.Valid() && (forall m :: m in q.queue ==> fresh(m))
    ensures q.sent + q.kept == JoinedLimits(rs) && |q.output| == |q.sent|
  {
    hide LookAheadQueue.Valid, Ledger, BatchPlan, Junction, RequestLimits, NextJunction;
    q := new LookAheadQueue();
    ghost var ms := [];
    for i := 0 to |rs|
      invariant q.Valid() && fresh(q) && (forall m :: m in q.queue ==> fresh(m))
      invariant ms == JoinedLimits(rs[..i]) && q.sent + q.kept == ms && |q.output| == |q.sent|
      invariant if i == 0 then q.queue == []
                else EndsWith(q, rs[i - 1].isKinematic, NextJunction(rs[i - 1]), ms[i - 1])
    {
      ghost var j := if i > 0 then i - 1 else i;
      ghost var m := Step(q, rs[i], rs[j], if i > 0 then ms[j] else RequestLimits(rs[i]));
      assert rs[..i + 1][..i] == rs[..i];
      ms := ms + [m];
    }
    assert rs[..|rs|] == rs;
  }

  /** One request: queue the move, limit its next junction, and flush lazily if asked to. */
  method Step(q: LookAheadQueue, r: Request, ghost before: Request, ghost p: Limits) returns (ghost m: Limits)
    requires q.Valid() && Sensible(r) && (q.queue == [] || EndsWith(q, before.isKinematic, NextJunction(before), p))
    modifies q, (set m | m in q.queue)`junction
    ensures q.Valid() && |q.output| - |q.sent| == |old(q.output)| - |old(q.sent)|
    ensures forall m :: m in q.queue ==> m in old(q.queue) || fresh(m)
    ensures EndsWith(q, r.isKinematic, NextJunction(r), m) && q.sent + q.kept == old(q.sent + q.kept) + [m]
    ensures m == if old(q.queue) == [] then RequestLimits(r)
                 else Junction(p, before.isKinematic, NextJunction(before), RequestLimits(r), r.isKinematic, r.cap)
  {
    hide LookAheadQueue.Valid, Ledger, BatchPlan, Junction, RequestLimits, NextJunction;
    if r.setsFlushTime {
      q.SetFlushTime(r.flushTime);
    }
    m := Serve(q, r, before.isKinematic, NextJunction(before), p);
    LimitNext(q, q.queue[|q.queue| - 1], r, m);
    if r.lazyFlush {
      FlushLazily(q, r.isKinematic, NextJunction(r), m);
    }
  }

  method FlushRest(q: LookAheadQueue, ghost ms: seq<Limits>) returns (profiles: seq<Profile>)
    requires q.Valid() && q.sent + q.kept == ms && |q.output| == |q.sent|
    modifies q, (set m | m in q.queue)`junction
    ensures profiles == BatchPlan(ms) && Good(ms, profiles) && Batch(ms)
    ensures ms != [] ==> profiles[0].start == 0.0
  {
    hide Ledger, BatchPlan, Distinct, Feasible;
    LedgerIsBatch(q);
    q.Flush(false);
    profiles := q.output;
    BatchPlanGood(ms);
  }

  lemma LedgerIsBatch(q: LookAheadQueue)
    requires q.Valid()
    ensures Batch(q.sent + q.kept)
  {
  }
}
