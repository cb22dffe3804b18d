/**
 The velocity plan that the look-ahead queue computes, as functions on values.

 Speeds are squared (mm^2/s^2) and exact reals.  A queue is read from its end:
 every function below describes a move together with everything queued after it,
 so `q` always stands for "this move and the moves behind it".
 */
module LookAheadPlan {
  import opened Reals

  /** The speed limits of one queued move (toolhead.cpp, class Move). */
  datatype Limits = Limits(delta: real, smoothDelta: real, maxCruise: real,
                           maxStart: real, maxSmoothed: real)

  /** The squared speeds given to set_junction. */
  datatype Profile = Profile(start: real, cruise: real, end: real)

  /** Smoothing is the stricter limit, except for a move that has to start from standstill. */
  ghost predicate Sane(m: Limits) {
    && 0.0 < m.smoothDelta && 0.0 < m.delta && (m.smoothDelta <= m.delta || m.maxStart == 0.0)
    && 0.0 < m.maxCruise
    && 0.0 <= m.maxSmoothed <= m.maxStart <= m.maxCruise
  }

  /** What calc_junction establishes between a move and its predecessor. */
  ghost predicate Joined(p: Limits, m: Limits) {
    && m.maxStart <= p.maxCruise
    && m.maxStart <= p.maxStart + p.delta
    && m.maxSmoothed <= p.maxSmoothed + p.smoothDelta
    && (m.maxSmoothed == m.maxStart || m.maxSmoothed == p.maxSmoothed + p.smoothDelta)
  }

  ghost predicate JoinedAt(q: seq<Limits>, i: nat)
    requires 0 < i < |q|
  {
    Joined(q[i - 1], q[i])
  }

  /** A run of moves, each joined to the one before it. */
  ghost predicate Linked(q: seq<Limits>) {
    && (forall i :: 0 <= i < |q| ==> Sane(q[i]))
    && (forall i :: 0 < i < |q| ==> JoinedAt(q, i))
  }

  /** A run that starts from standstill: the moves queued since the queue was last empty. */
  ghost predicate Batch(ms: seq<Limits>) {
    Linked(ms) && (ms != [] ==> ms[0].maxStart == 0.0)
  }

  // ---------------------------------------------------------------- backward values

  function Smoothed(q: seq<Limits>): real {
    if q == [] then 0.0 else Min(q[0].maxSmoothed, Smoothed(q[1..]) + q[0].smoothDelta)
  }

  function Start(q: seq<Limits>): real {
    if q == [] then 0.0 else Min(q[0].maxStart, Start(q[1..]) + q[0].delta)
  }

  /** The head's smoothed speed is set by its own limit, not by the need to brake. */
  predicate Limited(q: seq<Limits>)
    requires q != []
  {
    q[0].maxSmoothed < Smoothed(q[1..]) + q[0].smoothDelta
  }

  /** A move in a full-deceleration run, whose planning has to wait for a peak. */
  predicate Delayed(q: seq<Limits>) {
    q != [] && !Limited(q)
  }

  /** The head is where a run of acceleration ends and deceleration can begin. */
  predicate IsPeak(q: seq<Limits>)
    requires q != []
  {
    Limited(q) && (Smoothed(q) + q[0].smoothDelta > Smoothed(q[1..]) || Delayed(q[1..]))
  }

  function PeakHere(q: seq<Limits>): real
    requires q != []
  {
    Min(q[0].maxCruise, (Smoothed(q) + Smoothed(q[1..]) + q[0].smoothDelta) * 0.5)
  }

  /** The cruise ceiling of the closest peak at or behind the head; 0 when there is none. */
  function Peak(q: seq<Limits>): real {
    if q == [] then 0.0 else if IsPeak(q) then PeakHere(q) else Peak(q[1..])
  }

  function LimitedProfile(q: seq<Limits>): Profile
    requires q != []
  {
    var next := Start(q[1..]);
    var c := Min(Min((Start(q) + next + q[0].delta) * 0.5, q[0].maxCruise), Peak(q));
    Profile(Min(Start(q), c), c, Min(next, c))
  }

  /** The profile of every move of q; `ceiling` is what the move before q cruises at. */
  function Plan(q: seq<Limits>, ceiling: real): (plan: seq<Profile>)
    ensures |plan| == |q|
  {
    if q == [] then []
    else if Limited(q) then [LimitedProfile(q)] + Plan(q[1..], Peak(q))
    else
      var c := Min(ceiling, Start(q));
      [Profile(c, c, Min(Start(q[1..]), c))] + Plan(q[1..], c)
  }

  /** What one full flush over a whole batch plans. */
  function BatchPlan(ms: seq<Limits>): (plan: seq<Profile>)
    ensures |plan| == |ms|
  {
    Plan(ms, 0.0)
  }

  /** Index of the second peak counted from the end, or -1: how far a lazy flush may go. */
  function LazyPoint(q: seq<Limits>): (k: int)
    ensures -1 <= k && (q != [] ==> k < |q|)
  {
    if q == [] then -1
    else if LazyPoint(q[1..]) >= 0 then LazyPoint(q[1..]) + 1
    else if IsPeak(q) && Peak(q[1..]) != 0.0 then 0
    else -1
  }

  /** The head is a peak with another one behind it. */
  ghost predicate SecondPeak(q: seq<Limits>) {
    q != [] && IsPeak(q) && Peak(q[1..]) != 0.0
  }

  /** A lazy flush goes as far as the last peak that has another one behind it, and nowhere if there is none. */
  lemma {:induction false} LazyPointIsSecondPeak(q: seq<Limits>)
    ensures LazyPoint(q) >= 0 ==> LazyPoint(q) < |q| && SecondPeak(q[LazyPoint(q)..])
    ensures forall j :: 0 <= j < |q| && j > LazyPoint(q) ==> !SecondPeak(q[j..])
    decreases |q|
  {
    hide IsPeak, Peak;
    if q != [] {
      var k := LazyPoint(q[1..]);
      LazyPointIsSecondPeak(q[1..]);
      assert q[0..] == q;
      forall j | 0 < j < |q|
        ensures q[j..] == q[1..][j - 1..]
      {
      }
      assert k >= 0 ==> q[k + 1..] == q[1..][k..];
    }
  }

  // ---------------------------------------------------------------- local facts

  lemma LinkedTail(q: seq<Limits>)
    requires Linked(q) && q != []
    ensures Linked(q[1..]) && Sane(q[0]) && (|q| > 1 ==> Sane(q[1]) && Joined(q[0], q[1]))
  {
    LinkedSuffix(q, 1);
    assert |q| > 1 ==> JoinedAt(q, 1);
  }

  lemma {:induction false} Bounds(q: seq<Limits>)
    requires Linked(q)
    ensures 0.0 <= Smoothed(q) <= Start(q)
    ensures 0.0 <= Peak(q)
  {
    if q != [] {
      LinkedTail(q);
      Bounds(q[1..]);
    }
  }

  /** A peak exists behind every limited move, at a ceiling no lower than its smoothed speed. */
  lemma {:induction false} PeakCovers(q: seq<Limits>)
    requires Linked(q) && q != [] && Limited(q)
    ensures Peak(q) > 0.0 && Peak(q) >= Smoothed(q)
  {
    LinkedTail(q);
    Bounds(q[1..]);
    if !IsPeak(q) {
      assert |q| > 1 && Limited(q[1..]);
      PeakCovers(q[1..]);
    }
  }

  lemma {:induction false} PeakZero(q: seq<Limits>)
    requires Linked(q)
    ensures Peak(q) == 0.0 ==> forall k :: 0 <= k < |q| ==> !IsPeak(q[k..])
    ensures Peak(q) != 0.0 ==> exists k :: 0 <= k < |q| && IsPeak(q[k..])
  {
    if q != [] {
      LinkedTail(q);
      assert q[0..] == q;
      PeakZero(q[1..]);
      if IsPeak(q) {
        PeakCovers(q);
      } else {
        assert forall k :: 0 < k < |q| ==> q[k..] == q[1..][k - 1..];
        if Peak(q) != 0.0 {
          var k :| 0 <= k < |q[1..]| && IsPeak(q[1..][k..]);
          assert IsPeak(q[k + 1..]);
        }
      }
    }
  }

  /** When smoothing no longer constrains a move more than its junction does, neither does braking. */
  lemma JunctionBound(q: seq<Limits>)
    requires Linked(q) && q != [] && Limited(q) && q[0].maxSmoothed == q[0].maxStart
    ensures Start(q) == q[0].maxStart == Smoothed(q)
  {
    LinkedTail(q);
    Bounds(q);
  }

  /**
   The relation calc_junction sets up: a limited move right behind a delayed one, or
   right behind a peak, is bounded by its junction speed.
   */
  lemma BehindPeakIsJunctionBound(q: seq<Limits>)
    requires Linked(q) && |q| > 1 && Limited(q[1..])
    requires Delayed(q) || Smoothed(q) + q[0].smoothDelta > Smoothed(q[1..])
    ensures Start(q[1..]) == q[1].maxStart == Smoothed(q[1..])
  {
    LinkedTail(q);
    Bounds(q[1..]);
    assert q[1].maxSmoothed != q[0].maxSmoothed + q[0].smoothDelta;
    JunctionBound(q[1..]);
  }

  /** The ceiling a move passes on to the move behind it. */
  function NextCeiling(q: seq<Limits>, ceiling: real): real
    requires q != []
  {
    if Limited(q) then Peak(q) else Min(ceiling, Start(q))
  }

  lemma PlanUnfolds(q: seq<Limits>, ceiling: real, b: nat)
    requires 0 < b <= |q|
    ensures Plan(q, ceiling)[1..] == Plan(q[1..], NextCeiling(q, ceiling))
    ensures Plan(q, ceiling)[..b] == [Plan(q, ceiling)[0]] + Plan(q[1..], NextCeiling(q, ceiling))[..b - 1]
  {
  }

  // ---------------------------------------------------------------- feasibility and continuity

  /** The profile respects the move's own limits and fits in its length. */
  ghost predicate Feasible(m: Limits, p: Profile) {
    && 0.0 <= p.start <= p.cruise
    && 0.0 <= p.end <= p.cruise
    && 0.0 < p.cruise <= m.maxCruise
    && p.start <= m.maxStart
    && (p.cruise - p.start) + (p.cruise - p.end) <= m.delta
  }

  ghost predicate MeetsAt(plan: seq<Profile>, i: nat)
    requires 0 < i < |plan|
  {
    plan[i - 1].end == plan[i].start
  }

  ghost predicate Continuous(plan: seq<Profile>) {
    forall i :: 0 < i < |plan| ==> MeetsAt(plan, i)
  }

  lemma LimitedProfileFeasible(q: seq<Limits>)
    requires Linked(q) && q != [] && Limited(q)
    ensures Feasible(q[0], LimitedProfile(q))
  {
    LinkedTail(q);
    Bounds(q[1..]);
    PeakCovers(q);
  }

  /** The speed at which two neighbouring moves meet, as each of them sees it. */
  lemma LimitedMeets(q: seq<Limits>)
    requires Linked(q) && q != [] && Limited(q)
    ensures LimitedProfile(q).start == Min(Start(q), Peak(q))
    ensures |q| > 1 ==> LimitedProfile(q).end == Min(Start(q[1..]), Peak(q))
  {
    LinkedTail(q);
    Bounds(q[1..]);
    PeakCovers(q);
  }

  lemma PeakCoversNext(q: seq<Limits>)
    requires Linked(q) && |q| > 1 && IsPeak(q)
    ensures Peak(q) >= Smoothed(q[1..])
  {
    LinkedTail(q);
    Bounds(q[1..]);
  }

  lemma NeighboursMeet(q: seq<Limits>, ceiling: real)
    requires Linked(q) && |q| > 1
    requires Delayed(q) ==> ceiling >= Smoothed(q)
    ensures Plan(q, ceiling)[0].end == Plan(q, ceiling)[1].start
  {
    LinkedTail(q);
    Bounds(q);
    var t := q[1..];
    Bounds(t);
    if Limited(q) {
      LimitedMeets(q);
      if Limited(t) {
        LimitedMeets(t);
        if IsPeak(q) {
          BehindPeakIsJunctionBound(q);
          PeakCoversNext(q);
          PeakCovers(t);
        }
      }
    } else if Limited(t) {
      LimitedMeets(t);
      BehindPeakIsJunctionBound(q);
      PeakCovers(t);
    }
  }

  lemma HeadGood(q: seq<Limits>, ceiling: real)
    requires Linked(q) && q != []
    requires Delayed(q) ==> ceiling >= Smoothed(q)
    ensures Feasible(q[0], Plan(q, ceiling)[0])
    ensures |q| == 1 ==> Plan(q, ceiling)[0].end == 0.0
    ensures Delayed(q[1..]) ==> NextCeiling(q, ceiling) >= Smoothed(q[1..])
  {
    LinkedTail(q);
    Bounds(q);
    Bounds(q[1..]);
    if Limited(q) {
      LimitedProfileFeasible(q);
      if Delayed(q[1..]) {
        PeakCoversNext(q);
      }
    }
  }

  ghost predicate Good(q: seq<Limits>, plan: seq<Profile>) {
    && |plan| == |q| && Continuous(plan)
    && (forall i :: 0 <= i < |q| ==> Feasible(q[i], plan[i]))
    && (q != [] ==> plan[|q| - 1].end == 0.0)
  }

  lemma GoodGrows(q: seq<Limits>, plan: seq<Profile>)
    requires q != [] && |plan| == |q| && Good(q[1..], plan[1..])
    requires Feasible(q[0], plan[0])
    requires if |q| == 1 then plan[0].end == 0.0 else plan[0].end == plan[1].start
    ensures Good(q, plan)
  {
    hide Feasible;
    forall i | 0 < i < |q|
      ensures Feasible(q[i], plan[i]) && MeetsAt(plan, i)
    {
      assert plan[i] == plan[1..][i - 1] && q[i] == q[1..][i - 1];
      if i > 1 {
        assert MeetsAt(plan[1..], i - 1);
      }
    }
  }

  lemma {:induction false} PlanGood(q: seq<Limits>, ceiling: real)
    requires Linked(q)
    requires Delayed(q) ==> ceiling >= Smoothed(q)
    ensures Good(q, Plan(q, ceiling))
  {
    hide Feasible, Linked, Smoothed, Delayed;
    if q != [] {
      LinkedSuffix(q, 1);
      HeadGood(q, ceiling);
      PlanUnfolds(q, ceiling, 1);
      PlanGood(q[1..], NextCeiling(q, ceiling));
      if |q| > 1 {
        NeighboursMeet(q, ceiling);
      }
      GoodGrows(q, Plan(q, ceiling));
    }
  }

  /**
   Every batch is planned feasibly: it starts and ends at standstill, each move ends at the
   speed its successor starts with, and each profile fits the limits and length of its move.
   */
  lemma BatchPlanGood(ms: seq<Limits>)
    requires Batch(ms)
    ensures forall i :: 0 <= i < |ms| ==> Feasible(ms[i], BatchPlan(ms)[i])
    ensures Continuous(BatchPlan(ms))
    ensures ms != [] ==> BatchPlan(ms)[0].start == 0.0 && BatchPlan(ms)[|ms| - 1].end == 0.0
  {
    if ms != [] {
      HeadIsLimited(ms);
    }
    PlanGood(ms, 0.0);
    assert ms != [] ==> Feasible(ms[0], BatchPlan(ms)[0]);
  }

  lemma HeadIsLimited(ms: seq<Limits>)
    requires Batch(ms) && ms != []
    ensures Limited(ms)
  {
    LinkedTail(ms);
    Bounds(ms[1..]);
  }

  /** The acceleration, cruise and braking distances of set_junction. */
  function Distances(p: Profile, accel: real, moveD: real): (r: (real, real, real))
    requires accel > 0.0
  {
    var halfInvAccel := 0.5 / accel;
    var accelD := (p.cruise - p.start) * halfInvAccel;
    var decelD := (p.cruise - p.end) * halfInvAccel;
    (accelD, moveD - accelD - decelD, decelD)
  }

  /** A feasible profile has no negative distance, and its distances add up to the move. */
  lemma DistancesFit(m: Limits, p: Profile, accel: real, moveD: real)
    requires accel > 0.0 && m.delta == 2.0 * moveD * accel
    requires Feasible(m, p)
    ensures var (a, c, d) := Distances(p, accel, moveD);
            a >= 0.0 && c >= 0.0 && d >= 0.0 && a + c + d == moveD
  {
    var h := 0.5 / accel;
    var up, down := p.cruise - p.start, p.cruise - p.end;
    var (a, c, d) := Distances(p, accel, moveD);
    assert a == up * h && d == down * h && c == moveD - a - d;
    assert a + d == (up + down) * h <= m.delta * h;
    assert m.delta * h == moveD by {
      assert accel * h == 0.5;
      assert m.delta * h == 2.0 * moveD * (accel * h);
    }
  }

  /** set_junction drops durations of less than a nanosecond. */
  function Settle(t: real): real {
    if -0.000000001 < t < 0.000000001 then 0.0 else t
  }

  /** A distance covered in less than a nanosecond, at the average of two speeds. */
  ghost predicate Brief(d: real, v: real, c: real) {
    d < 0.000000001 * ((v + c) * 0.5)
  }

  /** How long a change between two speeds takes over a distance. */
  function RampDuration(d: real, v: real, c: real): real
    requires v >= 0.0 && c > 0.0
  {
    Settle(d / ((v + c) * 0.5))
  }

  /** The durations of set_junction; v, c and e are the roots of the three squared speeds. */
  function Durations(p: Profile, accel: real, moveD: real, v: real, c: real, e: real): (r: (real, real, real))
    requires accel > 0.0 && v >= 0.0 && c > 0.0 && e >= 0.0
  {
    var (accelD, cruiseD, decelD) := Distances(p, accel, moveD);
    (RampDuration(accelD, v, c), Settle(cruiseD / c), RampDuration(decelD, e, c))
  }

  lemma QuotientIsPositive(a: real, b: real)
    requires a >= 0.0 && b > 0.0
    ensures a / b >= 0.0 && (a / b) * b == a
  {
  }

  lemma Cancel(a: real, b: real, f: real)
    requires f > 0.0 && a * f == b * f
    ensures a == b
  {
    assert (a - b) * f == 0.0;
  }

  /** Between two speeds at a constant acceleration: the time the distance takes is the one the speeds need. */
  lemma RampTime(v: real, c: real, accel: real, d: real)
    requires v >= 0.0 && c > 0.0 && accel > 0.0 && d == (c * c - v * v) * (0.5 / accel)
    ensures v + accel * (d / ((v + c) * 0.5)) == c
  {
    var h, avg := 0.5 / accel, (v + c) * 0.5;
    var t := d / avg;
    assert accel * h == 0.5;
    assert accel * d == (c * c - v * v) * (accel * h);
    assert (c - v) * (v + c) == c * c - v * v;
    assert accel * d == (c - v) * avg;
    assert t * avg == d;
    assert (accel * t) * avg == accel * (t * avg);
    Cancel(accel * t, c - v, avg);
  }

  /**
   A feasible profile takes non-negative durations; unless they are dropped, the speed changes by the
   acceleration over time, and the cruise covers its distance.
   */
  lemma DurationsFit(m: Limits, p: Profile, accel: real, moveD: real, v: real, c: real, e: real)
    requires accel > 0.0 && m.delta == 2.0 * moveD * accel && Feasible(m, p)
    requires v >= 0.0 && c > 0.0 && e >= 0.0 && v * v == p.start && c * c == p.cruise && e * e == p.end
    ensures var (accelT, cruiseT, decelT) := Durations(p, accel, moveD, v, c, e);
            && accelT >= 0.0 && cruiseT >= 0.0 && decelT >= 0.0
            && (accelT > 0.0 ==> v + accel * accelT == c)
            && (decelT > 0.0 ==> c - accel * decelT == e)
            && (cruiseT > 0.0 ==> c * cruiseT == Distances(p, accel, moveD).1)
            && var (accelD, cruiseD, decelD) := Distances(p, accel, moveD);
               && (accelT == 0.0 ==> Brief(accelD, v, c)) && (cruiseT == 0.0 ==> Brief(cruiseD, c, c))
               && (decelT == 0.0 ==> Brief(decelD, e, c))
  {
    hide Feasible, RampDuration, Settle, Brief, Distances;
    DistancesFit(m, p, accel, moveD);
    RampDistances(p, accel, moveD, v, c, e);
    var (accelD, cruiseD, decelD) := Distances(p, accel, moveD);
    RampFits(v, c, accel, accelD);
    RampFits(e, c, accel, decelD);
    CruiseFits(c, cruiseD);
  }

  lemma RampDistances(p: Profile, accel: real, moveD: real, v: real, c: real, e: real)
    requires accel > 0.0 && v * v == p.start && c * c == p.cruise && e * e == p.end
    ensures var (accelD, _, decelD) := Distances(p, accel, moveD);
            accelD == (c * c - v * v) * (0.5 / accel) && decelD == (c * c - e * e) * (0.5 / accel)
  {
  }

  lemma RampFits(v: real, c: real, accel: real, d: real)
    requires v >= 0.0 && c > 0.0 && accel > 0.0 && d >= 0.0 && d == (c * c - v * v) * (0.5 / accel)
    ensures var t := RampDuration(d, v, c);
            t >= 0.0 && (t > 0.0 ==> v + accel * t == c) && (t == 0.0 ==> Brief(d, v, c))
  {
    QuotientIsPositive(d, (v + c) * 0.5);
    ShortQuotient(d, (v + c) * 0.5);
    RampTime(v, c, accel, d);
  }

  lemma ShortQuotient(a: real, b: real)
    requires a >= 0.0 && b > 0.0
    ensures a / b < 0.000000001 ==> a < 0.000000001 * b
  {
    var q := a / b;
    assert q * b == a;
    if q < 0.000000001 {
      assert (0.000000001 - q) * b > 0.0;
    }
  }

  lemma CruiseFits(c: real, d: real)
    requires c > 0.0 && d >= 0.0
    ensures var t := Settle(d / c); t >= 0.0 && (t > 0.0 ==> c * t == d) && (t == 0.0 ==> Brief(d, c, c))
  {
    QuotientIsPositive(d, c);
    ShortQuotient(d, c);
  }

  // ---------------------------------------------------------------- smoothing

  /** The squared speed that the smoothed acceleration can gain over some moves. */
  ghost function SmoothGain(ms: seq<Limits>): real {
    if ms == [] then 0.0 else SmoothGain(ms[..|ms| - 1]) + ms[|ms| - 1].smoothDelta
  }

  lemma {:induction false} GainSplits(ms: seq<Limits>, i: nat)
    requires i <= |ms|
    ensures SmoothGain(ms) == SmoothGain(ms[..i]) + SmoothGain(ms[i..])
    decreases |ms|
  {
    var n := |ms| - 1;
    if i == |ms| {
      assert ms[..i] == ms;
    } else {
      GainSplits(ms[..n], i);
      assert ms[..n][..i] == ms[..i] && ms[..n][i..] == ms[i..][..n - i] && ms[i..][n - i] == ms[n];
    }
  }

  lemma GainOfHead(q: seq<Limits>)
    requires q != []
    ensures SmoothGain(q) == q[0].smoothDelta + SmoothGain(q[1..])
  {
    GainSplits(q, 1);
    assert q[..1][..0] == [];
  }

  lemma {:induction false} RiseIsGained(ms: seq<Limits>, i: nat)
    requires Batch(ms) && i < |ms|
    ensures ms[i].maxSmoothed <= SmoothGain(ms[..i])
    decreases i
  {
    if i > 0 {
      RiseIsGained(ms, i - 1);
      assert JoinedAt(ms, i) && ms[..i][..i - 1] == ms[..i - 1];
    }
  }

  lemma {:induction false} FallIsGained(q: seq<Limits>)
    ensures Smoothed(q) <= SmoothGain(q)
    decreases |q|
  {
    if q != [] {
      FallIsGained(q[1..]);
      GainOfHead(q);
    }
  }

  lemma {:induction false} PeakIsGained(ms: seq<Limits>, i: nat)
    requires Batch(ms) && i <= |ms|
    ensures 2.0 * Peak(ms[i..]) <= SmoothGain(ms)
    decreases |ms| - i
  {
    var q := ms[i..];
    if i == |ms| {
      GainIsPositive(ms);
    } else {
      assert q[1..] == ms[i + 1..];
      PeakIsGained(ms, i + 1);
      RiseIsGained(ms, i);
      FallIsGained(q[1..]);
      GainSplits(ms, i);
      GainOfHead(q);
    }
  }

  lemma {:induction false} GainIsPositive(ms: seq<Limits>)
    requires Linked(ms)
    ensures SmoothGain(ms) >= 0.0
    decreases |ms|
  {
    var n := |ms| - 1;
    if ms != [] {
      forall i | 0 < i < n
        ensures JoinedAt(ms[..n], i)
      {
        assert JoinedAt(ms, i);
      }
      GainIsPositive(ms[..n]);
      assert Sane(ms[n]);
    }
  }

  lemma {:induction false} PlanIsGained(ms: seq<Limits>, i: nat, ceiling: real, k: nat)
    requires Batch(ms) && i + k < |ms| && 2.0 * ceiling <= SmoothGain(ms)
    ensures 2.0 * Plan(ms[i..], ceiling)[k].cruise <= SmoothGain(ms)
    decreases k
  {
    hide SmoothGain;
    var q := ms[i..];
    PeakIsGained(ms, i);
    assert q[1..] == ms[i + 1..];
    if k > 0 {
      PlanIsGained(ms, i + 1, if Limited(q) then Peak(q) else Min(ceiling, Start(q)), k - 1);
    }
  }

  /**
   Smoothing: no move of a batch cruises faster than the smoothed acceleration allows when it gains speed
   over the whole way there and loses it over the whole way back to standstill.
   */
  lemma CruiseIsSmooth(ms: seq<Limits>, i: nat)
    requires Batch(ms) && i < |ms|
    ensures 2.0 * BatchPlan(ms)[i].cruise <= SmoothGain(ms)
  {
    GainIsPositive(ms);
    assert ms[0..] == ms;
    PlanIsGained(ms, 0, 0.0, i);
  }

  // ---------------------------------------------------------------- lazy flushes

  /** b moves may be handed over: move b is a peak, and a limited move is queued behind it. */
  ghost predicate Settled(ms: seq<Limits>, b: nat) {
    b > 0 ==> b < |ms| && IsPeak(ms[b..]) && exists k :: b < k < |ms| && Limited(ms[k..])
  }

  lemma TailOfAppend(q: seq<Limits>, m: Limits)
    requires q != []
    ensures (q + [m])[1..] == q[1..] + [m] && (q + [m])[0] == q[0]
  {
  }

  lemma {:induction false} AppendRaises(q: seq<Limits>, m: Limits)
    requires Linked(q + [m])
    ensures Smoothed(q) <= Smoothed(q + [m])
    ensures q != [] && Limited(q) ==> Limited(q + [m])
  {
    Bounds(q + [m]);
    if q != [] {
      TailOfAppend(q, m);
      LinkedTail(q + [m]);
      AppendRaises(q[1..], m);
    }
  }

  /** Appending a move leaves the smoothed speeds up to any limited move as they are. */
  lemma {:induction false} SmoothedSettles(q: seq<Limits>, m: Limits, k: nat)
    requires Linked(q + [m]) && k < |q| && Limited(q[k..])
    ensures Smoothed(q + [m]) == Smoothed(q)
    ensures Delayed(q + [m]) == Delayed(q)
  {
    TailOfAppend(q, m);
    LinkedTail(q + [m]);
    if k == 0 {
      assert q[0..] == q;
      AppendRaises(q, m);
    } else {
      assert q[k..] == q[1..][k - 1..];
      SmoothedSettles(q[1..], m, k - 1);
    }
  }

  lemma LinkedPrefix(q: seq<Limits>, m: Limits)
    requires Linked(q + [m])
    ensures Linked(q)
  {
    LinkedTake(q + [m], |q|);
    assert (q + [m])[..|q|] == q;
  }

  lemma {:induction false} StartSettles(q: seq<Limits>, m: Limits, k: nat)
    requires Linked(q + [m]) && 0 < k < |q| && Limited(q[k..])
    requires Delayed(q) || IsPeak(q)
    ensures Start((q + [m])[1..]) == Start(q[1..])
  {
    LinkedPrefix(q, m);
    TailOfAppend(q, m);
    LinkedTail(q + [m]);
    SmoothedSettles(q, m, k);
    assert q[k..] == q[1..][k - 1..];
    SmoothedSettles(q[1..], m, k - 1);
    if Limited(q[1..]) {
      BehindPeakIsJunctionBound(q);
      BehindPeakIsJunctionBound(q + [m]);
    } else {
      assert k > 1;
      TailOfAppend(q[1..], m);
      StartSettles(q[1..], m, k - 1);
    }
  }

  /** Everything the moves in front of q can see of it. */
  ghost predicate SameView(q: seq<Limits>, r: seq<Limits>) {
    && Smoothed(q) == Smoothed(r)
    && Start(q) == Start(r)
    && Delayed(q) == Delayed(r)
    && Peak(q) == Peak(r)
  }

  lemma PeakSettles(q: seq<Limits>, m: Limits, k: nat)
    requires Linked(q + [m]) && 0 < k < |q| && IsPeak(q) && Limited(q[k..])
    ensures SameView(q + [m], q) && IsPeak(q + [m])
  {
    TailOfAppend(q, m);
    LinkedTail(q + [m]);
    assert q[k..] == q[1..][k - 1..];
    SmoothedSettles(q, m, k);
    SmoothedSettles(q[1..], m, k - 1);
    StartSettles(q, m, k);
  }

  lemma SameViewStep(q: seq<Limits>, r: seq<Limits>, ceiling: real)
    requires q != [] && r != [] && q[0] == r[0] && SameView(q[1..], r[1..])
    ensures SameView(q, r)
    ensures NextCeiling(q, ceiling) == NextCeiling(r, ceiling)
  {
  }

  lemma SameHead(q: seq<Limits>, r: seq<Limits>, ceiling: real)
    requires q != [] && r != [] && q[0] == r[0] && SameView(q, r) && SameView(q[1..], r[1..])
    ensures Plan(q, ceiling)[0] == Plan(r, ceiling)[0]
  {
    if Limited(q) {
      assert LimitedProfile(q) == LimitedProfile(r);
    }
  }

  lemma {:induction false} PrefixSettles(q: seq<Limits>, m: Limits, b: nat, ceiling: real)
    requires b < |q| && SameView((q + [m])[b..], q[b..])
    ensures SameView(q + [m], q)
    ensures Plan(q + [m], ceiling)[..b] == Plan(q, ceiling)[..b]
  {
    if b == 0 {
      assert (q + [m])[0..] == q + [m] && q[0..] == q;
    } else {
      TailOfAppend(q, m);
      assert (q + [m])[b..] == (q[1..] + [m])[b - 1..] && q[b..] == q[1..][b - 1..];
      PrefixSettles(q[1..], m, b - 1, NextCeiling(q, ceiling));
      SameViewStep(q + [m], q, ceiling);
      SameHead(q + [m], q, ceiling);
      PlanUnfolds(q, ceiling, b);
      PlanUnfolds(q + [m], ceiling, b);
    }
  }

  /** The run invariant: what has been handed over stays final when another move is queued. */
  lemma SettledStays(ms: seq<Limits>, m: Limits, b: nat)
    requires Linked(ms + [m]) && Settled(ms, b)
    ensures Settled(ms + [m], b)
    ensures BatchPlan(ms + [m])[..b] == BatchPlan(ms)[..b]
  {
    if b > 0 {
      var k :| b < k < |ms| && Limited(ms[k..]);
      var q := ms[b..];
      assert (ms + [m])[b..] == q + [m] && (ms + [m])[k..] == ms[k..] + [m];
      LinkedSuffix(ms + [m], b);
      LinkedSuffix(ms + [m], k);
      assert q[k - b..] == ms[k..];
      PeakSettles(q, m, k - b);
      AppendRaises(ms[k..], m);
      assert Limited((ms + [m])[k..]);
      PrefixSettles(ms, m, b, 0.0);
    }
  }

  lemma LinkedSuffix(ms: seq<Limits>, b: nat)
    requires Linked(ms) && b <= |ms|
    ensures Linked(ms[b..])
  {
    forall i | 0 < i < |ms[b..]|
      ensures JoinedAt(ms[b..], i)
    {
      assert JoinedAt(ms, b + i);
    }
  }

  /** A lazy flush only hands over settled moves. */
  lemma {:induction false} LazyPointSettled(q: seq<Limits>)
    requires Linked(q) && LazyPoint(q) >= 0
    ensures IsPeak(q[LazyPoint(q)..])
    ensures exists k :: LazyPoint(q) < k < |q| && Limited(q[k..])
  {
    LinkedTail(q);
    var p := LazyPoint(q[1..]);
    if p >= 0 {
      LazyPointSettled(q[1..]);
      var k :| p < k < |q[1..]| && Limited(q[1..][k..]);
      assert q[k + 1..] == q[1..][k..] && q[p + 1..] == q[1..][p..];
    } else {
      assert q[0..] == q;
      PeakZero(q[1..]);
      var k :| 0 <= k < |q[1..]| && IsPeak(q[1..][k..]);
      assert q[k + 1..] == q[1..][k..];
    }
  }

  lemma SettledFurther(ms: seq<Limits>, b: nat)
    requires Linked(ms) && b <= |ms| && LazyPoint(ms[b..]) > 0
    ensures Settled(ms, b + LazyPoint(ms[b..]))
  {
    LinkedSuffix(ms, b);
    var q := ms[b..];
    LazyPointSettled(q);
    var p := LazyPoint(q);
    var k :| p < k < |q| && Limited(q[k..]);
    assert ms[b + k..] == q[k..] && ms[b + p..] == q[p..];
  }

  /** A limited move starts a fresh plan: nothing before it matters. */
  lemma {:induction false} PlanSplits(q: seq<Limits>, ceiling: real, b: nat)
    requires b <= |q| && !Delayed(q[b..])
    ensures Plan(q, ceiling)[b..] == BatchPlan(q[b..])
  {
    if b == 0 {
      assert q[0..] == q;
      if q != [] {
        assert Plan(q, ceiling) == Plan(q, 0.0);
      }
    } else {
      assert q[b..] == q[1..][b - 1..];
      PlanSplits(q[1..], NextCeiling(q, ceiling), b - 1);
      PlanUnfolds(q, ceiling, b);
      assert Plan(q, ceiling)[b..] == Plan(q, ceiling)[1..][b - 1..];
    }
  }

  /**
   Streaming equals batch.  Hand over `b` settled moves now, keep the rest, queue any further
   moves, and plan what is left from scratch: the result is the plan of the whole batch.
   */
  lemma {:induction false} StreamingEqualsBatch(ms: seq<Limits>, more: seq<Limits>, b: nat)
    requires Batch(ms + more) && Settled(ms, b)
    ensures b <= |ms|
    ensures BatchPlan(ms + more) == BatchPlan(ms)[..b] + BatchPlan((ms + more)[b..])
    decreases |more|
  {
    if more == [] {
      assert ms + more == ms;
      if b == 0 && ms != [] {
        HeadIsLimited(ms);
      }
      assert ms[0..] == ms;
      PlanSplits(ms, 0.0, b);
      assert BatchPlan(ms) == BatchPlan(ms)[..b] + BatchPlan(ms)[b..];
    } else {
      var ms' := ms + [more[0]];
      assert ms' + more[1..] == ms + more;
      LinkedTake(ms + more, |ms'|);
      assert (ms + more)[..|ms'|] == ms';
      SettledStays(ms, more[0], b);
      StreamingEqualsBatch(ms', more[1..], b);
    }
  }

  lemma LinkedTake(ms: seq<Limits>, n: nat)
    requires Linked(ms) && n <= |ms|
    ensures Linked(ms[..n])
  {
    forall i | 0 < i < n
      ensures JoinedAt(ms[..n], i)
    {
      assert JoinedAt(ms, i);
    }
  }

  // ---------------------------------------------------------------- index by index

  /** The backward values at one index, and the ceiling that reaches it from the front. */
  datatype View = View(smoothed: real, start: real, delayed: bool, peak: real, lazy: int, ceiling: real)

  /** How the view of a move follows from the view of the move behind it. */
  ghost predicate ViewStep(m: Limits, v: View, w: View) {
    var reach := w.smoothed + m.smoothDelta;
    && v.smoothed == Min(m.maxSmoothed, reach)
    && v.start == Min(m.maxStart, w.start + m.delta)
    && v.delayed == (m.maxSmoothed >= reach)
    && var isPeak := !v.delayed && (v.smoothed + m.smoothDelta > w.smoothed || w.delayed);
    && v.peak == (if isPeak then Min(m.maxCruise, (v.smoothed + reach) * 0.5) else w.peak)
    && v.lazy == (if w.lazy >= 0 then w.lazy + 1 else if isPeak && w.peak != 0.0 then 0 else -1)
    && w.ceiling == if v.delayed then Min(v.ceiling, v.start) else v.peak
  }

  function ViewProfile(m: Limits, v: View, w: View): Profile {
    var c := if v.delayed then w.ceiling
             else Min(Min((v.start + w.start + m.delta) * 0.5, m.maxCruise), v.peak);
    Profile(Min(v.start, c), c, Min(w.start, c))
  }

  ghost predicate ViewStepAt(q: seq<Limits>, vs: seq<View>, i: nat)
    requires i < |q| && i + 1 < |vs|
  {
    ViewStep(q[i], vs[i], vs[i + 1])
  }

  function ProfileAt(q: seq<Limits>, vs: seq<View>, i: nat): Profile
    requires i < |q| && i + 1 < |vs|
  {
    ViewProfile(q[i], vs[i], vs[i + 1])
  }

  /** Views of every suffix of q, and the plan read off them index by index. */
  ghost predicate Views(q: seq<Limits>, vs: seq<View>) {
    && |vs| == |q| + 1
    && vs[|q|].smoothed == 0.0 && vs[|q|].start == 0.0 && !vs[|q|].delayed
    && vs[|q|].peak == 0.0 && vs[|q|].lazy == -1
    && forall i :: 0 <= i < |q| ==> ViewStepAt(q, vs, i)
  }

  lemma {:induction false} PlanByViews(q: seq<Limits>, ceiling: real) returns (vs: seq<View>)
    ensures Views(q, vs)
    ensures vs[0] == View(Smoothed(q), Start(q), Delayed(q), Peak(q), LazyPoint(q), ceiling)
    ensures forall i :: 0 <= i < |q| ==> Plan(q, ceiling)[i] == ProfileAt(q, vs, i)
  {
    var v := View(Smoothed(q), Start(q), Delayed(q), Peak(q), LazyPoint(q), ceiling);
    if q == [] {
      vs := [v];
    } else {
      var next := NextCeiling(q, ceiling);
      var ws := PlanByViews(q[1..], next);
      vs := [v] + ws;
      PlanUnfolds(q, ceiling, 1);
      HeadByViews(q, ceiling, v, ws[0]);
      forall i | 0 < i < |q|
        ensures ViewStepAt(q, vs, i)
        ensures Plan(q, ceiling)[i] == ProfileAt(q, vs, i)
      {
        assert vs[i] == ws[i - 1] && vs[i + 1] == ws[i] && q[i] == q[1..][i - 1];
        assert ViewStepAt(q[1..], ws, i - 1);
        assert Plan(q, ceiling)[i] == Plan(q, ceiling)[1..][i - 1];
      }
      assert vs[|q|] == ws[|q| - 1];
    }
  }

  lemma HeadByViews(q: seq<Limits>, ceiling: real, v: View, w: View)
    requires q != []
    requires v == View(Smoothed(q), Start(q), Delayed(q), Peak(q), LazyPoint(q), ceiling)
    requires var t := q[1..];
             w == View(Smoothed(t), Start(t), Delayed(t), Peak(t), LazyPoint(t), NextCeiling(q, ceiling))
    ensures ViewStep(q[0], v, w) && Plan(q, ceiling)[0] == ViewProfile(q[0], v, w)
  {
  }
}
