/**
 The timer scheduler of the micro-controller: a linked list in the order of 32-bit wake times, with a
 periodic timer always pending, a sentinel always last, and a placeholder for deleted heads.
 */
module Scheduler {
  import opened Ticks
  import opened TimerList

  // ---------------------------------------------------------------- the list as a value

  /** The timers, their true times, and where the periodic timer is. */
  datatype Pending = Pending(ns: seq<Timer>, ts: seq<int>, p: nat)

  ghost predicate Shaped(s: Pending) {
    |s.ns| == |s.ts| > 0
  }

  /** A timer at its slot, or behind the placeholder in front of everything. */
  ghost function Added(s: Pending, x: Timer, w: int, o: Own): (r: Pending)
    requires Shaped(s)
    ensures Shaped(r)
  {
    if w < s.ts[0] then
      var hole := s.ns[0] == o.deleted && s.p > 0;
      var live := if hole then Pending(s.ns[1..], s.ts[1..], s.p - 1) else s;
      Pending([o.deleted] + ([x] + live.ns), [w] + ([w] + live.ts), live.p + 2)
    else
      var k := Slot(s.ts, w);
      Pending(Insert(s.ns, k, x), Insert(s.ts, k, w), if s.p < k then s.p else s.p + 1)
  }

  ghost function IndexOf(ns: seq<Timer>, y: Timer): (k: nat)
    requires y in ns
    ensures k < |ns| && ns[k] == y
  {
    var k :| 0 <= k < |ns| && ns[k] == y; k
  }

  /** The list without a timer; one at the front leaves the placeholder behind. */
  ghost function Removed(s: Pending, y: Timer, o: Own): (r: Pending)
    requires Shaped(s)
    ensures Shaped(r)
  {
    if y !in s.ns then s
    else if s.ns[0] == y then s.(ns := [o.deleted] + s.ns[1..])
    else
      var k := IndexOf(s.ns, y);
      Pending(Remove(s.ns, k), Remove(s.ts, k), if s.p < k || s.p == 0 then s.p else s.p - 1)
  }

  /** A timer that would be first and is late already stops the machine, unless that has happened. */
  predicate Refused(first: int, w: int, now: int, stops: bool) {
    stops && w < now && w < first
  }

  /** The firmware can compare a new time with the clock and with all pending times. */
  ghost predicate Near(s: Pending, w: int, now: int)
    requires Shaped(s)
  {
    -HALF <= w - now < HALF && s.ts[0] - HALF <= w < s.ts[0] + HALF && Within(s.ts, w)
  }

  ghost function ResetState(s: Pending, o: Own): (r: Pending)
    requires s.p < |s.ts|
  {
    var t := s.ts[s.p];
    Pending([o.deleted, o.periodic, o.sentinel], [t, t, t + HALF], 1)
  }

  /** The periodic timer, at the front, one period later. */
  ghost function AfterPeriodic(s: Pending, period: int): (r: Pending)
    requires Shaped(s)
  {
    if |s.ts| == 1 then s else
    var w := s.ts[0] + period;
    var rs := BehindPeriodic(s.ts, w);
    if w < rs[0] then Pending(s.ns, [w] + rs, 0)
    else var k := Slot(rs, w); Pending(Insert(s.ns[1..], k, s.ns[0]), Insert(rs, k, w), k)
  }

  // ---------------------------------------------------------------- what a callback does to the list

  /** What a callback may do while its timer is being dispatched. */
  datatype Call = CallAdd(x: Timer, w: int, now: int, stops: bool) | CallDelete(y: Timer)

  /** What it returns: finished, or to run again at a given time. */
  datatype Outcome = Done | Again(w: int)

  /**
   The list during the callback of a timer: `c` is the index of the node that timer links to, and
   `added` are the timers added by the callback.
   */
  datatype Busy = Busy(s: Pending, c: nat, added: set<Timer>, stopped: bool)

  ghost predicate Sound(b: Busy) {
    Shaped(b.s) && 0 < b.c < |b.s.ns|
  }

  /** The running timer is still in the list. */
  ghost predicate Linked(b: Busy, t: Timer)
    requires Sound(b)
  {
    b.s.ns[b.c - 1] == t
  }

  /**
   A callback adds timers other than its own, and once it has deleted its own it does not delete
   the one behind.
   */
  ghost predicate CallAllowed(b: Busy, t: Timer, call: Call, o: Own) {
    && Sound(b) && b.c < |b.s.ns| - 1
    && match call
       case CallAdd(x, w, now, stops) => x !in b.s.ns && x != t && x !in o.All() && Near(b.s, w, now)
       case CallDelete(y) => y !in o.All() && (Linked(b, t) || b.s.ns[b.c] != y)
  }

  /** Where the running timer links to after an addition. */
  ghost function CutAfterAdd(b: Busy, t: Timer, w: int, o: Own): (c: nat)
    requires Sound(b)
    ensures 0 < c < |Added(b.s, t, w, o).ns|
  {
    if w < b.s.ts[0] then if b.s.ns[0] == o.deleted && b.s.p > 0 then b.c + 1 else b.c + 2
    else
      var k := Slot(b.s.ts, w);
      if k < b.c || (k == b.c && !Linked(b, t)) then b.c + 1 else b.c
  }

  ghost function AfterCall(b: Busy, t: Timer, call: Call, o: Own): (r: Busy)
    requires CallAllowed(b, t, call, o)
    ensures Sound(r)
  {
    match call
    case CallAdd(x, w, now, stops) =>
      if Refused(b.s.ts[0], w, now, stops) then b.(stopped := true)
      else Busy(Added(b.s, x, w, o), CutAfterAdd(b, t, w, o), b.added + {x}, false)
    case CallDelete(y) =>
      if y !in b.s.ns then b
      else
        b.(s := Removed(b.s, y, o), c := if 0 < IndexOf(b.s.ns, y) < b.c then b.c - 1 else b.c)
  }

  ghost predicate CallsAllowed(b: Busy, t: Timer, calls: seq<Call>, o: Own)
    decreases |calls|
  {
    calls == [] || b.stopped ||
    (CallAllowed(b, t, calls[0], o) && CallsAllowed(AfterCall(b, t, calls[0], o), t, calls[1..], o))
  }

  ghost function AfterCalls(b: Busy, t: Timer, calls: seq<Call>, o: Own): (r: Busy)
    requires Sound(b) && CallsAllowed(b, t, calls, o)
    ensures Sound(r)
    decreases |calls|
  {
    if calls == [] || b.stopped then b
    else AfterCalls(AfterCall(b, t, calls[0], o), t, calls[1..], o)
  }

  /** The dispatch goes on behind the running timer. */
  ghost predicate Cut(b: Busy, res: Outcome)
    requires Sound(b)
  {
    res.Done? || res.w >= b.s.ts[b.c]
  }

  /** What is left when the callback has returned. */
  ghost function Concluded(b: Busy, t: Timer, res: Outcome): (r: Pending)
    requires Sound(b)
  {
    var rest, rs, q := b.s.ns[b.c..], b.s.ts[b.c..], if b.s.p < b.c then 0 else b.s.p - b.c;
    if res.Done? then Pending(rest, rs, q)
    else if Cut(b, res) then
      var k := Slot(rs, res.w);
      Pending(Insert(rest, k, t), Insert(rs, k, res.w), if q < k then q else q + 1)
    else if Linked(b, t) then b.s.(ts := b.s.ts[b.c - 1 := res.w])
    else b.s
  }

  /** A node in front of the one that t links to: t, the placeholder, or an added timer due before that node. */
  ghost predicate InFront(b: Busy, i: nat, t: Timer, due: int, o: Own)
    requires Sound(b) && i < b.c
  {
    && (b.s.ns[i] == t || b.s.ns[i] == o.deleted || (b.s.ns[i] in b.added && b.s.ts[i] < b.s.ts[b.c]))
    && (Linked(b, t) && i < b.c - 1 ==> b.s.ts[i] < due)
  }

  /** What holds throughout the callback of t, which was due at `due`. */
  ghost predicate Front(b: Busy, t: Timer, due: int, o: Own) {
    && Sound(b) && b.c <= b.s.p < |b.s.ns| - 1
    && (b.s.ns[0] == t || b.s.ns[0] == o.deleted)
    && (if Linked(b, t) then b.s.ts[b.c - 1] == due else t !in b.s.ns)
    && b.s.ts[0] <= due <= b.s.ts[b.c]
    && forall i :: 0 <= i < b.c ==> InFront(b, i, t, due, o)
  }

  /** A list seen through a shift of its indices by d from k on. */
  ghost predicate Shifted(r: Pending, s: Pending, k: nat, d: int) {
    && Shaped(r) && Shaped(s) && |r.ns| == |s.ns| + d
    && forall i {:trigger r.ns[i]} {:trigger r.ts[i]} :: k <= i < |r.ns| && 0 <= i - d < |s.ns| ==>
         r.ns[i] == s.ns[i - d] && r.ts[i] == s.ts[i - d]
  }

  lemma AddFirstShifts(s: Pending, x: Timer, w: int, o: Own)
    requires Shaped(s) && w < s.ts[0]
    ensures var r, d := Added(s, x, w, o), if s.ns[0] == o.deleted && s.p > 0 then 1 else 2;
            r.ns[..2] == [o.deleted, x] && r.ts[..2] == [w, w] && r.p == s.p + d && Shifted(r, s, 2, d)
  {
  }

  lemma FrontAddFirst(b: Busy, t: Timer, due: int, o: Own, x: Timer, w: int)
    requires Front(b, t, due, o) && Sorted(b.s.ts) && w < b.s.ts[0] && x != t && t != o.deleted
    ensures Front(Busy(Added(b.s, x, w, o), CutAfterAdd(b, t, w, o), b.added + {x}, false), t, due, o)
    ensures var ns, c := Added(b.s, x, w, o).ns, CutAfterAdd(b, t, w, o);
            (ns[c - 1] == t <==> Linked(b, t)) && (!Linked(b, t) ==> ns[c] == b.s.ns[b.c])
  {
    hide Added, Slot, Insert;
    var s, c := b.s, b.c;
    var r := Busy(Added(s, x, w, o), CutAfterAdd(b, t, w, o), b.added + {x}, false);
    AddFirstShifts(s, x, w, o);
    var d := r.c - c;
    assert r.s.ns[0] == r.s.ns[..2][0] && r.s.ns[1] == r.s.ns[..2][1];
    assert r.s.ts[0] == r.s.ts[..2][0] && r.s.ts[1] == r.s.ts[..2][1];
    assert s.ts[0] <= s.ts[c] && s.ts[0] <= s.ts[c - 1];
    assert r.s.ts[r.c] == s.ts[c];
    assert r.s.ns[r.c - 1] == t <==> s.ns[c - 1] == t by {
      assert r.c - 1 >= 2 ==> r.s.ns[r.c - 1] == s.ns[c - 1];
    }
    forall i | 0 <= i < r.c
      ensures InFront(r, i, t, due, o)
    {
      if i >= 2 {
        assert r.s.ns[i] == s.ns[i - d] && InFront(b, i - d, t, due, o);
      }
    }
  }

  lemma FrontInsert(b: Busy, t: Timer, due: int, o: Own, x: Timer, w: int)
    requires Front(b, t, due, o) && Sorted(b.s.ts) && x != t && w >= b.s.ts[0]
    requires 0 < Slot(b.s.ts, w) < |b.s.ts|
    ensures Front(Busy(Added(b.s, x, w, o), CutAfterAdd(b, t, w, o), b.added + {x}, false), t, due, o)
    ensures var ns, c := Added(b.s, x, w, o).ns, CutAfterAdd(b, t, w, o);
            (ns[c - 1] == t <==> Linked(b, t)) && (!Linked(b, t) ==> ns[c] == b.s.ns[b.c])
  {
    hide Slot, Insert;
    var s, c, k := b.s, b.c, Slot(b.s.ts, w);
    var r := Busy(Added(s, x, w, o), CutAfterAdd(b, t, w, o), b.added + {x}, false);
    assert r.s.ns == Insert(s.ns, k, x) && r.s.ts == Insert(s.ts, k, w);
    assert s.ts[k - 1] <= w < s.ts[k];
    hide Added, CutAfterAdd;
    if r.c == c + 1 {
      assert k <= c && r.s.ts[r.c] == s.ts[c] && w < s.ts[c] by {
        assert s.ts[k] <= s.ts[c];
      }
      assert k < c ==> r.s.ns[c] == s.ns[c - 1] && r.s.ts[c] == s.ts[c - 1] && s.ts[k] <= s.ts[c - 1];
    } else {
      assert r.s.ns[c - 1] == s.ns[c - 1] && r.s.ts[c - 1] == s.ts[c - 1];
      assert due <= r.s.ts[c] && s.ts[c - 1] <= r.s.ts[c];
    }
    forall i | 0 <= i < r.c
      ensures InFront(r, i, t, due, o)
    {
      if i != k {
        StaysInFront(b, r, i, if i < k then i else i - 1, t, due, o);
      }
    }
    assert !Linked(b, t) ==> t !in r.s.ns;
  }

  /** A node that was in front before stays in front, whatever comes to be linked behind t. */
  lemma StaysInFront(b: Busy, r: Busy, i: nat, j: nat, t: Timer, due: int, o: Own)
    requires Front(b, t, due, o) && Sorted(b.s.ts) && Sound(r) && i < r.c && j < |b.s.ns| && b.added <= r.added
    requires r.s.ns[i] == b.s.ns[j] && r.s.ts[i] == b.s.ts[j]
    requires j < b.c && (Linked(r, t) ==> Linked(b, t) && (i < r.c - 1 ==> j < b.c - 1))
    requires b.s.ts[b.c] <= r.s.ts[r.c] || (Linked(b, t) && due <= r.s.ts[r.c])
    ensures InFront(r, i, t, due, o)
  {
    assert InFront(b, j, t, due, o);
  }

  lemma FrontDelete(b: Busy, t: Timer, due: int, o: Own, y: Timer)
    requires Front(b, t, due, o) && Sorted(b.s.ts) && Distinct(b.s.ns) && t != o.deleted
    requires CallAllowed(b, t, CallDelete(y), o) && y in b.s.ns && b.s.ns[b.s.p] == o.periodic
    requires b.s.ns[|b.s.ns| - 1] == o.sentinel
    ensures Front(AfterCall(b, t, CallDelete(y), o), t, due, o)
    ensures var r := AfterCall(b, t, CallDelete(y), o);
            !Linked(r, t) ==> r.s.ns[r.c] == b.s.ns[b.c] && (Linked(b, t) ==> y == t)
  {
    if b.s.ns[0] == y {
      FrontDeleteFirst(b, t, due, o, y);
    } else {
      FrontDeleteLater(b, t, due, o, y);
    }
  }

  lemma FrontDeleteFirst(b: Busy, t: Timer, due: int, o: Own, y: Timer)
    requires Front(b, t, due, o) && Distinct(b.s.ns) && t != o.deleted
    requires CallAllowed(b, t, CallDelete(y), o) && b.s.ns[0] == y
    ensures Front(AfterCall(b, t, CallDelete(y), o), t, due, o)
    ensures var r := AfterCall(b, t, CallDelete(y), o);
            !Linked(r, t) ==> r.s.ns[r.c] == b.s.ns[b.c] && (Linked(b, t) ==> y == t)
  {
    var s := b.s;
    assert IndexOf(s.ns, y) == 0 && y == t && Linked(b, t) && b.c == 1;
    var r := AfterCall(b, t, CallDelete(y), o);
    assert forall i :: 0 < i < |s.ns| ==> r.s.ns[i] == s.ns[i];
    assert t !in r.s.ns && InFront(r, 0, t, due, o);
  }

  lemma FrontDeleteLater(b: Busy, t: Timer, due: int, o: Own, y: Timer)
    requires Front(b, t, due, o) && Sorted(b.s.ts) && Distinct(b.s.ns)
    requires CallAllowed(b, t, CallDelete(y), o) && y in b.s.ns[1..] && b.s.ns[b.s.p] == o.periodic
    requires b.s.ns[|b.s.ns| - 1] == o.sentinel && b.s.ns[0] != y
    ensures Front(AfterCall(b, t, CallDelete(y), o), t, due, o)
    ensures var r := AfterCall(b, t, CallDelete(y), o);
            !Linked(r, t) ==> r.s.ns[r.c] == b.s.ns[b.c] && (Linked(b, t) ==> y == t)
  {
    hide Remove;
    var s, c, k := b.s, b.c, IndexOf(b.s.ns, y);
    var r := AfterCall(b, t, CallDelete(y), o);
    assert r.s.ns == Remove(s.ns, k) && r.s.ts == Remove(s.ts, k);
    assert r.c == if k < c then c - 1 else c;
    assert r.s.ts[r.c] >= s.ts[c];
    assert k < c - 1 ==> r.s.ns[c - 2] == s.ns[c - 1];
    assert k == c - 1 ==> y == s.ns[c - 1] && y !in r.s.ns;
    forall i | 0 <= i < r.c
      ensures InFront(r, i, t, due, o)
    {
      StaysInFront(b, r, i, if i < k then i else i + 1, t, due, o);
    }
  }

  /**
   Which timers a dispatch loses: none if the list goes on in front of the running timer; otherwise exactly
   those due before the timer it links to, all of which its callback added.  While the running timer is still
   in the list, that is: those added for a time before it was due.
   */
  lemma LostIff(b: Busy, t: Timer, due: int, o: Own, res: Outcome, x: Timer)
    requires Front(b, t, due, o) && Sorted(b.s.ts) && Distinct(b.s.ns) && x in b.s.ns && x != t && x != o.deleted
    ensures var w := b.s.ts[IndexOf(b.s.ns, x)];
            && (x !in Concluded(b, t, res).ns <==> Cut(b, res) && w < b.s.ts[b.c])
            && (w < b.s.ts[b.c] ==> x in b.added)
            && (Linked(b, t) ==> (w < b.s.ts[b.c] <==> w < due))
  {
    hide Slot, Insert;
    var i := IndexOf(b.s.ns, x);
    var rest := b.s.ns[b.c..];
    if i < b.c {
      assert InFront(b, i, t, due, o);
      assert x !in rest;
    } else {
      assert b.s.ts[b.c] <= b.s.ts[i] && rest[i - b.c] == x;
    }
    if res.Again? && Cut(b, res) {
      InsertNodes(rest, Slot(b.s.ts[b.c..], res.w), t);
    }
  }

  /** The simplest loss: a callback adds a timer due before its own and then finishes. */
  lemma EarlyAddIsLost(s: Pending, t: Timer, call: Call, o: Own)
    requires call.CallAdd? && CallAllowed(Begin(s), t, call, o) && s.ns[0] == t != o.deleted
    requires call.w < s.ts[0] && !Refused(s.ts[0], call.w, call.now, call.stops)
    ensures call.x !in Concluded(AfterCall(Begin(s), t, call, o), t, Done).ns
  {
    var b := AfterCall(Begin(s), t, call, o);
    assert b.s.ns[b.c..] == s.ns[1..];
  }

  lemma RemovedBehind(s: Pending, y: Timer, c: nat, o: Own)
    requires Shaped(s) && Distinct(s.ns) && 0 < c < |s.ns| - 1 && s.ns[c] == y
    ensures var r := Removed(s, y, o); |r.ns| > c && r.ns[c..] == s.ns[c + 1..] && r.ts[c..] == s.ts[c + 1..]
    ensures s.ns[c..] == [y] + s.ns[c + 1..] && s.ts[c..] == [s.ts[c]] + s.ts[c + 1..]
  {
    assert IndexOf(s.ns, y) == c;
  }

  /** Otherwise nothing comes back: what a dispatch leaves was in the list when the callback returned. */
  lemma NothingComesBack(b: Busy, t: Timer, res: Outcome)
    requires Sound(b)
    ensures forall n :: n in Concluded(b, t, res).ns ==> n in b.s.ns || (n == t && res.Again?)
  {
    hide Slot, Insert;
    if res.Again? && Cut(b, res) {
      InsertNodes(b.s.ns[b.c..], Slot(b.s.ts[b.c..], res.w), t);
    }
  }

  lemma InsertNodes(ns: seq<Timer>, k: nat, t: Timer)
    requires k <= |ns|
    ensures forall n :: n in Insert(ns, k, t) <==> n in ns || n == t
  {
  }

  /** Nothing is left in front, and a timer that is to run again is still in the list. */
  ghost predicate Clean(b: Busy, t: Timer, res: Outcome) {
    Sound(b) && b.c == 1 && (res.Again? ==> Linked(b, t))
  }

  /** So it is when a callback adds no timer due before its own, and does not delete its own. */
  lemma {:induction false} LateCallsAreClean(b: Busy, t: Timer, calls: seq<Call>, res: Outcome, o: Own)
    requires Sound(b) && CallsAllowed(b, t, calls, o) && Clean(b, t, res) && b.s.ns[0] == t
    requires forall i :: 0 <= i < |calls| ==>
               if calls[i].CallAdd? then calls[i].w >= b.s.ts[0] else calls[i].y != t
    ensures Clean(AfterCalls(b, t, calls, o), t, res)
    decreases |calls|
  {
    hide Slot, Insert, Remove, IndexOf;
    if calls != [] && !b.stopped {
      var r := AfterCall(b, t, calls[0], o);
      assert r.c == 1 && r.s.ns[0] == t && r.s.ts[0] == b.s.ts[0];
      LateCallsAreClean(r, t, calls[1..], res, o);
    }
  }

  /**
   While the machine runs, a callback that is not clean stops it: an addition due before the running timer is
   late, since that timer was due already.
   */
  lemma {:induction false} EarlyCallsStop(b: Busy, t: Timer, calls: seq<Call>, res: Outcome, o: Own)
    requires Sound(b) && CallsAllowed(b, t, calls, o) && Clean(b, t, res) && b.s.ns[0] == t
    requires forall i :: 0 <= i < |calls| ==>
               if calls[i].CallAdd? then calls[i].w >= b.s.ts[0] || (calls[i].stops && b.s.ts[0] <= calls[i].now)
               else calls[i].y != t
    ensures var r := AfterCalls(b, t, calls, o); r.stopped || Clean(r, t, res)
    decreases |calls|
  {
    hide Slot, Insert, Remove, IndexOf;
    if calls != [] && !b.stopped {
      var r := AfterCall(b, t, calls[0], o);
      if !r.stopped {
        assert r.c == 1 && r.s.ns[0] == t && r.s.ts[0] == b.s.ts[0];
        EarlyCallsStop(r, t, calls[1..], res, o);
      }
    }
  }

  ghost function TallyCalls(users: set<Timer>, calls: seq<Call>): set<Timer>
    decreases |calls|
  {
    if calls == [] then users
    else TallyCalls(if calls[0].CallAdd? then users + {calls[0].x} else users - {calls[0].y}, calls[1..])
  }

  // ---------------------------------------------------------------- runs, as values

  /** What happens to the scheduler from outside; `Fire` names the timer at the front. */
  datatype Act =
    | AddAt(x: Timer, w: int, now: int, stops: bool)
    | DeleteAt(y: Timer)
    | Fire(t: Timer, calls: seq<Call>, res: Outcome)
    | FirePeriodic(period: int)
    | ResetAll

  ghost function Begin(s: Pending): Busy {
    Busy(s, 1, {}, false)
  }

  /**
   What the order of dispatches rests on: callbacks are clean, and while the machine runs timers are added
   after the last dispatch was due; the test of the clock does the rest.  Once it has been shut down that test
   is off, and the caller keeps to times no earlier than the last dispatch.
   */
  ghost predicate Allowed(s: Pending, last: int, a: Act, o: Own) {
    && Shaped(s)
    && match a
       case AddAt(x, w, now, stops) =>
         && x !in s.ns && x !in o.All() && Near(s, w, now)
         && (last <= w || (stops && last <= now))
       case DeleteAt(y) => y !in o.All()
       case Fire(t, calls, res) =>
         && |s.ns| > 1 && s.ns[0] == t && t != o.periodic && CallsAllowed(Begin(s), t, calls, o)
         && (t == o.deleted ==> calls == [] && res.Done?)
         && (res.Again? ==> s.ts[0] <= res.w < s.ts[0] + HALF)
         && var b := AfterCalls(Begin(s), t, calls, o); b.stopped || Clean(b, t, res)
       case FirePeriodic(period) => s.ns[0] == o.periodic && 0 < period < HALF
       case ResetAll => s.p < |s.ts|
  }

  /** The machine stops in the course of it. */
  ghost predicate Stops(s: Pending, last: int, a: Act, o: Own)
    requires Allowed(s, last, a, o)
  {
    match a
    case AddAt(_, w, now, stops) => Refused(s.ts[0], w, now, stops)
    case Fire(t, calls, _) => AfterCalls(Begin(s), t, calls, o).stopped
    case _ => false
  }

  ghost function After(s: Pending, last: int, a: Act, o: Own): Pending
    requires Allowed(s, last, a, o) && !Stops(s, last, a, o)
  {
    match a
    case AddAt(x, w, _, _) => Added(s, x, w, o)
    case DeleteAt(y) => Removed(s, y, o)
    case Fire(t, calls, res) => Concluded(AfterCalls(Begin(s), t, calls, o), t, res)
    case FirePeriodic(period) => AfterPeriodic(s, period)
    case ResetAll => ResetState(s, o)
  }

  predicate Fires(a: Act) {
    a.Fire? || a.FirePeriodic?
  }

  ghost function LastRun(s: Pending, last: int, a: Act): int
    requires Shaped(s)
  {
    if Fires(a) then s.ts[0] else last
  }

  ghost predicate Runnable(s: Pending, last: int, acts: seq<Act>, o: Own)
    decreases |acts|
  {
    acts == [] ||
    (&& Allowed(s, last, acts[0], o)
     && (Stops(s, last, acts[0], o) ||
         Runnable(After(s, last, acts[0], o), LastRun(s, last, acts[0]), acts[1..], o)))
  }

  /** The true times at which the dispatched timers were due. */
  ghost function Dispatched(s: Pending, last: int, acts: seq<Act>, o: Own): seq<int>
    requires Runnable(s, last, acts, o)
    decreases |acts|
  {
    if acts == [] then [] else
      (if Fires(acts[0]) then [s.ts[0]] else []) +
      (if Stops(s, last, acts[0], o) then []
       else Dispatched(After(s, last, acts[0], o), LastRun(s, last, acts[0]), acts[1..], o))
  }

  ghost function Tally(users: set<Timer>, a: Act): set<Timer> {
    match a
    case AddAt(x, _, _, _) => users + {x}
    case DeleteAt(y) => users - {y}
    case Fire(t, calls, res) =>
      if res.Again? then TallyCalls(users, calls) + {t} else TallyCalls(users, calls) - {t}
    case FirePeriodic(_) => users
    case ResetAll => {}
  }

  /** The list after a run, or before the operation that stops the machine. */
  ghost function AfterAll(s: Pending, last: int, acts: seq<Act>, o: Own): Pending
    requires Runnable(s, last, acts, o)
    decreases |acts|
  {
    if acts == [] || Stops(s, last, acts[0], o) then s
    else AfterAll(After(s, last, acts[0], o), LastRun(s, last, acts[0]), acts[1..], o)
  }

  /** True times as the firmware sees them. */
  function Words(ts: seq<int>): (ws: seq<int>)
    ensures |ws| == |ts|
  {
    seq(|ts|, i requires 0 <= i < |ts| => Word(ts[i]))
  }

  /** The user's timers after a run: each operation adds and removes exactly what it names. */
  ghost function TallyAll(users: set<Timer>, acts: seq<Act>): set<Timer>
    decreases |acts|
  {
    if acts == [] then users else TallyAll(Tally(users, acts[0]), acts[1..])
  }

  // ---------------------------------------------------------------- the times that were asked for

  /** Every pending user timer is due when m says. */
  ghost predicate Asked(s: Pending, m: map<Timer, int>, o: Own) {
    Shaped(s) && forall i :: 0 <= i < |s.ns| && s.ns[i] !in o.All() ==> s.ns[i] in m && m[s.ns[i]] == s.ts[i]
  }

  /** The times asked for by the additions of a callback, on top of those asked for before. */
  ghost function AskedByCalls(m: map<Timer, int>, calls: seq<Call>): map<Timer, int>
    decreases |calls|
  {
    if calls == [] then m
    else AskedByCalls(if calls[0].CallAdd? then m[calls[0].x := calls[0].w] else m, calls[1..])
  }

  ghost function AskedBy(m: map<Timer, int>, a: Act): map<Timer, int> {
    match a
    case AddAt(x, w, _, _) => m[x := w]
    case Fire(t, calls, res) => if res.Again? then AskedByCalls(m, calls)[t := res.w] else AskedByCalls(m, calls)
    case _ => m
  }

  ghost function AskedByAll(m: map<Timer, int>, acts: seq<Act>): map<Timer, int>
    decreases |acts|
  {
    if acts == [] then m else AskedByAll(AskedBy(m, acts[0]), acts[1..])
  }

  lemma AddedAsAsked(s: Pending, x: Timer, w: int, m: map<Timer, int>, o: Own)
    requires Asked(s, m, o) && x !in s.ns
    ensures Asked(Added(s, x, w, o), m[x := w], o)
  {
    hide Slot, Insert;
    var r := Added(s, x, w, o);
    if w < s.ts[0] {
      AddFirstShifts(s, x, w, o);
      var d := if s.ns[0] == o.deleted && s.p > 0 then 1 else 2;
      forall i | 0 <= i < |r.ns| && r.ns[i] !in o.All()
        ensures r.ns[i] in m[x := w] && m[x := w][r.ns[i]] == r.ts[i]
      {
        if i < 2 {
          assert r.ns[i] == r.ns[..2][i] && r.ts[i] == r.ts[..2][i];
        } else {
          assert r.ns[i] == s.ns[i - d] && r.ts[i] == s.ts[i - d];
        }
      }
    } else {
      var k := Slot(s.ts, w);
      assert forall i :: 0 <= i < |r.ns| && i != k ==>
        var j := if i < k then i else i - 1; r.ns[i] == s.ns[j] && r.ts[i] == s.ts[j];
    }
  }

  lemma RemovedAsAsked(s: Pending, y: Timer, m: map<Timer, int>, o: Own)
    requires Asked(s, m, o)
    ensures Asked(Removed(s, y, o), m, o)
  {
    hide Remove, IndexOf;
    var r := Removed(s, y, o);
    if y in s.ns && s.ns[0] != y {
      var k := IndexOf(s.ns, y);
      assert forall i :: 0 <= i < |r.ns| ==>
        var j := if i < k then i else i + 1; r.ns[i] == s.ns[j] && r.ts[i] == s.ts[j];
    }
  }

  lemma {:induction false} CallsAsAsked(b: Busy, t: Timer, calls: seq<Call>, m: map<Timer, int>, o: Own)
    requires Sound(b) && CallsAllowed(b, t, calls, o) && Asked(b.s, m, o) && !AfterCalls(b, t, calls, o).stopped
    ensures Asked(AfterCalls(b, t, calls, o).s, AskedByCalls(m, calls), o)
    decreases |calls|
  {
    hide Asked, Added, Removed, CutAfterAdd, IndexOf, Near;
    if calls != [] && !b.stopped {
      var r := AfterCall(b, t, calls[0], o);
      match calls[0] {
        case CallAdd(x, w, _, _) => AddedAsAsked(b.s, x, w, m, o);
        case CallDelete(y) => RemovedAsAsked(b.s, y, m, o);
      }
      CallsAsAsked(r, t, calls[1..], if calls[0].CallAdd? then m[calls[0].x := calls[0].w] else m, o);
    }
  }

  /** A list with a timer put in at some slot. */
  lemma InsertedAsAsked(ns: seq<Timer>, ts: seq<int>, k: nat, t: Timer, w: int, m: map<Timer, int>, o: Own)
    requires |ns| == |ts| && k <= |ns| && t !in ns
    requires forall i :: 0 <= i < |ns| && ns[i] !in o.All() ==> ns[i] in m && m[ns[i]] == ts[i]
    ensures Asked(Pending(Insert(ns, k, t), Insert(ts, k, w), 0), m[t := w], o)
  {
    hide Insert;
    var us, vs := Insert(ns, k, t), Insert(ts, k, w);
    forall i | 0 <= i < |us| && us[i] !in o.All()
      ensures us[i] in m[t := w] && m[t := w][us[i]] == vs[i]
    {
      if i != k {
        var j := if i < k then i else i - 1;
        assert us[i] == ns[j] && vs[i] == ts[j];
      }
    }
  }

  /** A timer that is to run again is due when its callback says, and all others as before. */
  lemma ConcludedAsAsked(b: Busy, t: Timer, res: Outcome, m: map<Timer, int>, o: Own)
    requires Clean(b, t, res) && Asked(b.s, m, o) && Distinct(Concluded(b, t, res).ns)
    ensures Asked(Concluded(b, t, res), if res.Again? then m[t := res.w] else m, o)
  {
    hide Slot, Insert;
    var r, rest, rs := Concluded(b, t, res), b.s.ns[b.c..], b.s.ts[b.c..];
    if res.Again? && Cut(b, res) {
      var k := Slot(rs, res.w);
      InsertedOnce(rest, k, t);
      InsertedAsAsked(rest, rs, k, t, res.w, m, o);
    } else if res.Again? {
      assert r.ns[b.c - 1] == t && r.ts[b.c - 1] == res.w;
      assert forall i :: 0 <= i < |r.ns| && r.ns[i] == t ==> i == b.c - 1;
    }
  }

  lemma InsertedOnce(ns: seq<Timer>, k: nat, t: Timer)
    requires k <= |ns| && Distinct(Insert(ns, k, t))
    ensures t !in ns
  {
    hide Insert;
    var us := Insert(ns, k, t);
    forall i | 0 <= i < |ns|
      ensures ns[i] != t
    {
      assert us[if i < k then i else i + 1] == ns[i] && us[k] == t;
    }
  }

  /** The periodic timer moves by exactly its period, the sentinel with it, and no user timer moves. */
  lemma PeriodicAsAsked(s: Pending, period: int, m: map<Timer, int>, o: Own)
    requires Asked(s, m, o) && s.p == 0 && |s.ns| > 1 && s.ns[0] == o.periodic && s.ns[|s.ns| - 1] == o.sentinel
    requires 0 < period < HALF
    ensures var r := AfterPeriodic(s, period);
            && Asked(r, m, o) && r.p < |r.ns| && r.ns[r.p] == o.periodic && r.ts[r.p] == s.ts[0] + period
            && r.ns[|r.ns| - 1] == o.sentinel && r.ts[|r.ts| - 1] == s.ts[0] + period + HALF
  {
    hide Slot, Insert, BehindPeriodic;
    var w := s.ts[0] + period;
    var rest, rs, r := s.ns[1..], BehindPeriodic(s.ts, w), AfterPeriodic(s, period);
    BehindPeriodicAt(s.ts, w);
    BehindPeriodicEnds(s.ts, w);
    BehindAsAsked(s, w, m, o);
    if w >= rs[0] {
      var k := Slot(rs, w);
      assert k < |rs|;
      InsertKeepsEnd(rest, k, o.periodic);
      InsertKeepsEnd(rs, k, w);
      InsertedAsOwn(rest, rs, k, o.periodic, w, m, o);
    }
  }

  lemma BehindAsAsked(s: Pending, w: int, m: map<Timer, int>, o: Own)
    requires Asked(s, m, o) && |s.ns| > 1 && s.ns[|s.ns| - 1] == o.sentinel
    ensures var rest, rs := s.ns[1..], BehindPeriodic(s.ts, w);
            |rest| == |rs| && forall i :: 0 <= i < |rest| && rest[i] !in o.All() ==> rest[i] in m && m[rest[i]] == rs[i]
  {
    var rest, rs := s.ns[1..], BehindPeriodic(s.ts, w);
    assert forall i :: 0 <= i < |rest| ==> rest[i] == s.ns[i + 1];
    assert forall i :: 0 <= i < |rest| - 1 ==> rs[i] == s.ts[i + 1];
  }

  lemma InsertKeepsEnd<T>(s: seq<T>, k: nat, x: T)
    requires k < |s|
    ensures var r := Insert(s, k, x); r[|r| - 1] == s[|s| - 1]
  {
  }

  lemma InsertedAsOwn(ns: seq<Timer>, ts: seq<int>, k: nat, t: Timer, w: int, m: map<Timer, int>, o: Own)
    requires |ns| == |ts| && k <= |ns| && t in o.All()
    requires forall i :: 0 <= i < |ns| && ns[i] !in o.All() ==> ns[i] in m && m[ns[i]] == ts[i]
    ensures Asked(Pending(Insert(ns, k, t), Insert(ts, k, w), 0), m, o)
  {
    hide Insert;
    var us, vs := Insert(ns, k, t), Insert(ts, k, w);
    forall i | 0 <= i < |us| && us[i] !in o.All()
      ensures us[i] in m && m[us[i]] == vs[i]
    {
      if i != k {
        var j := if i < k then i else i - 1;
        assert us[i] == ns[j] && vs[i] == ts[j];
      }
    }
  }

  lemma BehindPeriodicEnds(ts: seq<int>, w: int)
    requires |ts| > 1
    ensures var rs := BehindPeriodic(ts, w); |rs| == |ts| - 1 && rs[|rs| - 1] == w + HALF
  {
  }

  /** Every operation leaves the pending timers due when they were last asked to be. */
  lemma StepAsAsked(s: Pending, last: int, a: Act, m: map<Timer, int>, o: Own)
    requires Allowed(s, last, a, o) && !Stops(s, last, a, o) && Asked(s, m, o) && Specials(s.ns, s.p, o)
    requires Distinct(s.ns) && Distinct(After(s, last, a, o).ns) && o.periodic != o.sentinel
    ensures Asked(After(s, last, a, o), AskedBy(m, a), o)
  {
    hide Asked, Added, Removed, Concluded, AfterPeriodic, AfterCalls, CallsAllowed, AskedByCalls;
    match a
    case AddAt(x, w, _, _) => AddedAsAsked(s, x, w, m, o);
    case DeleteAt(y) => RemovedAsAsked(s, y, m, o);
    case Fire(t, calls, res) =>
      CallsAsAsked(Begin(s), t, calls, m, o);
      ConcludedAsAsked(AfterCalls(Begin(s), t, calls, o), t, res, AskedByCalls(m, calls), o);
    case FirePeriodic(period) => PeriodicAsAsked(s, period, m, o);
    case ResetAll => ResetAsAsked(s, m, o);
  }

  lemma ResetAsAsked(s: Pending, m: map<Timer, int>, o: Own)
    requires s.p < |s.ts|
    ensures Asked(ResetState(s, o), m, o)
  {
  }

  /** The timers an operation names are in the pool. */
  ghost predicate InPool(a: Act, pool: set<Timer>) {
    match a
    case AddAt(x, _, _, _) => x in pool
    case Fire(_, calls, _) => forall i :: 0 <= i < |calls| ==> calls[i].CallAdd? ==> calls[i].x in pool
    case _ => true
  }

  lemma PeriodicNodes(s: Pending, period: int)
    requires Shaped(s)
    ensures forall n :: n in AfterPeriodic(s, period).ns ==> n in s.ns
  {
  }

  // ---------------------------------------------------------------- the scheduler

  class Scheduler {
    const periodic: Timer
    const sentinel: Timer
    const deleted: Timer
    var timerList: Timer
    var lastInsert: Timer
    ghost var nodes: seq<Timer>  // the list, from timerList to the sentinel
    ghost var times: seq<int>    // the true times of the nodes
    ghost var p: nat             // where the periodic timer is

    ghost function Mine(): Own {
      Own(periodic, sentinel, deleted)
    }

    ghost function State(): Pending
      reads this
    {
      Pending(nodes, times, p)
    }

    ghost predicate Valid()
      reads this, nodes
    {
      && periodic != sentinel && periodic != deleted && sentinel != deleted
      && List(nodes, times) && Clock(times, p) && Specials(nodes, p, Mine())
      && timerList == nodes[0]
      && lastInsert in nodes && lastInsert != sentinel && lastInsert != deleted
    }

    ghost function Users(): set<Timer>
      reads this
    {
      UserSet(nodes, Mine().All())
    }

    constructor ()
      ensures Valid() && Users() == {} && times == [0, HALF] && nodes == [periodic, sentinel]
      ensures fresh(periodic) && fresh(sentinel) && fresh(deleted)
    {
      var a := new Timer();
      var b := new Timer();
      var c := new Timer();
      a.next, a.waketime := b, 0;
      b.next, b.waketime := null, HALF;
      periodic, sentinel, deleted := a, b, c;
      timerList, lastInsert := a, a;
      nodes, times, p := [a, b], [0, HALF], 0;
    }

    /** sched_timer_reset: only the periodic timer and the sentinel remain. */
    method Reset()
      requires Valid()
      modifies this, nodes, deleted
      ensures Valid() && Users() == {} && State() == ResetState(old(State()), Mine())
      ensures Shaped(old(State())) && old(times[0]) <= times[0]
    {
      ghost var t := times[p];
      timerList := deleted;
      deleted.waketime := periodic.waketime;
      deleted.next := periodic;
      lastInsert := periodic;
      periodic.next := sentinel;
      assert nodes[|nodes| - 1] == sentinel;
      nodes, times, p := [deleted, periodic, sentinel], [t, t, t + HALF], 1;
    }

    // -------------------------------------------------------------- adding and deleting

    /** The list without the placeholder at its front. */
    ghost function Live(): (s: Pending)
      reads this
    {
      if nodes != [] && times != [] && p > 0 && nodes[0] == deleted then Pending(nodes[1..], times[1..], p - 1)
      else State()
    }

    lemma LiveFacts()
      requires Valid()
      ensures var s := Live();
              && List(s.ns, s.ts) && Clock(s.ts, s.p) && s.ts[0] >= times[0]
              && Specials(s.ns, s.p, Mine()) && deleted !in s.ns && lastInsert in s.ns
              && s.ns[0] == (if nodes[0] == deleted then deleted.next else nodes[0])
              && UserSet(s.ns, Mine().All()) == Users()
      ensures (forall w :: Within(times, w) ==> Within(Live().ts, w)) && forall x :: x in Live().ns ==> x in nodes
    {
      if nodes[0] == deleted {
        NotSentinel(nodes, times, p, Mine());
        assert nodes == [nodes[0]] + nodes[1..];
        ListDrop(nodes, times, 1);
        ClockDrop(times, p, 1);
        SpecialsDrop(nodes, p, Mine(), 1);
        UserCons(nodes[0], nodes[1..], Mine().All());
      }
    }

    /** The placeholder and t in front of a list. */
    method LinkFirst(t: Timer, ghost w: int, ghost ns: seq<Timer>, ghost ts: seq<int>)
      requires List(ns, ts) && t !in ns && deleted !in ns && t != deleted && t.waketime == Word(w)
      requires timerList == deleted || timerList == ns[0]
      requires timerList == deleted ==> deleted.next == ns[0]
      modifies `timerList, t`next, deleted
      ensures List([deleted] + ([t] + ns), [w] + ([w] + ts)) && timerList == deleted
    {
      hide List;
      if timerList == deleted {
        t.next := deleted.next;
      } else {
        t.next := timerList;
      }
      deleted.waketime := t.waketime;
      deleted.next := t;
      timerList := deleted;
      ListCons(t, w, ns, ts);
      ListCons(deleted, w, [t] + ns, [w] + ts);
    }

    /** A timer due before all others goes to the front, behind a placeholder due at the same time. */
    method AddFirst(t: Timer, ghost w: int)
      requires Valid() && t !in nodes && t !in Mine().All() && t.waketime == Word(w)
      requires w < times[0] && Within(times, w)
      modifies this, t`next, deleted
      ensures Valid() && State() == Added(old(State()), t, w, Mine())
      ensures Users() == old(Users()) + {t} && lastInsert == old(lastInsert)
    {
      hide List, Clock, Specials, UserSet;
      ghost var own := Mine().All();
      ghost var s := Live();
      LiveFacts();
      ClockFront(s.ts, s.p, w);
      ClockFront([w] + s.ts, s.p + 1, w);
      LinkFirst(t, w, s.ns, s.ts);
      SpecialsFront(s.ns, s.p, Mine(), t);
      nodes, times, p := [deleted] + ([t] + s.ns), [w] + ([w] + s.ts), s.p + 2;
      UserCons(t, s.ns, own);
      UserCons(deleted, [t] + s.ns, own);
    }

    /**
     sched_add_timer: `now` is the clock reading, and `stops` says whether a timer in the past
     shuts the machine down.  The caller keeps all pending times within half a wrap.
     */
    method Add(t: Timer, now: int, stops: bool, ghost w: int, ghost trueNow: int) returns (added: bool)
      requires Valid() && t !in nodes && t !in Mine().All() && t.waketime == Word(w)
      requires now == Word(trueNow) && Shaped(State()) && Near(State(), w, trueNow)
      modifies this, t`next, deleted, (set n | n in nodes)`next
      ensures Valid() && added == !Refused(old(times[0]), w, trueNow, stops) && lastInsert == old(lastInsert)
      ensures added <==> !stops || w >= trueNow || w >= old(times[0])
      ensures State() == if added then Added(old(State()), t, w, Mine()) else old(State())
      ensures Users() == old(Users()) + if added then {t} else {}
    {
      hide List, Clock, Specials, Added, UserSet;
      added := true;
      FrontNode(nodes, times, p);
      IsBeforeIsEarlier(w, times[0]);
      if IsBefore(t.waketime, timerList.waketime) {
        IsBeforeIsEarlier(w, trueNow);
        if IsBefore(t.waketime, now) && stops {
          return false;
        }
        AddFirst(t, w);
      } else {
        AddLater(t, w);
      }
    }

    /** A timer due no earlier than the first goes to its slot. */
    method AddLater(t: Timer, ghost w: int)
      requires Valid() && t !in nodes && t !in Mine().All() && t.waketime == Word(w)
      requires Shaped(State()) && times[0] <= w < times[0] + HALF
      modifies this, t`next, (set n | n in nodes)`next
      ensures Valid() && State() == Added(old(State()), t, w, Mine())
      ensures Users() == old(Users()) + {t} && lastInsert == old(lastInsert)
    {
      hide List, Clock, Specials, Insert, Slot, Searchable, UserSet;
      ClockInsert(times, p, w);
      ghost var k := InsertTimer(timerList, t, t.waketime, nodes, times, 0, w);
      SpecialsInsert(nodes, p, Mine(), k, t);
      UserInsert(nodes, k, t, Mine().All());
      nodes, times, p := Insert(nodes, k, t), Insert(times, k, w), if p < k then p else p + 1;
    }

    /** sched_del_timer: a timer at the front leaves the placeholder behind. */
    method Delete(t: Timer)
      requires Valid() && t !in Mine().All()
      modifies this, deleted, (set n | n in nodes)`next
      ensures Valid() && Shaped(old(State())) && State() == Removed(old(State()), t, Mine())
      ensures Users() == old(Users()) - {t} && t.next == old(t.next)
      ensures lastInsert == if old(lastInsert) == t then periodic else old(lastInsert)
    {
      if timerList == t {
        DeleteFirst(t);
      } else {
        DeleteLater(t);
      }
    }

    /** What is behind a front timer that is not the periodic one. */
    lemma FrontFacts()
      requires Valid() && timerList != periodic
      ensures |nodes| == |times| > 2 && 0 < p && nodes[0] !in nodes[1..] && nodes[0].next == nodes[1]
      ensures nodes[0].waketime == Word(times[0]) && nodes[0] != sentinel
      ensures List(nodes[1..], times[1..]) && deleted !in nodes[1..] && Specials([deleted] + nodes[1..], p, Mine())
      ensures nodes == [nodes[0]] + nodes[1..] && times == [times[0]] + times[1..] && periodic in nodes[1..]
    {
      NotSentinel(nodes, times, p, Mine());
      ListDrop(nodes, times, 1);
      SpecialsSwap(nodes, p, Mine());
      assert nodes[1..][p - 1] == periodic;
    }

    method DeleteFirst(t: Timer)
      requires Valid() && t !in Mine().All() && timerList == t
      modifies this, deleted
      ensures Valid() && Shaped(old(State())) && State() == Removed(old(State()), t, Mine())
      ensures Users() == old(Users()) - {t} && t.next == old(t.next)
      ensures lastInsert == if old(lastInsert) == t then periodic else old(lastInsert)
    {
      hide List, Clock, Specials, UserSet, IndexOf;
      FrontFacts();
      ghost var own, rest, rs := Mine().All(), nodes[1..], times[1..];
      UserCons(t, rest, own);
      UserCons(deleted, rest, own);
      UserAbsent(rest, t, own);
      deleted.waketime := t.waketime;
      deleted.next := t.next;
      timerList := deleted;
      if lastInsert == t {
        lastInsert := periodic;
      }
      ListCons(deleted, times[0], rest, rs);
      nodes := [deleted] + rest;
    }

    /** Look for t behind the front timer and unlink it. */
    method Unlink(t: Timer) returns (found: bool, ghost k: nat)
      requires List(nodes, times) && timerList == nodes[0] != t
      modifies (set n | n in nodes)`next
      ensures !found ==> t !in nodes && List(nodes, times)
      ensures t.next == old(t.next)
      ensures found ==> 0 < k < |nodes| == |times| && nodes[k] == t && Distinct(nodes)
      ensures found && k < |nodes| - 1 ==> List(Remove(nodes, k), Remove(times, k))
    {
      hide Remove;
      var pos := timerList;
      ghost var i := 0;
      while pos.next != null
        invariant 0 <= i < |nodes| && pos == nodes[i] && List(nodes, times) && t.next == old(t.next)
        invariant forall j :: 0 <= j <= i ==> nodes[j] != t
        decreases |nodes| - i
      {
        assert pos.next == nodes[i + 1];
        if pos.next == t {
          k := i + 1;
          pos.next := t.next;
          if k < |nodes| - 1 {
            LinkedOut(nodes, times, k);
          }
          return true, k;
        }
        pos := pos.next;
        i := i + 1;
      }
      found, k := false, 0;
    }

    method DeleteLater(t: Timer)
      requires Valid() && t !in Mine().All() && timerList != t
      modifies this, (set n | n in nodes)`next
      ensures Valid() && Shaped(old(State())) && State() == Removed(old(State()), t, Mine())
      ensures Users() == old(Users()) - {t} && t.next == old(t.next)
      ensures lastInsert == if old(lastInsert) == t then periodic else old(lastInsert)
    {
      hide List, Clock, Specials, Remove, UserSet, IndexOf;
      ghost var own := Mine().All();
      ListSize(nodes, times);
      var found, k := Unlink(t);
      if !found {
        UserAbsent(nodes, t, own);
      } else {
        assert IndexOf(nodes, t) == k;
        UserRemove(nodes, k, own);
        RemoveFacts(nodes, times, p, Mine(), k, lastInsert);
        nodes, times, p := Remove(nodes, k), Remove(times, k), if p < k then p else p - 1;
      }
      if lastInsert == t {
        lastInsert := periodic;
      }
    }

    // -------------------------------------------------------------- dispatch

    /** Back into the list, starting from the last insertion point if that is early enough. */
    method PutBack(t: Timer, ghost rest: seq<Timer>, ghost rs: seq<int>, ghost w: int)
      requires List(rest, rs) && t !in rest && t.next == rest[0] && timerList == rest[0]
      requires t.waketime == Word(w) && w >= rs[0] && Searchable(rs, w)
      requires lastInsert == t ||
               exists h :: 0 <= h < |rest| && lastInsert == rest[h] && -HALF <= w - rs[h] < HALF
      modifies `lastInsert, t`next, (set n | n in rest)`next
      ensures var k := Slot(rs, w);
              0 < k < |rest| && List(Insert(rest, k, t), Insert(rs, k, w)) && lastInsert == t
    {
      hide List, Insert, Slot, Searchable;
      ListSize(rest, rs);
      var pos := lastInsert;
      ghost var p0 := -1;
      if lastInsert == t {
        IsBeforeIsEarlier(w, w);
      } else {
        p0 :| 0 <= p0 < |rest| && lastInsert == rest[p0] && -HALF <= w - rs[p0] < HALF;
        ListNode(rest, rs, p0);
        IsBeforeIsEarlier(w, rs[p0]);
      }
      if IsBefore(t.waketime, pos.waketime) {
        pos := timerList;
        p0 := 0;
      }
      ghost var k := InsertTimer(pos, t, t.waketime, rest, rs, p0, w);
      lastInsert := t;
    }

    /** What is known about the list behind its first c nodes. */
    lemma DropFacts(c: nat)
      requires Valid() && 0 < c <= p
      ensures c < |nodes| == |times| && List(nodes[c..], times[c..]) && Clock(times[c..], p - c)
      ensures Specials(nodes[c..], p - c, Mine()) && deleted !in nodes[c..] && nodes[c] != sentinel
      ensures times[0] <= times[c] < times[0] + HALF && nodes[c].waketime == Word(times[c])
      ensures lastInsert in nodes[c..] ==>
                exists h :: 0 <= h < |nodes| - c - 1 && lastInsert == nodes[c..][h] &&
                            times[c] <= times[c..][h] < times[0] + HALF
    {
      ClockSize(times, p);
      ListDrop(nodes, times, c);
      ClockDrop(times, p, c);
      SpecialsDrop(nodes, p, Mine(), c);
      ListNode(nodes, times, c);
      if lastInsert in nodes[c..] {
        HintInWindow(nodes, times, p, c, lastInsert);
      }
    }

    /** The hint is the running timer, or behind the node that links to. */
    ghost predicate HintBehind(t: Timer, c: nat)
      reads this
    {
      c <= |nodes| && (lastInsert == t || lastInsert in nodes[c..])
    }

    /** The end of a dispatch whose timer is finished. */
    method Leave(t: Timer, ghost c: nat) returns (nextWaketime: int)
      requires Valid() && 0 < c <= p && HintBehind(t, c) && t.next == nodes[c]
      modifies this
      ensures Valid() && State() == Pending(old(nodes)[c..], old(times)[c..], old(p) - c)
      ensures nextWaketime == Word(times[0])
    {
      hide List, Clock, Specials;
      DropFacts(c);
      nextWaketime := t.next.waketime;
      timerList := t.next;
      if lastInsert == t {
        lastInsert := t.next;
      }
      nodes, times, p := nodes[c..], times[c..], p - c;
    }

    /** The end of a dispatch whose timer runs again, but not next. */
    method Requeue(t: Timer, waketime: int, ghost w: int, ghost c: nat) returns (nextWaketime: int)
      requires Valid() && 0 < c <= p && HintBehind(t, c) && t.next == nodes[c] && t !in nodes[c..]
      requires waketime == Word(w) && times[c] <= w < times[c] + HALF && t != deleted && t != sentinel
      modifies this, t, (set n | n in nodes[c..])`next
      ensures Valid() && nextWaketime == Word(times[0]) && lastInsert == t
      ensures var rs, q := old(times)[c..], old(p) - c;
              var k := Slot(rs, w);
              State() == Pending(Insert(old(nodes)[c..], k, t), Insert(rs, k, w), if q < k then q else q + 1)
    {
      hide List, Clock, Specials, Insert, Slot, Searchable;
      DropFacts(c);
      ghost var rest, rs, q := nodes[c..], times[c..], p - c;
      ClockInsert(rs, q, w);
      t.waketime := waketime;
      nextWaketime := t.next.waketime;
      timerList := t.next;
      PutBack(t, rest, rs, w);
      ghost var k := Slot(rs, w);
      SpecialsInsert(rest, q, Mine(), k, t);
      nodes, times, p := Insert(rest, k, t), Insert(rs, k, w), if q < k then q else q + 1;
      assert nodes[k] == t;
    }

    /** The end of a dispatch whose timer runs again before the one behind it. */
    method Retime(t: Timer, waketime: int, ghost w: int, ghost c: nat)
      requires Valid() && 0 < c <= p && (nodes[c - 1] == t || t !in nodes) && waketime == Word(w)
      requires nodes[c - 1] == t ==> times[c - 1] <= w < times[c]
      modifies t`waketime, `times
      ensures Valid()
      ensures State() == old(State()).(ts := if nodes[c - 1] == t then old(times)[c - 1 := w] else old(times))
    {
      t.waketime := waketime;
      if nodes[c - 1] == t {
        ListTouched(nodes, times, c - 1, w);
        ClockTouched(times, p, c - 1, w);
        times := times[c - 1 := w];
      }
    }

    // -------------------------------------------------------------- dispatch with a callback

    /** The list when the callback of the front timer starts. */
    ghost function Begun(): Busy
      reads this
    {
      Begin(State())
    }

    lemma FrontClock(b: Busy, t: Timer, due: int)
      requires Valid() && State() == b.s && Front(b, t, due, Mine())
      ensures Sorted(times) && Distinct(nodes) && Sound(b) && |nodes| == |times| && b.c <= p < |nodes| - 1
      ensures nodes[p] == periodic && nodes[|nodes| - 1] == sentinel
    {
    }

    /** The running timer links to what the value says, if it is in the list. */
    lemma StillLinked(t: Timer, b: Busy, due: int)
      requires Valid() && State() == b.s && Front(b, t, due, Mine()) && Linked(b, t)
      ensures t.next == nodes[b.c]
    {
      ListDrop(nodes, times, b.c);
    }

    /** In the middle of the callback of t. */
    ghost predicate During(t: Timer, b: Busy, due: int)
      reads this, t
    {
      && State() == b.s && !b.stopped && Front(b, t, due, Mine())
      && t.next == nodes[b.c] && t != periodic && t != sentinel
      && lastInsert !in b.added && t !in b.added && b.added !! Mine().All()
    }

    /** All timers concerned are in the pool. */
    ghost predicate Pooled(pool: set<Timer>)
      reads this
    {
      Mine().All() <= pool && forall n :: n in nodes ==> n in pool
    }

    method CallbackAdd(t: Timer, call: Call, ghost b: Busy, ghost due: int, ghost pool: set<Timer>) returns (ok: bool)
      requires Valid() && During(t, b, due) && t != deleted && call.CallAdd? && CallAllowed(b, t, call, Mine())
      requires Pooled(pool) && call.x in pool && t in pool
      modifies this, pool
      ensures Valid() && Pooled(pool) && ok == !AfterCall(b, t, call, Mine()).stopped
      ensures ok ==> During(t, AfterCall(b, t, call, Mine()), due) && Users() == old(Users()) + {call.x}
      ensures !ok ==> State() == AfterCall(b, t, call, Mine()).s
    {
      hide List, Clock, Specials, Slot, Insert, UserSet, InFront, Added, CutAfterAdd;
      var CallAdd(x, w, now, stops) := call;
      x.waketime := Word(w);
      FrontClock(b, t, due);
      if w < times[0] {
        FrontAddFirst(b, t, due, Mine(), x, w);
      } else {
        ClockInsert(times, p, w);
        FrontInsert(b, t, due, Mine(), x, w);
      }
      ok := Add(x, Word(now), stops, w, now);
      if ok {
        if Linked(AfterCall(b, t, call, Mine()), t) {
          StillLinked(t, AfterCall(b, t, call, Mine()), due);
        }
        AddedNodes(b.s, x, w, Mine());
      }
    }

    method CallbackDelete(t: Timer, call: Call, ghost b: Busy, ghost due: int, ghost pool: set<Timer>)
      requires Valid() && During(t, b, due) && t != deleted && call.CallDelete? && CallAllowed(b, t, call, Mine())
      requires Pooled(pool) && t in pool
      modifies this, pool
      ensures Valid() && Pooled(pool)
      ensures During(t, AfterCall(b, t, call, Mine()), due) && Users() == old(Users()) - {call.y}
    {
      hide List, Clock, Specials, UserSet, InFront, Removed;
      FrontClock(b, t, due);
      if call.y in nodes {
        FrontDelete(b, t, due, Mine(), call.y);
      }
      RemovedNodes(b.s, call.y, Mine());
      Delete(call.y);
      if Linked(AfterCall(b, t, call, Mine()), t) {
        StillLinked(t, AfterCall(b, t, call, Mine()), due);
      }
    }

    /** Everything the callback of t does, or as much as it does before it stops the machine. */
    method Callback(t: Timer, calls: seq<Call>, ghost due: int, ghost pool: set<Timer>)
      returns (ok: bool, ghost b: Busy)
      requires Valid() && Pooled(pool) && t in pool && (calls != [] ==> t != deleted)
      requires forall i :: 0 <= i < |calls| ==> calls[i].CallAdd? ==> calls[i].x in pool
      requires During(t, Begun(), due) && CallsAllowed(Begun(), t, calls, Mine())
      modifies this, pool
      ensures Valid() && Pooled(pool) && b == AfterCalls(old(Begun()), t, calls, Mine()) && ok == !b.stopped
      ensures if ok then During(t, b, due) && Users() == TallyCalls(old(Users()), calls) else State() == b.s
    {
      hide List, Clock, Specials, UserSet, InFront, AfterCall, CallAllowed;
      b := Begun();
      ok := true;
      for i := 0 to |calls|
        invariant Valid() && Pooled(pool) && During(t, b, due) && Sound(b) && CallsAllowed(b, t, calls[i..], Mine())
        invariant AfterCalls(old(Begun()), t, calls, Mine()) == AfterCalls(b, t, calls[i..], Mine())
        invariant TallyCalls(old(Users()), calls) == TallyCalls(Users(), calls[i..])
      {
        assert calls[i..][0] == calls[i] && calls[i..][1..] == calls[i + 1..];
        if calls[i].CallAdd? {
          ok := CallbackAdd(t, calls[i], b, due, pool);
        } else {
          CallbackDelete(t, calls[i], b, due, pool);
        }
        b := AfterCall(b, t, calls[i], Mine());
        if !ok {
          return;
        }
      }
    }

    /**
     What a callback must not do: having deleted its own timer, it deletes the one behind as well, and finishes.
     The dispatch goes on from there, so that timer is back in the list, with everything behind it.
     */
    method DeleteBehindOwn(t: Timer, y: Timer, ghost b: Busy, ghost due: int)
      requires Valid() && During(t, b, due) && t != deleted && !Linked(b, t) && y == nodes[b.c] && y !in Mine().All()
      modifies this, deleted, (set n | n in nodes)`next
      ensures timerList == y && List(old(nodes)[b.c..], old(times)[b.c..])
    {
      hide List, Clock, Specials, UserSet, InFront, Removed;
      ghost var c, ns, ts := b.c, nodes, times;
      FrontClock(b, t, due);
      ListNode(ns, ts, c);
      ListDrop(ns, ts, c + 1);
      RemovedBehind(b.s, y, c, Mine());
      Delete(y);
      ListSize(nodes, times);
      ListDrop(nodes, times, c);
      ListCons(y, ts[c], ns[c + 1..], ts[c + 1..]);
      timerList := t.next;
    }

    /**
     Nor this: having deleted its own timer, it adds it again at w, and finishes.  The dispatch goes on behind
     that timer, so all timers due no later than w are lost.
     */
    method ReaddOwn(t: Timer, w: int, now: int, ghost b: Busy, ghost due: int)
      requires Valid() && During(t, b, due) && t != deleted && !Linked(b, t)
      requires Shaped(State()) && Near(State(), w, now) && times[0] <= w
      modifies this, t, deleted, (set n | n in nodes)`next
      ensures var k := Slot(old(times), w);
              0 < k < |old(nodes)| && timerList == old(nodes)[k] && List(old(nodes)[k..], old(times)[k..])
    {
      hide List, Clock, Specials, UserSet, InFront, Slot, Insert;
      ghost var ns, ts, k := nodes, times, Slot(times, w);
      ClockInsert(times, p, w);
      t.waketime := Word(w);
      var _ := Add(t, Word(now), false, w, now);
      assert nodes == Insert(ns, k, t) && times == Insert(ts, k, w);
      ListDrop(nodes, times, k + 1);
      assert nodes[k + 1..] == ns[k..] && times[k + 1..] == ts[k..];
      timerList := t.next;
    }

    /** The hint and the running timer are where the end of a dispatch needs them. */
    lemma EndFacts(t: Timer, b: Busy, due: int)
      requires Valid() && During(t, b, due)
      ensures 0 < b.c <= p && b.c < |nodes| == |times| && HintBehind(t, b.c) && t !in nodes[b.c..]
      ensures times[0] <= due <= times[b.c] < times[0] + HALF
      ensures nodes[b.c - 1] == t ==> times[b.c - 1] == due
    {
      var h :| 0 <= h < |nodes| && nodes[h] == lastInsert;
      if h < b.c {
        assert InFront(b, h, t, due, Mine());
      } else {
        assert nodes[b.c..][h - b.c] == lastInsert;
      }
    }

    /** The second half of sched_timer_dispatch, when the callback of t has returned. */
    method Conclude(t: Timer, res: Outcome, ghost b: Busy, ghost due: int, ghost pool: set<Timer>)
      returns (nextWaketime: int)
      requires Valid() && During(t, b, due) && Pooled(pool) && t in pool
      requires res.Again? ==> t != deleted && due <= res.w < due + HALF
      modifies this, pool
      ensures Valid() && Pooled(pool) && State() == Concluded(b, t, res)
      ensures nextWaketime == if Cut(b, res) then Word(times[0]) else Word(res.w)
    {
      hide List, Clock, Specials, InFront, Insert, Slot;
      EndFacts(t, b, due);
      ghost var c := b.c;
      if res.Done? {
        nextWaketime := Leave(t, c);
        return;
      }
      nextWaketime := Reschedule(t, Word(res.w), res.w, c, pool);
    }

    /** The end of a dispatch whose timer runs again. */
    method Reschedule(t: Timer, waketime: int, ghost w: int, ghost c: nat, ghost pool: set<Timer>)
      returns (nextWaketime: int)
      requires Valid() && Pooled(pool) && t in pool && t != deleted && t != sentinel && waketime == Word(w)
      requires 0 < c <= p && HintBehind(t, c) && t.next == nodes[c] && t !in nodes[c..]
      requires (nodes[c - 1] == t || t !in nodes) && times[0] <= w && -HALF < w - times[c] < HALF
      requires nodes[c - 1] == t ==> times[c - 1] <= w
      modifies this, pool
      ensures Valid() && Pooled(pool)
      ensures nextWaketime == if w >= old(times[c]) then Word(times[0]) else Word(w)
      ensures var rs, q := old(times)[c..], old(p) - c;
              var k := Slot(rs, w);
              State() == if w >= old(times[c])
                         then Pending(Insert(old(nodes)[c..], k, t), Insert(rs, k, w), if q < k then q else q + 1)
                         else if old(nodes[c - 1]) == t then old(State()).(ts := old(times)[c - 1 := w])
                         else old(State())
    {
      hide List, Clock, Specials, Insert, Slot;
      DropFacts(c);
      IsBeforeIsEarlier(w, times[c]);
      if !IsBefore(waketime, t.next.waketime) {
        InsertNodes(nodes[c..], Slot(times[c..], w), t);
        nextWaketime := Requeue(t, waketime, w, c);
      } else {
        Retime(t, waketime, w, c);
        nextWaketime := waketime;
      }
    }

    lemma BegunIsFront()
      requires Valid() && timerList != periodic
      ensures Sound(Begun()) && During(timerList, Begun(), times[0])
    {
      FrontFacts();
      ClockSize(times, p);
      assert times[0] <= times[1];
      assert InFront(Begun(), 0, timerList, times[0], Mine());
    }

    /**
     sched_timer_dispatch for a timer other than the periodic one: its callback adds and deletes
     timers while it is still at the front of the list, and the list is updated when it returns.
     */
    method Dispatch(calls: seq<Call>, res: Outcome, ghost pool: set<Timer>)
      returns (nextWaketime: int, stopped: bool)
      requires Valid() && timerList != periodic && Pooled(pool) && CallsAllowed(Begun(), timerList, calls, Mine())
      requires forall i :: 0 <= i < |calls| ==> calls[i].CallAdd? ==> calls[i].x in pool
      requires timerList == deleted ==> calls == [] && res.Done?
      requires res.Again? ==> times[0] <= res.w < times[0] + HALF
      modifies this, pool
      ensures Valid() && Pooled(pool) && Sound(old(Begun()))
      ensures var t, b := old(timerList), AfterCalls(old(Begun()), old(timerList), calls, Mine());
              && stopped == b.stopped && (stopped ==> Users() == {})
              && (!stopped ==> State() == Concluded(b, t, res) && Front(b, t, old(times[0]), Mine()))
              && (!stopped && Cut(b, res) ==> nextWaketime == Word(times[0]))
              && (!stopped && Clean(b, t, res) ==>
                    var users := TallyCalls(old(Users()), calls);
                    && Users() == (if res.Again? then users + ({t} - Mine().All()) else users - {t})
                    && old(times[0]) <= times[0] && nextWaketime == Word(times[0]))
    {
      hide List, Clock, Specials, InFront, Insert, Slot, UserSet, Concluded;
      BegunIsFront();
      var t := timerList;
      ghost var due := times[0];
      var ok;
      ghost var b;
      ok, b := Callback(t, calls, due, pool);
      stopped := !ok;
      if stopped {
        nextWaketime := 0;
        Reset();
        return;
      }
      if Clean(b, t, res) {
        FrontClock(b, t, due);
        CleanUsers(b, t, res, due, Mine());
      }
      nextWaketime := Conclude(t, res, b, due, pool);
    }

    // -------------------------------------------------------------- the periodic timer

    lemma PeriodicFacts()
      requires Valid() && timerList == periodic
      ensures p == 0 && |nodes| == |times| > 1 && Clock(times, 0) && List(nodes[1..], times[1..])
      ensures periodic !in nodes[1..] && periodic.next == nodes[1] && periodic.waketime == Word(times[0])
      ensures nodes == [periodic] + nodes[1..] && nodes[|nodes| - 1] == sentinel && deleted !in nodes[1..]
      ensures Users() == UserSet(nodes[1..], Mine().All())
      ensures lastInsert == periodic ||
              exists h :: 0 <= h < |nodes| - 2 && lastInsert == nodes[1..][h] &&
                          times[0] <= times[1..][h] < times[0] + HALF
    {
      ListDrop(nodes, times, 1);
      UserCons(periodic, nodes[1..], Mine().All());
      assert nodes == [periodic] + nodes[1..];
      if lastInsert != periodic {
        HintInWindow(nodes, times, p, 1, lastInsert);
        assert times[0] <= times[1];
      }
    }

    /** periodic_event: one period later, with the sentinel half a wrap behind. */
    method PeriodicEvent(period: int)
      requires Valid() && timerList == periodic && 0 < period < HALF
      modifies periodic`waketime, sentinel`waketime
      ensures |nodes| > 1 && |times| > 1 && List(nodes[1..], BehindPeriodic(times, times[0] + period))
      ensures periodic.waketime == Word(times[0] + period)
    {
      hide Clock, Specials, UserSet, Word;
      PeriodicFacts();
      ghost var rest, rs := nodes[1..], times[1..];
      WordAdd(times[0], period);
      WordAdd(times[0] + period, HALF);
      periodic.waketime := Word(periodic.waketime + period);
      assert List(rest, rs);
      sentinel.waketime := Word(periodic.waketime + HALF);
    }

    /** The periodic timer moves on by one period, and takes the sentinel along. */
    method DispatchPeriodic(period: int) returns (nextWaketime: int)
      requires Valid() && timerList == periodic && 0 < period < HALF
      modifies this, nodes
      ensures Valid() && Shaped(old(State())) && State() == AfterPeriodic(old(State()), period)
      ensures nextWaketime == Word(times[0]) && old(times[0]) <= times[0] && Users() == old(Users())
    {
      hide List, Insert, Slot, Searchable, Specials, Clock, UserSet, BehindPeriodic, Word, IsBefore;
      PeriodicFacts();
      ghost var w := times[0] + period;
      ghost var rest, rs := nodes[1..], BehindPeriodic(times, w);
      BehindPeriodicAt(times, w);
      ClockPeriodic(times, w);
      PeriodicEvent(period);
      ListNode(rest, rs, 0);
      IsBeforeIsEarlier(w, rs[0]);
      ListCons(periodic, w, rest, rs);
      UserCons(periodic, rest, Mine().All());
      nextWaketime := periodic.waketime;
      if !IsBefore(periodic.waketime, periodic.next.waketime) {
        nextWaketime := periodic.next.waketime;
        timerList := periodic.next;
        PutBack(periodic, rest, rs, w);
        ghost var k := Slot(rs, w);
        SpecialsPutBack(rest, Mine(), k);
        UserInsert(rest, k, periodic, Mine().All());
        nodes, times, p := Insert(rest, k, periodic), Insert(rs, k, w), k;
      } else {
        times := [w] + rs;
      }
    }

    // -------------------------------------------------------------- whole runs

    /** A timer that is refused stops the machine. */
    method PerformAdd(x: Timer, w: int, now: int, stops: bool, ghost pool: set<Timer>) returns (stopped: bool)
      requires Valid() && Pooled(pool) && x in pool && x !in nodes && x !in Mine().All()
      requires Shaped(State()) && Near(State(), w, now)
      modifies this, pool
      ensures Valid() && Shaped(State()) && Pooled(pool) && stopped == Refused(old(times[0]), w, now, stops)
      ensures if stopped then Users() == {}
              else && State() == Added(old(State()), x, w, Mine()) && Users() == old(Users()) + {x}
                   && times[0] == if w < old(times[0]) then w else old(times[0])
    {
      hide List, Clock, Specials, UserSet, Added, Within;
      x.waketime := Word(w);
      AddedNodes(State(), x, w, Mine());
      var added := Add(x, Word(now), stops, w, now);
      stopped := !added;
      if stopped {
        Reset();
      }
    }

    method Perform(a: Act, ghost last: int, ghost pool: set<Timer>) returns (stopped: bool)
      requires Valid() && Pooled(pool) && last <= times[0] && Allowed(State(), last, a, Mine()) && InPool(a, pool)
      modifies this, pool
      ensures Valid() && Shaped(State()) && Pooled(pool) && stopped == Stops(old(State()), last, a, Mine())
      ensures if stopped then Users() == {}
              else && State() == After(old(State()), last, a, Mine()) && Users() == Tally(old(Users()), a)
                   && LastRun(old(State()), last, a) <= times[0]
    {
      hide List, Clock, Specials, UserSet, Front, Concluded, Added, Removed, AfterPeriodic, CallsAllowed;
      hide AfterCalls, Within;
      stopped := false;
      match a {
        case AddAt(x, w, now, stops) =>
          stopped := PerformAdd(x, w, now, stops, pool);
        case DeleteAt(y) =>
          RemovedNodes(State(), y, Mine());
          Delete(y);
        case Fire(t, calls, res) =>
          FrontFacts();
          var _, st := Dispatch(calls, res, pool);
          stopped := st;
        case FirePeriodic(period) =>
          PeriodicNodes(State(), period);
          var _ := DispatchPeriodic(period);
        case ResetAll =>
          Reset();
      }
      ListShaped(nodes, times);
    }

    /**
     Any sequence of operations, with any callbacks that add nothing in front of the running timer: the
     linked list stays valid and is the one the operations make, timers are dispatched in the order of their
     true wake times across any number of wraps, and no user timer appears or disappears but by an operation
     on it, and each is due when it was last asked to be: `asked` are the times asked for before the run.
     `log` are the wake times found at the front of the list at each dispatch.
     */
    method Run(acts: seq<Act>, ghost last: int, ghost pool: set<Timer>, ghost asked: map<Timer, int>)
      returns (stopped: bool, log: seq<int>)
      requires Asked(State(), asked, Mine())
      requires Valid() && Shaped(State()) && last <= times[0] && Runnable(State(), last, acts, Mine())
      requires Pooled(pool) && forall i :: 0 <= i < |acts| ==> InPool(acts[i], pool)
      modifies this, pool
      ensures Valid() && (!stopped ==> State() == AfterAll(old(State()), last, acts, Mine()))
      ensures var ran := Dispatched(old(State()), last, acts, Mine()); InOrder(last, ran) && log == Words(ran)
      ensures Users() == if stopped then {} else TallyAll(old(Users()), acts)
      ensures !stopped ==> Asked(State(), AskedByAll(asked, acts), Mine())
      decreases |acts|
    {
      hide Asked, AskedBy, List, Clock, Specials, UserSet, Allowed, Stops, After, Tally, TallyAll, Words;
      hide Runnable, Dispatched, AfterAll, InOrder;
      stopped, log := false, [];
      RunStarts(State(), last, acts, Mine(), Users());
      if acts == [] {
        return;
      }
      if Fires(acts[0]) {
        FrontNode(nodes, times, p);
        log := [timerList.waketime];
      }
      ghost var t, next := times[0], LastRun(State(), last, acts[0]);
      ListDistinct(nodes, times);
      ghost var s := State();
      stopped := Perform(acts[0], last, pool);
      ghost var later := [];
      if !stopped {
        later := Dispatched(State(), next, acts[1..], Mine());
        var rest;
        ListDistinct(nodes, times);
        StepAsAsked(s, last, acts[0], asked, Mine());
        stopped, rest := Run(acts[1..], next, pool, AskedBy(asked, acts[0]));
        log := log + rest;
      }
      InOrderStep(last, t, Fires(acts[0]), later);
    }
  }

  /** The first step of a run, and what is left of it. */
  lemma RunStarts(s: Pending, last: int, acts: seq<Act>, o: Own, users: set<Timer>)
    requires Runnable(s, last, acts, o) && Shaped(s)
    ensures acts == [] ==> AfterAll(s, last, acts, o) == s && TallyAll(users, acts) == users
    ensures acts == [] ==> InOrder(last, Dispatched(s, last, acts, o)) && Words(Dispatched(s, last, acts, o)) == []
    ensures acts != [] ==>
              && Allowed(s, last, acts[0], o) && TallyAll(users, acts) == TallyAll(Tally(users, acts[0]), acts[1..])
              && var ran, first := Dispatched(s, last, acts, o), if Fires(acts[0]) then [s.ts[0]] else [];
              && if Stops(s, last, acts[0], o) then ran == first + []
                 else
                   var r, next := After(s, last, acts[0], o), LastRun(s, last, acts[0]);
                   && Runnable(r, next, acts[1..], o) && ran == first + Dispatched(r, next, acts[1..], o)
                   && AfterAll(s, last, acts, o) == AfterAll(r, next, acts[1..], o)
  {
    hide Allowed, Stops, After, Tally;
  }

  /** In order, and nothing before a given time. */
  ghost predicate InOrder(last: int, ran: seq<int>) {
    Sorted(ran) && (ran != [] ==> last <= ran[0])
  }

  lemma InOrderStep(last: int, t: int, fires: bool, later: seq<int>)
    requires last <= t && (later == [] || InOrder(if fires then t else last, later))
    ensures var ran := (if fires then [t] else []) + later;
            InOrder(last, ran) && Words(ran) == (if fires then [Word(t)] else []) + Words(later)
  {
    if fires {
      var ran := [t] + later;
      forall i, j | 0 <= i < j < |ran|
        ensures ran[i] <= ran[j]
      {
        assert ran[j] == later[j - 1] && later[0] <= later[j - 1];
      }
    } else {
      assert [] + later == later;
    }
  }

  /** The user's timers, and the first time, after a dispatch that loses nothing. */
  lemma CleanUsers(b: Busy, t: Timer, res: Outcome, due: int, o: Own)
    requires Front(b, t, due, o) && Distinct(b.s.ns) && Clean(b, t, res) && (res.Again? ==> due <= res.w)
    ensures var s, users := Concluded(b, t, res), UserSet(b.s.ns, o.All());
            && UserSet(s.ns, o.All()) == (if res.Again? then users + ({t} - o.All()) else users - {t})
            && s.ts != [] && due <= s.ts[0] && (!Cut(b, res) ==> s.ts[0] == res.w)
  {
    hide Slot, Insert, UserSet, InFront;
    var rest, rs, own := b.s.ns[1..], b.s.ts[1..], o.All();
    assert b.s.ns == [b.s.ns[0]] + rest;
    UserCons(b.s.ns[0], rest, own);
    assert t !in rest;
    UserAbsent(rest, t, own);
    assert b.s.ns[0] == t || b.s.ns[0] in own;
    if res.Again? && Cut(b, res) {
      UserInsert(rest, Slot(rs, res.w), t, own);
    }
  }

  lemma AddedNodes(s: Pending, x: Timer, w: int, o: Own)
    requires Shaped(s)
    ensures forall n :: n in Added(s, x, w, o).ns ==> n in s.ns || n == x || n == o.deleted
    ensures Added(s, x, w, o).ts[0] == if w < s.ts[0] then w else s.ts[0]
  {
  }

  lemma RemovedNodes(s: Pending, y: Timer, o: Own)
    requires Shaped(s)
    ensures y !in s.ns ==> Removed(s, y, o) == s
    ensures forall n :: n in Removed(s, y, o).ns ==> n in s.ns || n == o.deleted
    ensures Removed(s, y, o).ts[0] == s.ts[0]
  {
  }

  lemma ClockTouched(ts: seq<int>, p: nat, k: nat, w: int)
    requires Clock(ts, p) && k < p && ts[k] <= w < ts[k + 1]
    ensures Clock(ts[k := w], p)
  {
    var us := ts[k := w];
    forall i, j | 0 <= i < j < |us|
      ensures us[i] <= us[j]
    {
      assert i == k ==> ts[k + 1] <= ts[j];
      assert j == k ==> ts[i] <= ts[k];
    }
    assert us[0] >= ts[0] && ts[k + 1] < ts[0] + HALF;
  }
}
