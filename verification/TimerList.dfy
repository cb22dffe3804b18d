/**
 The timer list of the micro-controller as data: true times in order, and the linked list that
 holds them.
 */
module TimerList {
  import opened Ticks

  // ---------------------------------------------------------------- true times

  ghost predicate Sorted(ts: seq<int>) {
    forall i, j :: 0 <= i < j < |ts| ==> ts[i] <= ts[j]
  }

  /** Where a timer for time w belongs: behind every timer due at w or earlier. */
  ghost function Slot(ts: seq<int>, w: int): (k: nat)
    ensures k <= |ts| && (k < |ts| ==> w < ts[k]) && forall i :: 0 <= i < k ==> ts[i] <= w
  {
    if ts == [] || w < ts[0] then 0 else 1 + Slot(ts[1..], w)
  }

  /** The slot can be recognised locally, so it does not matter where the search starts. */
  lemma SlotIsLocal(ts: seq<int>, w: int, k: nat)
    requires Sorted(ts) && 0 < k < |ts| && ts[k - 1] <= w < ts[k]
    ensures Slot(ts, w) == k
  {
  }

  function Insert<T>(s: seq<T>, k: nat, x: T): (r: seq<T>)
    requires k <= |s|
    ensures |r| == |s| + 1 && r[k] == x
    ensures (forall i :: 0 <= i < k ==> r[i] == s[i]) && (forall i :: k < i < |r| ==> r[i] == s[i - 1])
  {
    s[..k] + [x] + s[k..]
  }

  function Remove<T>(s: seq<T>, k: nat): (r: seq<T>)
    requires k < |s|
    ensures |r| == |s| - 1
    ensures (forall i :: 0 <= i < k ==> r[i] == s[i]) && (forall i :: k <= i < |r| ==> r[i] == s[i + 1])
  {
    s[..k] + s[k + 1..]
  }

  /**
   Every comparison made while looking for the slot of w sees times less than half a wrap apart:
   the pending timers lie in one half-wrap window, and the sentinel is half a wrap behind a
   timer that is due no later than w whenever the search gets that far.
   */
  ghost predicate Searchable(ts: seq<int>, w: int) {
    && |ts| > 0 && Sorted(ts)
    && (forall i :: 0 <= i < |ts| - 1 ==> ts[i] <= w + HALF)
    && ts[0] <= w < ts[0] + HALF && w < ts[|ts| - 1]
    && (ts[|ts| - 1] <= w + HALF || (|ts| > 1 && ts[|ts| - 1] <= ts[|ts| - 2] + HALF))
  }

  /** The times of a timer list: in order, within half a wrap, the sentinel half a wrap behind index p. */
  ghost predicate Clock(ts: seq<int>, p: nat) {
    && p < |ts| - 1 && Sorted(ts) && ts[|ts| - 1] == ts[p] + HALF
    && forall i :: 0 <= i < |ts| - 1 ==> ts[i] < ts[0] + HALF
  }

  lemma SortedInsert(ts: seq<int>, w: int)
    requires Sorted(ts)
    ensures Sorted(Insert(ts, Slot(ts, w), w))
  {
    hide Slot, Insert;
    var k := Slot(ts, w);
    var us := Insert(ts, k, w);
    forall i, j | 0 <= i < j < |us|
      ensures us[i] <= us[j]
    {
      var i' := if i < k then i else i - 1;
      var j' := if j < k then j else j - 1;
      assert i != k ==> us[i] == ts[i'];
      assert j != k ==> us[j] == ts[j'];
      assert j > k ==> ts[k] <= ts[j'];
    }
  }

  /** All pending times are less than half a wrap after w. */
  ghost predicate Within(ts: seq<int>, w: int) {
    forall i :: 0 <= i < |ts| - 1 ==> ts[i] < w + HALF
  }

  lemma ClockSearchable(ts: seq<int>, p: nat, w: int)
    requires Clock(ts, p) && ts[0] <= w < ts[0] + HALF
    ensures Searchable(ts, w) && 0 < Slot(ts, w) < |ts|
  {
    hide Slot;
    assert ts[0] <= ts[p] <= ts[|ts| - 2];
  }

  lemma ClockInsert(ts: seq<int>, p: nat, w: int)
    requires Clock(ts, p) && ts[0] <= w < ts[0] + HALF
    ensures Searchable(ts, w)
    ensures var k := Slot(ts, w);
            0 < k < |ts| && Clock(Insert(ts, k, w), if p < k then p else p + 1)
  {
    hide Slot, Insert, Sorted, Searchable;
    ClockSearchable(ts, p, w);
    SortedInsert(ts, w);
    var k := Slot(ts, w);
    var us := Insert(ts, k, w);
    forall i | 0 <= i < |us| - 1
      ensures us[i] < us[0] + HALF
    {
      assert us[0] == ts[0];
      assert i != k ==> us[i] == ts[if i < k then i else i - 1];
    }
  }

  lemma ClockRemove(ts: seq<int>, p: nat, k: nat)
    requires Clock(ts, p) && k < |ts| - 1 && k != p
    ensures Clock(Remove(ts, k), if p < k then p else p - 1)
  {
    var us := Remove(ts, k);
    assert ts[0] <= us[0];
    forall i, j | 0 <= i < j < |us|
      ensures us[i] <= us[j]
    {
      assert us[i] == ts[if i < k then i else i + 1] && us[j] == ts[if j < k then j else j + 1];
    }
  }

  lemma ClockDrop(ts: seq<int>, p: nat, c: nat)
    requires Clock(ts, p) && c <= p
    ensures Clock(ts[c..], p - c) && ts[0] <= ts[c]
  {
    var us := ts[c..];
    assert ts[0] <= ts[c];
    assert us[|us| - 1] == ts[|ts| - 1];
  }

  lemma ClockFront(ts: seq<int>, p: nat, w: int)
    requires Clock(ts, p) && w <= ts[0] && Within(ts, w)
    ensures Clock([w] + ts, p + 1) && Within([w] + ts, w)
  {
    var us := [w] + ts;
    forall i, j | 0 <= i < j < |us|
      ensures us[i] <= us[j]
    {
      assert us[j] == ts[j - 1] && ts[0] <= ts[j - 1];
    }
  }

  /** The times behind a periodic timer at the front once it moves to w, and the sentinel with it. */
  ghost function BehindPeriodic(ts: seq<int>, w: int): seq<int>
    requires |ts| > 1
  {
    ts[1..][|ts| - 2 := w + HALF]
  }

  lemma ClockPeriodic(ts: seq<int>, w: int)
    requires Clock(ts, 0) && ts[0] < w < ts[0] + HALF
    ensures var rs := BehindPeriodic(ts, w);
            && ts[0] <= rs[0] && -HALF <= w - rs[0] < HALF
            && (w < rs[0] ==> Clock([w] + rs, 0))
            && (w >= rs[0] ==> Searchable(rs, w) && var k := Slot(rs, w); 0 < k < |rs| && Clock(Insert(rs, k, w), k))
  {
    hide Slot, Insert;
    var rs := BehindPeriodic(ts, w);
    forall i, j | 0 <= i < j < |rs|
      ensures rs[i] <= rs[j]
    {
      assert ts[i + 1] <= ts[j + 1];
    }
    assert |ts| > 2 ==> rs[0] == ts[1];
    if w >= rs[0] {
      ClockPutBack(rs, w);
    } else {
      ClockOneAhead(rs, w);
    }
  }

  lemma BehindPeriodicAt(ts: seq<int>, w: int)
    requires |ts| > 1
    ensures |BehindPeriodic(ts, w)| == |ts| - 1
    ensures forall h :: 0 <= h < |ts| - 2 ==> BehindPeriodic(ts, w)[h] == ts[1..][h]
  {
  }

  lemma ClockPutBack(rest: seq<int>, w: int)
    requires |rest| > 1 && Sorted(rest) && rest[0] <= w < rest[0] + HALF && rest[|rest| - 1] == w + HALF
    requires forall i :: 0 <= i < |rest| - 1 ==> rest[i] < rest[0] + HALF
    ensures Searchable(rest, w)
    ensures var k := Slot(rest, w); 0 < k < |rest| && Clock(Insert(rest, k, w), k)
  {
    hide Slot, Insert;
    SortedInsert(rest, w);
    var k := Slot(rest, w);
    var us := Insert(rest, k, w);
    assert us[0] == rest[0];
    assert forall i :: 0 <= i < |us| ==> us[i] == if i < k then rest[i] else if i == k then w else rest[i - 1];
  }

  lemma ClockOneAhead(rest: seq<int>, w: int)
    requires |rest| > 0 && Sorted(rest) && w < rest[0] && rest[|rest| - 1] == w + HALF
    requires forall i :: 0 <= i < |rest| - 1 ==> rest[i] < w + HALF
    ensures Clock([w] + rest, 0)
  {
    var us := [w] + rest;
    forall i, j | 0 <= i < j < |us|
      ensures us[i] <= us[j]
    {
      assert us[j] == rest[j - 1] && rest[0] <= rest[j - 1];
    }
  }

  // ---------------------------------------------------------------- the list

  class Timer {
    var next: Timer?
    var waketime: int  // 32 bits

    constructor ()
      ensures next == null && waketime == 0
    {
      next, waketime := null, 0;
    }
  }

  ghost predicate Distinct(ns: seq<Timer>) {
    forall i, j :: 0 <= i < j < |ns| ==> ns[i] != ns[j]
  }

  /** The nodes form a linked list in this order, with these wake times. */
  ghost predicate List(ns: seq<Timer>, ts: seq<int>)
    reads ns
  {
    && ns != [] && |ns| == |ts| && Distinct(ns) && ns[|ns| - 1].next == null
    && (forall i {:trigger ns[i].next} :: 0 <= i < |ns| - 1 ==> ns[i].next == ns[i + 1])
    && (forall i {:trigger ns[i].waketime} :: 0 <= i < |ns| ==> ns[i].waketime == Word(ts[i]))
  }

  /**
   The walk of insert_timer.  It may start at any node that is due by w, or at the timer that is
   being put back, just after it left the front of the list.
   */
  method Search(pos0: Timer, waketime: int,
                ghost ns: seq<Timer>, ghost ts: seq<int>, ghost p0: int, ghost w: int)
    returns (prev: Timer, pos: Timer, ghost k: nat)
    requires List(ns, ts) && Searchable(ts, w) && waketime == Word(w)
    requires if p0 == -1 then pos0.next == ns[0] else 0 <= p0 < |ns| && pos0 == ns[p0] && ts[p0] <= w
    ensures 0 < k < |ns| && k == Slot(ts, w) && prev == ns[k - 1] && pos == ns[k]
  {
    pos := pos0;
    prev := pos;
    ghost var p := p0;
    while true
      invariant -1 <= p < |ns| - 1
      invariant if p == -1 then pos.next == ns[0] else pos == ns[p] && ts[p] <= w
      decreases |ns| - p
    {
      prev := pos;
      pos := pos.next;
      assert pos == ns[p + 1];
      WindowHolds(ts, w, p + 1);
      IsBeforeIsEarlier(w, ts[p + 1]);
      if IsBefore(waketime, pos.waketime) {
        break;
      }
      p := p + 1;
    }
    k := p + 1;
    SlotIsLocal(ts, w, k);
  }

  lemma WindowHolds(ts: seq<int>, w: int, i: nat)
    requires Searchable(ts, w) && i < |ts| && (i > 0 ==> ts[i - 1] <= w)
    ensures -HALF <= w - ts[i] < HALF
    ensures i == 0 ==> ts[i] <= w
  {
    assert ts[0] <= ts[i];
  }

  /** insert_timer */
  method InsertTimer(pos0: Timer, t: Timer, waketime: int,
                     ghost ns: seq<Timer>, ghost ts: seq<int>, ghost p0: int, ghost w: int)
    returns (ghost k: nat)
    requires List(ns, ts) && Searchable(ts, w) && t !in ns && waketime == Word(w) == t.waketime
    requires if p0 == -1 then pos0.next == ns[0] else 0 <= p0 < |ns| && pos0 == ns[p0] && ts[p0] <= w
    modifies t`next, (set n | n in ns)`next
    ensures k == Slot(ts, w) && 0 < k < |ns|
    ensures List(Insert(ns, k, t), Insert(ts, k, w))
  {
    var prev, pos;
    prev, pos, k := Search(pos0, waketime, ns, ts, p0, w);
    t.next := pos;
    prev.next := t;
    LinkedIn(ns, ts, k, t, w);
  }

  lemma DistinctInsert(ns: seq<Timer>, k: nat, t: Timer)
    requires Distinct(ns) && k <= |ns| && t !in ns
    ensures Distinct(Insert(ns, k, t))
  {
    var ms := Insert(ns, k, t);
    forall i, j | 0 <= i < j < |ms|
      ensures ms[i] != ms[j]
    {
      var i' := if i < k then i else i - 1;
      var j' := if j < k then j else j - 1;
      assert i != k ==> ms[i] == ns[i'];
      assert j != k ==> ms[j] == ns[j'];
    }
  }

  /** Pointing t and its predecessor the right way is all it takes to insert t. */
  lemma LinkedIn(ns: seq<Timer>, ts: seq<int>, k: nat, t: Timer, w: int)
    requires ns != [] && |ns| == |ts| && Distinct(ns) && 0 < k < |ns| && t !in ns && ns[|ns| - 1].next == null
    requires forall i {:trigger ns[i].next} :: 0 <= i < |ns| - 1 && i != k - 1 ==> ns[i].next == ns[i + 1]
    requires forall i {:trigger ns[i].waketime} :: 0 <= i < |ns| ==> ns[i].waketime == Word(ts[i])
    requires ns[k - 1].next == t && t.next == ns[k] && t.waketime == Word(w)
    ensures List(Insert(ns, k, t), Insert(ts, k, w))
  {
    var ms, us := Insert(ns, k, t), Insert(ts, k, w);
    DistinctInsert(ns, k, t);
    forall i | 0 <= i < |ms|
      ensures ms[i].waketime == Word(us[i])
      ensures i < |ms| - 1 ==> ms[i].next == ms[i + 1]
      ensures i == |ms| - 1 ==> ms[i].next == null
    {
      if i < k {
        assert ms[i] == ns[i] && us[i] == ts[i] && ns[i].waketime == Word(ts[i]);
        assert i != k - 1 ==> ns[i].next == ns[i + 1];
      } else if i > k {
        assert ms[i] == ns[i - 1] && us[i] == ts[i - 1] && ns[i - 1].waketime == Word(ts[i - 1]);
        assert i < |ms| - 1 ==> ns[i - 1].next == ns[i] && ms[i + 1] == ns[i];
      }
    }
  }

  lemma ListCons(t: Timer, w: int, ns: seq<Timer>, ts: seq<int>)
    requires List(ns, ts) && t !in ns && t.next == ns[0] && t.waketime == Word(w)
    ensures List([t] + ns, [w] + ts)
  {
    var ms, us := [t] + ns, [w] + ts;
    forall i | 0 < i < |ms|
      ensures ms[i].waketime == Word(us[i])
      ensures i < |ms| - 1 ==> ms[i].next == ms[i + 1]
    {
      assert ms[i] == ns[i - 1] && us[i] == ts[i - 1] && ns[i - 1].waketime == Word(ts[i - 1]);
      assert i < |ms| - 1 ==> ns[i - 1].next == ns[i] == ms[i + 1];
    }
  }

  lemma ListDistinct(ns: seq<Timer>, ts: seq<int>)
    requires List(ns, ts)
    ensures Distinct(ns)
  {
  }

  lemma ListShaped(ns: seq<Timer>, ts: seq<int>)
    requires List(ns, ts)
    ensures |ns| == |ts| > 0
  {
  }

  /** Behind its first c nodes the list is a list. */
  lemma ListDrop(ns: seq<Timer>, ts: seq<int>, c: nat)
    requires List(ns, ts) && c < |ns|
    ensures List(ns[c..], ts[c..]) && (c > 0 ==> ns[c - 1].next == ns[c] && ns[c - 1] !in ns[c..])
  {
    var ms, us := ns[c..], ts[c..];
    forall i | 0 <= i < |ms|
      ensures ms[i].waketime == Word(us[i])
      ensures i < |ms| - 1 ==> ms[i].next == ms[i + 1]
    {
      assert ms[i] == ns[i + c] && us[i] == ts[i + c] && ns[i + c].waketime == Word(ts[i + c]);
      assert i < |ms| - 1 ==> ns[i + c].next == ns[i + c + 1];
    }
    assert c > 0 ==> ns[c - 1].next == ns[c];
  }

  /** A new wake time for one node, and the list as it was otherwise. */
  lemma ListTouched(ns: seq<Timer>, ts: seq<int>, k: nat, w: int)
    requires ns != [] && |ns| == |ts| && Distinct(ns) && k < |ns| && ns[|ns| - 1].next == null
    requires forall i {:trigger ns[i].next} :: 0 <= i < |ns| - 1 ==> ns[i].next == ns[i + 1]
    requires forall i {:trigger ns[i].waketime} :: 0 <= i < |ns| && i != k ==> ns[i].waketime == Word(ts[i])
    requires ns[k].waketime == Word(w)
    ensures List(ns, ts[k := w])
  {
  }

  lemma ListSize(ns: seq<Timer>, ts: seq<int>)
    requires List(ns, ts)
    ensures ns != [] && |ns| == |ts|
  {
  }

  lemma FrontNode(ns: seq<Timer>, ts: seq<int>, p: nat)
    requires List(ns, ts) && Clock(ts, p)
    ensures ns != [] && |ns| == |ts| && ns[0].waketime == Word(ts[0]) && p < |ts|
  {
  }

  lemma ListNode(ns: seq<Timer>, ts: seq<int>, i: nat)
    requires List(ns, ts) && i < |ns|
    ensures |ns| == |ts| && ns[i].waketime == Word(ts[i])
  {
  }

  /** Pointing the predecessor past node k is all it takes to remove it. */
  lemma LinkedOut(ns: seq<Timer>, ts: seq<int>, k: nat)
    requires |ns| == |ts| && Distinct(ns) && 0 < k < |ns| - 1 && ns[|ns| - 1].next == null
    requires forall i {:trigger ns[i].next} :: 0 <= i < |ns| - 1 && i != k - 1 ==> ns[i].next == ns[i + 1]
    requires forall i {:trigger ns[i].waketime} :: 0 <= i < |ns| ==> ns[i].waketime == Word(ts[i])
    requires ns[k - 1].next == ns[k + 1]
    ensures List(Remove(ns, k), Remove(ts, k))
  {
    var ms, us := Remove(ns, k), Remove(ts, k);
    forall i | 0 <= i < |ms|
      ensures ms[i].waketime == Word(us[i])
      ensures i < |ms| - 1 ==> ms[i].next == ms[i + 1]
      ensures i == |ms| - 1 ==> ms[i].next == null
    {
      var j := if i < k then i else i + 1;
      assert ms[i] == ns[j] && us[i] == ts[j] && ns[j].waketime == Word(ts[j]);
      assert j < |ns| - 1 && j != k - 1 ==> ns[j].next == ns[j + 1];
    }
    forall i, j | 0 <= i < j < |ms|
      ensures ms[i] != ms[j]
    {
      assert ms[i] == ns[if i < k then i else i + 1] && ms[j] == ns[if j < k then j else j + 1];
    }
  }

  // ---------------------------------------------------------------- the scheduler's own timers

  datatype Own = Own(periodic: Timer, sentinel: Timer, deleted: Timer) {
    ghost function All(): set<Timer> {
      {periodic, sentinel, deleted}
    }
  }

  /** The periodic timer is at index p, the sentinel last, and the placeholder at most first. */
  ghost predicate Specials(ns: seq<Timer>, p: nat, o: Own) {
    && p < |ns| && ns[p] == o.periodic && ns[|ns| - 1] == o.sentinel
    && forall i :: 0 < i < |ns| ==> ns[i] != o.deleted
  }

  lemma SpecialsDrop(ns: seq<Timer>, p: nat, o: Own, c: nat)
    requires Specials(ns, p, o) && c <= p
    ensures Specials(ns[c..], p - c, o) && (c > 0 ==> o.deleted !in ns[c..])
  {
  }

  lemma SpecialsFront(ns: seq<Timer>, p: nat, o: Own, t: Timer)
    requires Specials(ns, p, o) && o.deleted !in ns && t != o.deleted
    ensures Specials([o.deleted] + ([t] + ns), p + 2, o)
  {
  }

  lemma SpecialsSwap(ns: seq<Timer>, p: nat, o: Own)
    requires Specials(ns, p, o) && 0 < p && |ns| > 1
    ensures Specials([o.deleted] + ns[1..], p, o) && o.deleted !in ns[1..]
    ensures o.periodic in [o.deleted] + ns[1..]
  {
    assert ([o.deleted] + ns[1..])[p] == o.periodic;
  }

  lemma SpecialsRemove(ns: seq<Timer>, p: nat, o: Own, k: nat, hint: Timer)
    requires Specials(ns, p, o) && 0 < k < |ns| - 1 && k != p && hint in ns
    ensures Specials(Remove(ns, k), if p < k then p else p - 1, o)
    ensures o.periodic in Remove(ns, k) && (hint in Remove(ns, k) || hint == ns[k])
    ensures Remove(ns, k)[0] == ns[0]
  {
    hide Remove;
    var ms := Remove(ns, k);
    assert ms[if p < k then p else p - 1] == o.periodic;
    var h :| 0 <= h < |ns| && ns[h] == hint;
    assert h != k ==> ms[if h < k then h else h - 1] == hint;
  }

  /** Taking a user timer out of the middle keeps everything else in place. */
  lemma RemoveFacts(ns: seq<Timer>, ts: seq<int>, p: nat, o: Own, k: nat, hint: Timer)
    requires |ns| == |ts| && Clock(ts, p) && Specials(ns, p, o) && 0 < k < |ns| && hint in ns
    requires ns[k] != o.periodic && ns[k] != o.sentinel
    ensures k < |ns| - 1 && Clock(Remove(ts, k), if p < k then p else p - 1)
    ensures Specials(Remove(ns, k), if p < k then p else p - 1, o)
    ensures o.periodic in Remove(ns, k) && (hint in Remove(ns, k) || hint == ns[k])
    ensures Remove(ns, k)[0] == ns[0] && Remove(ts, k)[0] == ts[0]
  {
    ClockRemove(ts, p, k);
    SpecialsRemove(ns, p, o, k, hint);
  }

  lemma SpecialsInsert(ns: seq<Timer>, p: nat, o: Own, k: nat, t: Timer)
    requires Specials(ns, p, o) && 0 < k < |ns| && t != o.deleted
    ensures Specials(Insert(ns, k, t), if p < k then p else p + 1, o)
    ensures Insert(ns, k, t)[0] == ns[0] && forall x :: x in ns ==> x in Insert(ns, k, t)
  {
    hide Insert;
    forall x | x in ns
      ensures x in Insert(ns, k, t)
    {
      var h :| 0 <= h < |ns| && ns[h] == x;
      assert Insert(ns, k, t)[if h < k then h else h + 1] == x;
    }
  }

  lemma SpecialsPutBack(rest: seq<Timer>, o: Own, k: nat)
    requires 0 < k < |rest| && rest[|rest| - 1] == o.sentinel && o.deleted !in rest && o.periodic != o.deleted
    ensures Specials(Insert(rest, k, o.periodic), k, o) && Insert(rest, k, o.periodic)[0] == rest[0]
    ensures o.periodic in Insert(rest, k, o.periodic)
  {
    hide Insert;
    assert Insert(rest, k, o.periodic)[k] == o.periodic;
  }

  lemma NotSentinel(ns: seq<Timer>, ts: seq<int>, p: nat, o: Own)
    requires List(ns, ts) && Clock(ts, p) && Specials(ns, p, o) && ns[0] != o.periodic
    ensures |ns| == |ts| > 2 && 0 < p && ns[0] != o.sentinel && ns[1] != o.sentinel && ns[1] != o.deleted
  {
    hide Clock;
    ClockSize(ts, p);
  }

  lemma ClockSize(ts: seq<int>, p: nat)
    requires Clock(ts, p)
    ensures p < |ts| - 1
  {
  }

  /** A hint behind the first c nodes, other than the sentinel, is within half a wrap of the time there. */
  lemma HintInWindow(ns: seq<Timer>, ts: seq<int>, p: nat, c: nat, hint: Timer)
    requires |ns| == |ts| && Clock(ts, p) && c < |ns| && hint in ns[c..] && hint != ns[|ns| - 1]
    ensures exists h :: 0 <= h < |ns| - c - 1 && hint == ns[c..][h] && ts[c] <= ts[c..][h] < ts[0] + HALF
  {
    var h :| 0 <= h < |ns[c..]| && ns[c..][h] == hint;
    assert ns[c + h] == hint && ts[c] <= ts[c + h] == ts[c..][h];
  }

  // ---------------------------------------------------------------- the user's timers

  /** The timers in the list that are not the scheduler's own. */
  ghost function UserSet(ns: seq<Timer>, own: set<Timer>): set<Timer> {
    (set t | t in ns) - own
  }

  lemma UserInsert(ns: seq<Timer>, k: nat, t: Timer, own: set<Timer>)
    requires k <= |ns|
    ensures UserSet(Insert(ns, k, t), own) == UserSet(ns, own) + ({t} - own)
  {
  }

  lemma UserAbsent(ns: seq<Timer>, t: Timer, own: set<Timer>)
    requires t !in ns
    ensures UserSet(ns, own) == UserSet(ns, own) - {t}
  {
  }

  lemma UserRemove(ns: seq<Timer>, k: nat, own: set<Timer>)
    requires Distinct(ns) && k < |ns|
    ensures UserSet(Remove(ns, k), own) == UserSet(ns, own) - {ns[k]}
  {
    var ms := Remove(ns, k);
    forall x | x in ns && x != ns[k]
      ensures x in ms
    {
      var i :| 0 <= i < |ns| && ns[i] == x;
      assert ms[if i < k then i else i - 1] == x;
    }
    assert ns[k] !in ms;
  }

  lemma UserCons(t: Timer, ns: seq<Timer>, own: set<Timer>)
    ensures UserSet([t] + ns, own) == UserSet(ns, own) + ({t} - own)
  {
  }
}
