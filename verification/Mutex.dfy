/**
 The reactor's mutex between cooperating greenlets: a flag, a pending hand-over, and a queue of
 waiters. A greenlet runs undisturbed until it pauses, so each call up to its pause is one step.
 */
module Mutex {
  import opened Options

  /** What a greenlet experiences: its lock call returns, or it unlocks. */
  datatype Act<G> = Acquired(g: G) | Released(g: G)

  /** Holders take turns: every acquisition is followed by the same holder's release. */
  ghost predicate Exclusive<G>(h: seq<Act<G>>) {
    forall i :: 0 <= i < |h| ==> TurnAt(h, i)
  }

  ghost predicate TurnAt<G>(h: seq<Act<G>>, i: nat)
    requires i < |h|
  {
    if i % 2 == 0 then h[i].Acquired? else h[i].Released? && h[i - 1].Acquired? && h[i - 1].g == h[i].g
  }

  /** Who holds the lock after a history. */
  ghost function HolderOf<G>(h: seq<Act<G>>): Option<G> {
    if |h| > 0 && h[|h| - 1].Acquired? then Some(h[|h| - 1].g) else None
  }

  /** The greenlets of the acquisitions, in order. */
  ghost function Winners<G>(h: seq<Act<G>>): seq<G> {
    if h == [] then []
    else Winners(h[..|h| - 1]) + if h[|h| - 1].Acquired? then [h[|h| - 1].g] else []
  }

  lemma TakeTurn<G>(h: seq<Act<G>>, g: G)
    requires Exclusive(h) && HolderOf(h).None?
    ensures var h' := h + [Acquired(g)];
            Exclusive(h') && HolderOf(h') == Some(g) && Winners(h') == Winners(h) + [g]
  {
    var h' := h + [Acquired(g)];
    assert h'[..|h|] == h;
    assert |h| > 0 ==> TurnAt(h, |h| - 1);
    forall i | 0 <= i < |h'|
      ensures TurnAt(h', i)
    {
      if i < |h| {
        assert TurnAt(h, i);
      }
    }
  }

  lemma EndTurn<G>(h: seq<Act<G>>, g: G)
    requires Exclusive(h) && HolderOf(h) == Some(g)
    ensures var h' := h + [Released(g)];
            Exclusive(h') && HolderOf(h').None? && Winners(h') == Winners(h)
  {
    var h' := h + [Released(g)];
    assert h'[..|h|] == h;
    assert TurnAt(h, |h| - 1);
    forall i | 0 <= i < |h'|
      ensures TurnAt(h', i)
    {
      if i < |h| {
        assert TurnAt(h, i);
      }
    }
  }

  /** A mutex as its users see it: what happened, who waits, and whether the first waiter is promised the lock. */
  datatype View<G> = View(history: seq<Act<G>>, queue: seq<G>, promised: bool)

  class ReactorMutex<G(==)> {
    var isLocked: bool
    var nextPending: bool
    var queue: seq<G>
    var woken: set<G>  // greenlets whose timer has been set to fire now
    ghost var requests: seq<G>       // lock calls, in order
    ghost var history: seq<Act<G>>

    ghost predicate Valid()
      reads this
    {
      && Exclusive(history)
      && (isLocked <==> HolderOf(history).Some? || nextPending)
      && (nextPending ==> HolderOf(history).None? && queue != [] && queue[0] in woken)
      && (!isLocked ==> queue == [])
      && Winners(history) + queue == requests
    }

    ghost function State(): View<G>
      reads this
    {
      View(history, queue, nextPending)
    }

    /** A mutex may be created locked, on behalf of its creator. */
    constructor (isLocked: bool, ghost creator: G)
      ensures Valid() && queue == [] && this.isLocked == isLocked
      ensures HolderOf(history) == if isLocked then Some(creator) else None
      ensures !nextPending && requests == (if isLocked then [creator] else [])
      ensures history == if isLocked then [Acquired(creator)] else []
    {
      this.isLocked, nextPending, queue, woken := isLocked, false, [], {};
      requests := if isLocked then [creator] else [];
      history := if isLocked then [Acquired(creator)] else [];
      assert isLocked ==> TurnAt([Acquired(creator)], 0);
      assert [Acquired(creator)][..0] == [];
    }

    /** lock, up to its return or its first pause */
    method Lock(g: G) returns (got: bool)
      requires Valid() && g !in queue
      modifies this
      ensures Valid() && requests == old(requests) + [g]
      ensures (got <==> !old(isLocked)) && nextPending == old(nextPending)
      ensures got ==> history == old(history) + [Acquired(g)] && queue == old(queue)
      ensures !got ==> history == old(history) && queue == old(queue) + [g]
      ensures woken == old(woken)
    {
      hide Exclusive, HolderOf, Winners;
      requests := requests + [g];
      if !isLocked {
        isLocked := true;
        TakeTurn(history, g);
        history := history + [Acquired(g)];
        return true;
      }
      assert Winners(history) + (queue + [g]) == Winners(history) + queue + [g];
      queue := queue + [g];
      got := false;
    }

    /** A waiter's timer fires, for whatever reason; it returns from lock or pauses again. */
    method Resume(g: G) returns (got: bool)
      requires Valid() && g in queue
      modifies this
      ensures Valid() && requests == old(requests)
      ensures (got <==> old(nextPending && queue[0] == g)) && nextPending == (old(nextPending) && !got)
      ensures got ==> history == old(history) + [Acquired(g)] && queue == old(queue)[1..]
      ensures !got ==> history == old(history) && queue == old(queue)
      ensures woken == old(woken) - {g}
    {
      hide Exclusive, HolderOf, Winners;
      woken := woken - {g};
      if nextPending && queue[0] == g {
        nextPending := false;
        TakeTurn(history, g);
        assert Winners(history) + queue == Winners(history) + [g] + queue[1..];
        queue := queue[1..];
        history := history + [Acquired(g)];
        return true;
      }
      got := false;
    }

    /** unlock, by the greenlet that holds the lock */
    method Unlock(ghost g: G)
      requires Valid() && HolderOf(history) == Some(g)
      modifies this
      ensures Valid() && requests == old(requests) && queue == old(queue)
      ensures history == old(history) + [Released(g)]
      ensures (isLocked <==> queue != []) && (nextPending <==> queue != [])
      ensures woken == old(woken) + if queue != [] then {queue[0]} else {}
    {
      hide Exclusive, HolderOf, Winners;
      EndTurn(history, g);
      history := history + [Released(g)];
      if queue == [] {
        isLocked := false;
        return;
      }
      nextPending := true;
      woken := woken + {queue[0]};
    }
  }

  // ---------------------------------------------------------------- whole runs

  datatype Event<G> = Lock(g: G) | Resume(g: G) | Unlock(g: G)

  /** A greenlet that waits does nothing but resume, and only the holder unlocks; anything else is no event. */
  ghost function After<G>(v: View<G>, e: Event<G>): View<G> {
    match e
    case Lock(g) =>
      if g in v.queue then v
      else if HolderOf(v.history).None? && !v.promised then v.(history := v.history + [Acquired(g)])
      else v.(queue := v.queue + [g])
    case Resume(g) =>
      if v.promised && v.queue != [] && v.queue[0] == g
      then View(v.history + [Acquired(g)], v.queue[1..], false)
      else v
    case Unlock(g) =>
      if HolderOf(v.history) == Some(g) && g !in v.queue
      then v.(history := v.history + [Released(g)], promised := v.queue != [])
      else v
  }

  ghost function AfterAll<G>(v: View<G>, es: seq<Event<G>>): View<G> {
    if es == [] then v else After(AfterAll(v, es[..|es| - 1]), es[|es| - 1])
  }

  /** The lock calls among the events, in order: those of greenlets that do not wait already. */
  ghost function Asked<G>(v: View<G>, es: seq<Event<G>>): seq<G> {
    if es == [] then [] else
    var init, e := es[..|es| - 1], es[|es| - 1];
    Asked(v, init) + if e.Lock? && e.g !in AfterAll(v, init).queue then [e.g] else []
  }

  lemma AfterNext<G>(v: View<G>, es: seq<Event<G>>, i: nat)
    requires i < |es|
    ensures AfterAll(v, es[..i + 1]) == After(AfterAll(v, es[..i]), es[i])
    ensures Asked(v, es[..i + 1]) ==
            Asked(v, es[..i]) +
            if es[i].Lock? && es[i].g !in AfterAll(v, es[..i]).queue then [es[i].g] else []
  {
    assert es[..i + 1][..i] == es[..i];
  }

  method Perform<G(==)>(m: ReactorMutex<G>, holder: Option<G>, e: Event<G>) returns (next: Option<G>)
    requires m.Valid() && holder == HolderOf(m.history)
    modifies m
    ensures m.Valid() && next == HolderOf(m.history) && m.State() == After(old(m.State()), e)
    ensures m.requests == old(m.requests) + if e.Lock? && e.g !in old(m.queue) then [e.g] else []
  {
    hide Exclusive, Winners;
    var got := false;
    next := holder;
    if e.Lock? && e.g !in m.queue {
      got := m.Lock(e.g);
    } else if e.Resume? && e.g in m.queue {
      got := m.Resume(e.g);
    } else if e.Unlock? && holder == Some(e.g) && e.g !in m.queue {
      m.Unlock(e.g);
      next := None;
    }
    if got {
      next := Some(e.g);
    }
  }

  /**
   Any number of greenlets, any order of calls and wake-ups: the mutex is where the events lead, holders take
   turns, locks are granted in the order in which the events ask for them, and a free but promised lock always
   has its next owner woken.
   */
  method RunMutex<G(==)>(creator: G, isLocked: bool, events: seq<Event<G>>) returns (m: ReactorMutex<G>)
    ensures var start := View(if isLocked then [Acquired(creator)] else [], [], false);
            && m.Valid() && m.State() == AfterAll(start, events)
            && m.requests == (if isLocked then [creator] else []) + Asked(start, events)
    ensures Exclusive(m.history) && Winners(m.history) + m.queue == m.requests
    ensures m.isLocked && HolderOf(m.history).None? ==> m.queue != [] && m.queue[0] in m.woken
    ensures !m.isLocked ==> Winners(m.history) == m.requests
  {
    hide Exclusive, Winners, AfterAll, Asked, After, HolderOf;
    m := new ReactorMutex(isLocked, creator);
    var holder := if isLocked then Some(creator) else None;
    ghost var start := m.State();
    NoEvents(start, events);
    for i := 0 to |events|
      invariant fresh(m) && m.Valid() && holder == HolderOf(m.history)
      invariant m.State() == AfterAll(start, events[..i])
      invariant m.requests == (if isLocked then [creator] else []) + Asked(start, events[..i])
    {
      AfterNext(start, events, i);
      holder := Perform(m, holder, events[i]);
    }
    assert events[..|events|] == events;
  }

  lemma NoEvents<G>(v: View<G>, es: seq<Event<G>>)
    ensures AfterAll(v, es[..0]) == v && Asked(v, es[..0]) == []
  {
  }
}
