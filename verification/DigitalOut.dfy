/**
 A digital output pin of the micro-controller, with software PWM and a safety timeout.

 Every clock field holds the true tick count it stands for; the program only ever compares the
 low 32 bits of two clocks.
 */
module DigitalOut {
  import opened Ticks

  /** timer_is_before on the 32-bit values of two clocks. */
  predicate Before(a: int, b: int) {
    IsBefore(Word(a), Word(b))
  }

  /** Two clocks that the firmware can compare. */
  predicate Comparable(a: int, b: int) {
    -HALF <= a - b < HALF
  }

  lemma BeforeIsEarlier(a: int, b: int)
    requires Comparable(a, b)
    ensures Before(a, b) <==> a < b
  {
    IsBeforeIsEarlier(a, b);
  }

  datatype Update = Update(waketime: int, onDuration: nat)

  datatype Handler = ToggleEvent | LoadEvent

  datatype Effect = Applied | ShutDown

  // ---------------------------------------------------------------- what each event does

  /** The state of a pin, as a value. */
  datatype Snapshot = Snapshot(
    defaultOn: bool, maxDuration: nat, cycleTime: nat, level: bool, toggling: bool, checkEnd: bool, endTime: int,
    onDuration: nat, offDuration: nat, armed: bool, handler: Handler, wake: int, queue: seq<Update>,
    now: int, lastLoad: int)
  {
    /** The output needs a refresh: it is pulsing, or held away from its default. */
    ghost predicate Risky() {
      toggling || level != defaultOn
    }

    /** What every event keeps. */
    ghost predicate Sound() {
      // the timer leads to a load at endTime
      && (checkEnd ==> armed && (if handler == LoadEvent then wake == endTime else wake < endTime))
      && (armed ==> if handler == LoadEvent then checkEnd else toggling)
      && (toggling ==> armed && (handler == ToggleEvent ==> onDuration > 0 && offDuration > 0))
      // a queued update is loaded when it asked to be
      && (queue != [] ==> checkEnd && endTime == queue[0].waketime)
      && (checkEnd && maxDuration == 0 ==> queue != [])
      // the timeout
      && (maxDuration > 0 && Risky() ==>
            checkEnd && endTime <= lastLoad + maxDuration && now <= lastLoad + maxDuration)
    }

    /** The timeout: such an output was set recently, and its timer leads to a load in time. */
    ghost predicate Covered() {
      maxDuration > 0 && Risky() ==>
        && now <= lastLoad + maxDuration
        && armed && checkEnd && wake <= endTime <= lastLoad + maxDuration
        && (handler == LoadEvent ==> wake == endTime)
    }

    /** The first update needs a refresh within the timeout, and the second one comes after it. */
    ghost predicate TooLate()
      requires queue != []
    {
      var m := queue[0];
      && maxDuration > 0 && (0 < m.onDuration < cycleTime || (m.onDuration > 0) != defaultOn)
      && |queue| > 1 && queue[1].waketime > wake + maxDuration
    }
  }

  /** Shut down: at the default, with nothing queued or armed. */
  ghost predicate Off(a: Snapshot, b: Snapshot) {
    && b.level == b.defaultOn == a.defaultOn && b.maxDuration == a.maxDuration
    && !b.toggling && !b.checkEnd && !b.armed && b.queue == [] && b.now == a.now && b.cycleTime == a.cycleTime
  }

  /** The level flips, and the next event is the next edge or, at the end of the pulses, the load. */
  ghost predicate Toggled(a: Snapshot, b: Snapshot) {
    var w := a.wake + if b.level then a.onDuration else a.offDuration;
    var last := a.checkEnd && w >= a.endTime;
    b == a.(level := !a.level, handler := if last then LoadEvent else ToggleEvent,
            wake := if last then a.endTime else w)
  }

  /** The first update is applied, and the timer armed for what comes next. */
  ghost predicate Loaded(a: Snapshot, b: Snapshot)
    requires a.queue != []
  {
    var on := a.queue[0].onDuration;
    var pulses := b.toggling && (b.checkEnd ==> a.wake + on < b.endTime);
    && b.defaultOn == a.defaultOn && b.maxDuration == a.maxDuration && b.cycleTime == a.cycleTime && b.now == a.now
    && b.queue == a.queue[1..] && b.lastLoad == a.now && b.level == (on > 0) && b.toggling == (0 < on < a.cycleTime)
    && b.checkEnd == (b.queue != [] || (a.maxDuration > 0 && b.Risky()))
    && (b.checkEnd ==> b.endTime == if b.queue != [] then b.queue[0].waketime else a.wake + a.maxDuration)
    && b.armed == (b.toggling || b.checkEnd)
    && (pulses ==>
          b.handler == ToggleEvent && b.wake == a.wake + on && b.onDuration == on && on + b.offDuration == a.cycleTime)
    && (!pulses && b.armed ==> b.handler == LoadEvent && b.wake == b.endTime)
  }

  /** An update joins the queue; the first one also sets the timer, unless the next edge comes before it. */
  ghost predicate Enqueued(a: Snapshot, time: int, ticks: nat, b: Snapshot) {
    var c := a.(queue := a.queue + [Update(time, ticks)]);
    b == if a.queue != [] then c
         else if a.toggling && a.wake < time then c.(endTime := time, checkEnd := true)
         else c.(endTime := time, checkEnd := true, armed := true, wake := time, handler := LoadEvent)
  }

  /** The update would exceed the timeout, or its time has passed. */
  ghost predicate Refused(a: Snapshot, time: int, tooLate: bool) {
    && a.queue == []
    && ((a.checkEnd && time > a.endTime) || (tooLate && !(a.toggling && a.wake < time)))
  }

  /** A level set at once, with its timeout armed if it needs one. */
  ghost predicate SetAtOnce(a: Snapshot, value: bool, b: Snapshot) {
    var c := a.(level := value, toggling := false, checkEnd := false, armed := false, lastLoad := a.now);
    b == if value == a.defaultOn || a.maxDuration == 0 then c
         else c.(checkEnd := true, armed := true, handler := LoadEvent,
                 endTime := a.now + a.maxDuration, wake := a.now + a.maxDuration)
  }

  // ---------------------------------------------------------------- what the pin outputs

  /** Some edges in a row, none of them the last before a load. */
  ghost predicate Edges(ss: seq<Snapshot>) {
    forall k :: 0 <= k < |ss| - 1 ==> Edge(ss[k], ss[k + 1])
  }

  ghost predicate Edge(a: Snapshot, b: Snapshot) {
    Toggled(a, b) && b.handler == ToggleEvent
  }

  /**
   The pulses: from a level set at `start` on, the pin is high for the on-time and low for the rest of each
   cycle, and the k-th state holds until the edge that ends it.
   */
  lemma {:induction false} PulseTrain(ss: seq<Snapshot>, start: int, cycle: nat, k: nat)
    requires Edges(ss) && k < |ss| && ss[0].level && ss[0].wake == start + ss[0].onDuration
    requires ss[0].onDuration + ss[0].offDuration == cycle
    ensures var on, n := ss[0].onDuration, k / 2;
            && ss[k].level == (k % 2 == 0) && ss[k].onDuration == on && ss[k].onDuration + ss[k].offDuration == cycle
            && ss[k].wake == start + n * cycle + if k % 2 == 0 then on else cycle
    decreases k
  {
    if k > 0 {
      PulseTrain(ss, start, cycle, k - 1);
      assert Edge(ss[k - 1], ss[k]);
      if k % 2 == 0 {
        assert (k - 1) / 2 == k / 2 - 1;
      } else {
        assert (k - 1) / 2 == k / 2;
      }
    }
  }

  /** A load applies the oldest update, at the time it asked for, and starts its pulses if it has any. */
  lemma LoadMeans(a: Snapshot, b: Snapshot)
    requires a.Sound() && a.armed && a.handler == LoadEvent && a.queue != [] && Loaded(a, b)
    ensures var m := a.queue[0];
            && a.wake == m.waketime && b.queue == a.queue[1..]
            && (b.level <==> m.onDuration > 0) && (b.toggling <==> 0 < m.onDuration < a.cycleTime)
            && (b.armed && b.handler == ToggleEvent ==>
                  b.wake == m.waketime + m.onDuration && b.onDuration == m.onDuration
                  && b.onDuration + b.offDuration == a.cycleTime)
            && (|a.queue| > 1 ==> b.checkEnd && b.endTime == a.queue[1].waketime)
            && (|a.queue| == 1 ==> (b.checkEnd <==> a.maxDuration > 0 && b.Risky()))
            && (|a.queue| == 1 && b.checkEnd ==> b.endTime == m.waketime + a.maxDuration)
  {
    assert |a.queue| > 1 ==> b.queue[0] == a.queue[1];
  }

  /** A queued update waits behind the others; the first one is loaded next, when it asks to be. */
  lemma EnqueueMeans(a: Snapshot, time: int, ticks: nat, b: Snapshot)
    requires a.Sound() && !Refused(a, time, false) && Enqueued(a, time, ticks, b)
    ensures b.queue == a.queue + [Update(time, ticks)] && b.level == a.level && b.toggling == a.toggling
    ensures b.lastLoad == a.lastLoad && b.now == a.now && b.cycleTime == a.cycleTime
    ensures b.checkEnd && b.armed && b.endTime == b.queue[0].waketime
    ensures b.handler == LoadEvent ==> b.wake == b.endTime
    ensures a.queue == [] && !a.toggling ==> b.wake == time
  {
  }

  /** An update is refused exactly when it is the first one, and leaves a gap behind the timeout or is late itself. */
  lemma RefusedMeans(a: Snapshot, time: int)
    ensures Refused(a, time, false) <==> a.queue == [] && a.checkEnd && time > a.endTime
    ensures Refused(a, time, true) <==>
            a.queue == [] && ((a.checkEnd && time > a.endTime) || !a.toggling || time <= a.wake)
  {
  }

  /** An update is too late to load exactly when it needs a refresh and the next one is beyond the timeout. */
  lemma TooLateMeans(a: Snapshot)
    requires a.Sound() && a.armed && a.handler == LoadEvent && a.queue != []
    ensures var m := a.queue[0];
            a.TooLate() <==>
            && a.maxDuration > 0 && |a.queue| > 1 && a.queue[1].waketime - m.waketime > a.maxDuration
            && ((m.onDuration > 0 && m.onDuration < a.cycleTime) || (m.onDuration == 0 && a.defaultOn)
                || (m.onDuration > 0 && !a.defaultOn))
  {
  }

  /** A level set at once, and its timeout. */
  lemma SetMeans(a: Snapshot, value: bool, b: Snapshot)
    requires SetAtOnce(a, value, b)
    ensures b.level == value && !b.toggling && b.queue == a.queue && b.lastLoad == b.now == a.now
    ensures b.armed <==> a.maxDuration > 0 && value != a.defaultOn
    ensures b.armed ==> b.checkEnd && b.handler == LoadEvent && b.wake == b.endTime == a.now + a.maxDuration
  {
  }

  lemma OffIsSound(a: Snapshot, b: Snapshot)
    requires Off(a, b)
    ensures b.Sound()
  {
  }

  lemma ToggleKeepsSound(a: Snapshot, b: Snapshot)
    requires a.Sound() && a.armed && a.handler == ToggleEvent && Toggled(a, b)
    ensures b.Sound() && b.wake > a.wake
  {
  }

  lemma LoadKeepsSound(a: Snapshot, b: Snapshot)
    requires a.Sound() && a.now >= a.wake && a.queue != [] && !a.TooLate() && Loaded(a, b)
    ensures b.Sound()
  {
    assert |a.queue| > 1 ==> b.queue[0] == a.queue[1];
  }

  lemma EnqueueKeepsSound(a: Snapshot, time: int, ticks: nat, b: Snapshot)
    requires a.Sound() && !Refused(a, time, false) && Enqueued(a, time, ticks, b)
    ensures b.Sound()
  {
  }

  lemma SetIsSound(a: Snapshot, value: bool, b: Snapshot)
    requires a.queue == [] && SetAtOnce(a, value, b)
    ensures b.Sound()
  {
  }

  class Pin {
    const defaultOn: bool
    const maxDuration: nat
    var cycleTime: nat
    var level: bool          // what the pin outputs
    var isOn: bool           // DF_ON
    var toggling: bool       // DF_TOGGLING
    var checkEnd: bool       // DF_CHECK_END
    var endTime: int
    var onDuration: nat
    var offDuration: nat
    var armed: bool          // the timer is in the scheduler's list
    var handler: Handler
    var wake: int
    var queue: seq<Update>
    var now: int             // the clock
    ghost var lastLoad: int  // when the present output was set

    ghost function State(): Snapshot
      reads this
    {
      Snapshot(defaultOn, maxDuration, cycleTime, level, toggling, checkEnd, endTime,
               onDuration, offDuration, armed, handler, wake, queue, now, lastLoad)
    }

    ghost predicate Valid()
      reads this
    {
      level == isOn && State().Sound()
    }

    /** config_digital_out: safe from the start exactly when no timeout is set or the pin starts at its default. */
    constructor (value: bool, defaultOn: bool, maxDuration: nat, now: int)
      ensures Valid() <==> maxDuration == 0 || value == defaultOn
      ensures level == value && this.defaultOn == defaultOn && this.maxDuration == maxDuration
      ensures !armed && !toggling && !checkEnd && queue == [] && cycleTime == 0 && this.now == now
    {
      this.defaultOn, this.maxDuration := defaultOn, maxDuration;
      level, isOn, toggling, checkEnd := value, value, false, false;
      cycleTime, endTime, onDuration, offDuration, wake := 0, 0, 0, 0, 0;
      armed, handler, queue := false, LoadEvent, [];
      this.now, lastLoad := now, now;
    }

    /** digital_out_shutdown, after the scheduler has dropped all timers. */
    method Shutdown()
      modifies this
      ensures Valid() && Off(old(State()), State())
    {
      armed := false;
      level := defaultOn;
      isOn, toggling, checkEnd := defaultOn, false, false;
      queue := [];
      OffIsSound(old(State()), State());
    }

    /** The clock moves on, but not past a timer that is due. */
    method Tick(time: int)
      requires Valid() && now <= time && (armed ==> time <= now || time <= wake)
      modifies `now
      ensures Valid() && State() == old(State()).(now := time)
    {
      now := time;
    }

    /** digital_toggle_event */
    method Toggle()
      requires Valid() && armed && handler == ToggleEvent && now >= wake
      requires checkEnd ==> Comparable(wake + (if isOn then offDuration else onDuration), endTime)
      modifies `level, `isOn, `handler, `wake
      ensures Valid() && Toggled(old(State()), State()) && wake > old(wake) && now == old(now)
    {
      hide Comparable, IsBefore, Word, Snapshot.Sound;
      level := !level;
      isOn := !isOn;
      var waketime := wake;
      if isOn {
        waketime := waketime + onDuration;
      } else {
        waketime := waketime + offDuration;
      }
      if checkEnd {
        BeforeIsEarlier(waketime, endTime);
      }
      if checkEnd && !Before(waketime, endTime) {
        handler := LoadEvent;
        waketime := endTime;
      }
      wake := waketime;
      ToggleKeepsSound(old(State()), State());
    }

    /** The clocks compared when the head of a non-empty queue is loaded. */
    predicate LoadComparable()
      reads this
    {
      queue != [] ==>
        var limit := wake + maxDuration;
        var end := if |queue| > 1 then queue[1].waketime else limit;
        && (|queue| > 1 ==> Comparable(limit, end))
        && Comparable(wake + queue[0].onDuration, end)
    }

    /** digital_load_event: apply the next update, or shut the machine down when there is none. */
    method Load() returns (effect: Effect)
      requires Valid() && armed && handler == LoadEvent && now >= wake && LoadComparable()
      modifies this
      ensures Valid() && (effect == ShutDown <==> old(queue == [] || State().TooLate()))
      ensures if effect == ShutDown then Off(old(State()), State()) else Loaded(old(State()), State())
    {
      if queue == [] {
        Shutdown();
        return ShutDown;
      }
      effect := LoadQueued();
    }

    method LoadQueued() returns (effect: Effect)
      requires Valid() && queue != [] && armed && handler == LoadEvent && now >= wake && LoadComparable()
      modifies this
      ensures Valid() && (effect == ShutDown <==> old(State().TooLate()))
      ensures if effect == ShutDown then Off(old(State()), State()) else Loaded(old(State()), State())
    {
      hide Comparable;
      var m := queue[0];
      assert |queue| > 1 ==> queue[1..][0] == queue[1];
      queue := queue[1..];
      level := m.onDuration > 0;
      var ok, end, newToggling, newCheckEnd := NextEnd(m);
      if !ok {
        Shutdown();
        return ShutDown;
      }
      Commit(m, end, newToggling, newCheckEnd);
      LoadKeepsSound(old(State()), State());
      effect := Applied;
    }

    /** Take over the settings of m, and arm the timer for what comes next. */
    method Commit(m: Update, end: int, newToggling: bool, newCheckEnd: bool)
      requires armed && handler == LoadEvent && now >= wake && level == (m.onDuration > 0)
      requires newToggling == (0 < m.onDuration < cycleTime)
      requires newToggling && newCheckEnd ==> Comparable(wake + m.onDuration, end)
      modifies `endTime, `isOn, `toggling, `checkEnd, `lastLoad, `armed, `wake, `handler, `onDuration, `offDuration
      ensures lastLoad == now && toggling == newToggling && checkEnd == newCheckEnd && endTime == end && isOn == level
      ensures armed == (toggling || checkEnd)
      ensures armed && handler == ToggleEvent ==>
                && toggling && wake == old(wake) + m.onDuration
                && onDuration == m.onDuration && onDuration + offDuration == cycleTime
      ensures armed && handler == LoadEvent ==>
                checkEnd && wake == endTime && (toggling ==> old(wake) + m.onDuration >= endTime)
      ensures armed && handler == ToggleEvent && checkEnd ==> wake < endTime
    {
      hide Comparable;
      endTime := end;
      isOn, toggling, checkEnd := level, newToggling, newCheckEnd;
      lastLoad := now;
      ScheduleNext(m);
    }

    /** When the settings of m run out, and the flags that go with them; fails if the queue is too late for that. */
    method NextEnd(m: Update) returns (ok: bool, end: int, newToggling: bool, newCheckEnd: bool)
      requires queue != [] ==> Comparable(wake + maxDuration, queue[0].waketime)
      ensures newToggling == (0 < m.onDuration < cycleTime)
      ensures var limited := maxDuration > 0 && (newToggling || (m.onDuration > 0) != defaultOn);
              && (ok <==> !(limited && queue != [] && queue[0].waketime > wake + maxDuration))
              && (ok ==> newCheckEnd == (limited || queue != []))
              && (ok && newCheckEnd ==> end == if queue != [] then queue[0].waketime else wake + maxDuration)
              && (ok && limited ==> end <= wake + maxDuration)
    {
      var on := m.onDuration > 0;
      ok, end, newToggling, newCheckEnd := true, 0, false, false;
      if !on || m.onDuration >= cycleTime {
        if on != defaultOn && maxDuration > 0 {
          end := wake + maxDuration;
          newCheckEnd := true;
        }
      } else {
        newToggling := true;
        if maxDuration > 0 {
          end := wake + maxDuration;
          newCheckEnd := true;
        }
      }
      if queue != [] {
        var next := queue[0].waketime;
        if newCheckEnd {
          BeforeIsEarlier(end, next);
        }
        if newCheckEnd && Before(end, next) {
          return false, end, newToggling, newCheckEnd;
        }
        end := next;
        newCheckEnd := true;
      }
    }

    /** Arm the timer for what comes next after a load. */
    method ScheduleNext(m: Update)
      requires armed && handler == LoadEvent && toggling == (0 < m.onDuration < cycleTime)
      requires toggling && checkEnd ==> Comparable(wake + m.onDuration, endTime)
      modifies `armed, `wake, `handler, `onDuration, `offDuration
      ensures armed == (toggling || checkEnd)
      ensures checkEnd ==> if handler == LoadEvent then wake == endTime else wake < endTime
      ensures handler == ToggleEvent ==>
                && toggling && wake == old(wake) + onDuration
                && onDuration == m.onDuration && onDuration + offDuration == cycleTime
      ensures handler == LoadEvent ==> !toggling || (checkEnd && old(wake) + m.onDuration >= endTime)
    {
      if !toggling {
        if !checkEnd {
          armed := false;
          return;
        }
        wake := endTime;
        return;
      }
      var waketime := wake + m.onDuration;
      if checkEnd {
        BeforeIsEarlier(waketime, endTime);
      }
      if checkEnd && !Before(waketime, endTime) {
        wake := endTime;
        return;
      }
      handler := ToggleEvent;
      wake := waketime;
      onDuration := m.onDuration;
      offDuration := cycleTime - m.onDuration;
    }

    /** set_digital_out_pwm_cycle */
    method SetCycle(ticks: nat) returns (effect: Effect)
      requires Valid()
      modifies this
      ensures Valid() && (effect == ShutDown <==> old(queue) != [])
      ensures if effect == ShutDown then Off(old(State()), State()) else State() == old(State()).(cycleTime := ticks)
    {
      if queue != [] {
        Shutdown();
        return ShutDown;
      }
      cycleTime := ticks;
      effect := Applied;
    }

    /** The timer leads to the next load. */
    method Rearm(time: int)
      modifies `armed, `wake, `handler
      ensures State() == old(State()).(armed := true, wake := time, handler := LoadEvent)
    {
      armed, wake, handler := true, time, LoadEvent;
    }

    /** queue_digital_out; `tooLate` is the scheduler refusing a timer in the past. */
    method Enqueue(time: int, ticks: nat, tooLate: bool) returns (effect: Effect)
      requires Valid() && (queue == [] && checkEnd ==> Comparable(endTime, time))
      requires queue == [] && toggling ==> Comparable(wake, time)
      requires tooLate ==> time < now
      modifies this
      ensures Valid() && (effect == ShutDown <==> Refused(old(State()), time, tooLate)) && now == old(now)
      ensures if effect == ShutDown then Off(old(State()), State()) else Enqueued(old(State()), time, ticks, State())
    {
      hide Comparable, Before, Snapshot.Sound;
      queue := queue + [Update(time, ticks)];
      effect := Applied;
      if |queue| > 1 {
        EnqueueKeepsSound(old(State()), time, ticks, State());
        return;
      }
      if checkEnd {
        BeforeIsEarlier(endTime, time);
      }
      if toggling {
        BeforeIsEarlier(wake, time);
      }
      if checkEnd && Before(endTime, time) {
        Shutdown();
        return ShutDown;
      }
      endTime := time;
      checkEnd := true;
      if !(toggling && Before(wake, time)) {
        Rearm(time);
        if tooLate {
          Shutdown();
          return ShutDown;
        }
      }
      EnqueueKeepsSound(old(State()), time, ticks, State());
    }

    /** update_digital_out: set the pin at once; `time` is the clock reading. */
    method Set(value: bool, time: int) returns (effect: Effect)
      requires Valid() && time == now
      modifies this
      ensures Valid() && (effect == ShutDown <==> old(queue) != []) && now == old(now)
      ensures if effect == ShutDown then Off(old(State()), State()) else SetAtOnce(old(State()), value, State())
    {
      hide Snapshot.Sound;
      armed := false;
      if queue != [] {
        Shutdown();
        return ShutDown;
      }
      Hold(value);
      if value != defaultOn && maxDuration > 0 {
        endTime := time + maxDuration;
        checkEnd := true;
        Rearm(endTime);
      }
      SetIsSound(old(State()), value, State());
      effect := Applied;
    }

    /** A steady level. */
    method Hold(value: bool)
      modifies `level, `isOn, `toggling, `checkEnd, `lastLoad
      ensures State() == old(State()).(level := value, toggling := false, checkEnd := false, lastLoad := now)
      ensures isOn == value
    {
      level := value;
      toggling, checkEnd, isOn := false, false, value;
      lastLoad := now;
    }
  }

  // ---------------------------------------------------------------- whole runs

  datatype Op =
    | TickTo(time: int)
    | Fire
    | Queue(time: int, ticks: nat, tooLate: bool)
    | SetTo(value: bool)
    | Cycle(ticks: nat)
    | Stop

  /** Clocks move forward, timers run when due, and compared clocks are within half a wrap. */
  predicate Allowed(pin: Pin, op: Op)
    reads pin
  {
    match op
    case TickTo(time) => pin.now <= time && (pin.armed ==> time <= pin.now || time <= pin.wake)
    case Fire =>
      && pin.armed && pin.now >= pin.wake
      && (if pin.handler == LoadEvent then pin.LoadComparable()
          else
            var next := pin.wake + if pin.isOn then pin.offDuration else pin.onDuration;
            pin.checkEnd ==> Comparable(next, pin.endTime))
    case Queue(time, ticks, tooLate) =>
      && (pin.queue == [] && pin.checkEnd ==> Comparable(pin.endTime, time))
      && (pin.queue == [] && pin.toggling ==> Comparable(pin.wake, time))
      && (tooLate ==> time < pin.now)
    case _ => true
  }

  /** When an operation stops the machine. */
  ghost predicate Stops(op: Op, a: Snapshot) {
    match op
    case Fire => a.handler == LoadEvent && (a.queue == [] || a.TooLate())
    case Queue(time, _, tooLate) => Refused(a, time, tooLate)
    case SetTo(_) => a.queue != []
    case Cycle(_) => a.queue != []
    case _ => false
  }

  /** What an operation does to a pin. */
  ghost predicate Did(op: Op, a: Snapshot, effect: Effect, b: Snapshot) {
    && (effect == ShutDown <==> Stops(op, a))
    && if effect == ShutDown then Off(a, b) else
       match op
       case TickTo(time) => b == a.(now := time)
       case Fire => if a.handler == LoadEvent then Loaded(a, b) else Toggled(a, b)
       case Queue(time, ticks, _) => Enqueued(a, time, ticks, b)
       case SetTo(value) => SetAtOnce(a, value, b)
       case Cycle(ticks) => b == a.(cycleTime := ticks)
       case Stop => Off(a, b)
  }

  method Perform(pin: Pin, op: Op) returns (effect: Effect)
    requires pin.Valid() && Allowed(pin, op)
    modifies pin
    ensures pin.Valid() && pin.now >= old(pin.now) && Did(op, old(pin.State()), effect, pin.State())
  {
    hide Comparable, Toggled, Enqueued, SetAtOnce, Refused;
    effect := Applied;
    match op
    case TickTo(time) => pin.Tick(time);
    case Fire =>
      if pin.handler == LoadEvent {
        effect := pin.Load();
      } else {
        pin.Toggle();
      }
    case Queue(time, ticks, tooLate) => effect := pin.Enqueue(time, ticks, tooLate);
    case SetTo(value) => effect := pin.Set(value, pin.now);
    case Cycle(ticks) => effect := pin.SetCycle(ticks);
    case Stop => pin.Shutdown();
  }

  /** A run of operations with their effects: each acts on what the one before left. */
  ghost predicate Ran(ops: seq<Op>, run: seq<Snapshot>, effects: seq<Effect>) {
    && |run| == |effects| + 1 <= |ops| + 1
    && forall k :: 0 <= k < |effects| ==> Did(ops[k], run[k], effects[k], run[k + 1])
  }

  /**
   The safety timeout over every run: as long as due timers are run, at every moment a pin with a timeout that
   is pulsing or away from its default was set no longer than the timeout ago, and a load follows in time.
   */
  method RunPin(value: bool, defaultOn: bool, maxDuration: nat, now: int, ops: seq<Op>)
    returns (pin: Pin, effects: seq<Effect>, ghost run: seq<Snapshot>)
    requires maxDuration == 0 || value == defaultOn
    ensures fresh(pin) && pin.level == pin.isOn && pin.maxDuration == maxDuration && pin.now >= now
    ensures Ran(ops, run, effects) && run[|effects|] == pin.State()
    ensures var a := run[0]; a.level == value && a.defaultOn == defaultOn && a.now == now && !a.armed && a.queue == []
    ensures |effects| < |ops| ==> !Allowed(pin, ops[|effects|])
    ensures forall k :: 0 <= k < |run| ==> run[k].maxDuration == maxDuration && run[k].Covered()
  {
    hide Did, Allowed;
    pin := new Pin(value, defaultOn, maxDuration, now);
    ghost var start := pin.State();
    effects, run := [], [start];
    for i := 0 to |ops|
      invariant fresh(pin) && pin.Valid() && pin.now >= now && pin.maxDuration == maxDuration
      invariant Ran(ops, run, effects) && |effects| == i && run[i] == pin.State()
      invariant run[0] == start
      invariant forall k :: 0 <= k < |run| ==> run[k].maxDuration == maxDuration && run[k].Covered()
    {
      if !Allowed(pin, ops[i]) {
        return;
      }
      var effect := Perform(pin, ops[i]);
      effects, run := effects + [effect], run + [pin.State()];
    }
  }
}
