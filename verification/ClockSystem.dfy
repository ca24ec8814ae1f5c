/**
 Several clocks under the global scheduler. What one clock's own model takes for granted, that it is
 executed at its wake-up and that nothing happens to it after that, follows from the scheduler's list.
 */
module ClockSystem {
  import opened Wrappers
  import Q = TimeQueue
  import opened ClockCalendar

  /** The time, the scheduler's list, the clocks with their periods, and the one being executed. */
  datatype System = System(now: int, queue: seq<Q.Entry>, lives: seq<Life>, periods: seq<int>, running: Option<nat>)

  datatype Step =
    | Execute                             // the scheduler takes the first client of its list
    | RunEvent                            // the clock being executed runs an event of its current cycle
    | Finish                              // or has none left, and returns to the scheduler
    | EnqueueOn(c: nat, e: nat, d: nat)   // an event is enqueued on any clock, from any callback
    | CancelOn(c: nat, e: nat)

  function NewSystem(periods: seq<int>): System {
    System(0, [], seq(|periods|, _ => Born()), periods, None)
  }

  /** The client that is left alone by the scheduler because it is running; no client if none is. */
  function Runner(s: System): nat {
    if s.running.Some? then s.running.value else |s.lives|
  }

  /**
   The only conditions are the callers': an event is not enqueued twice, and not on a clock whose
   wheel was emptied from outside and which has stood still for too long.
   */
  predicate CanStep(s: System, x: Step) {
    match x
    case Execute => s.running.None? && s.queue != [] && s.queue[0].client < |s.lives|
    case RunEvent => s.running.Some? && s.running.value < |s.lives| && HasCurrent(s.lives[s.running.value].clock)
    case Finish => s.running.Some? && s.running.value < |s.lives| && !HasCurrent(s.lives[s.running.value].clock)
    case EnqueueOn(c, e, d) =>
      && c < |s.lives| == |s.periods| && e !in s.lives[c].clock.due
      && (var k := s.lives[c].clock; !k.running && k.nb == 0 && !k.parked ==> CatchesUp(k, s.now, s.periods[c]))
    case CancelOn(c, e) => c < |s.lives|
  }

  /** What the step is for the clock concerned, and which one that is. */
  function ActionOf(s: System, x: Step): (nat, Action)
    requires CanStep(s, x)
  {
    match x
    case Execute => (s.queue[0].client, DoBegin(s.queue[0].time))
    case RunEvent => (s.running.value, DoRun)
    case Finish => (s.running.value, DoFinish)
    case EnqueueOn(c, e, d) => (c, DoEnqueue(e, d, s.now))
    case CancelOn(c, e) => (c, DoCancel(e))
  }

  /** The clock may do what the step asks of it. */
  predicate Allowed(s: System, x: Step)
    requires CanStep(s, x)
  {
    var (c, a) := ActionOf(s, x);
    |s.lives| == |s.periods| && s.periods[c] > 0 && |s.lives[c].clock.wheel| == SIZE
    && Enabled(s.lives[c], a, s.periods[c])
  }

  function Queue(s: System, x: Step): seq<Q.Entry>
    requires CanStep(s, x) && |s.lives| == |s.periods|
  {
    match x
    case Execute => s.queue[1..]
    case RunEvent => s.queue
    case Finish =>
      var c := s.running.value;
      var delta := Delta(s.lives[c].clock, s.periods[c]);
      if delta > 0 then Q.Insert(s.queue, Q.Entry(c, s.now + delta)) else s.queue
    case EnqueueOn(c, e, d) =>
      if s.lives[c].clock.running || d * s.periods[c] < 0 then s.queue
      else Q.Apply(s.queue, s.now, Runner(s), Q.Enqueue(c, d * s.periods[c]))
    case CancelOn(c, e) => if Cancel(s.lives[c].clock, e).wake.None? then Q.Remove(s.queue, c) else s.queue
  }

  function Next(s: System, x: Step): System
    requires CanStep(s, x) && Allowed(s, x)
  {
    var (c, a) := ActionOf(s, x);
    System(if x.Execute? then s.queue[0].time else s.now, Queue(s, x),
      s.lives[c := Do(s.lives[c], a, s.periods[c])], s.periods,
      if x.Execute? then Some(c) else if x.Finish? then None else s.running)
  }

  // ---------------------------------------------------------------- what every run keeps

  /** The scheduler's list holds the clock exactly at its wake-up. */
  ghost predicate Listed(q: seq<Q.Entry>, c: nat, wake: Option<int>) {
    forall w :: Q.Entry(c, w) in q <==> wake == Some(w)
  }

  ghost predicate ClockOk(s: System, c: nat)
    requires c < |s.lives| == |s.periods|
  {
    var l := s.lives[c];
    && LifeInv(l, s.periods[c]) && Listed(s.queue, c, l.clock.wake) && l.now <= s.now
    && (l.clock.running <==> s.running == Some(c)) && (l.clock.running ==> l.now == s.now && l.clock.wake.None?)
    && (l.clock.wake.Some? ==> HasEvents(l.clock))
  }

  ghost predicate QueueOk(s: System) {
    && Q.Sorted(s.queue) && Q.Distinct(s.queue) && Q.NotBefore(s.queue, s.now)
    && forall x :: x in s.queue ==> x.client < |s.lives|
  }

  ghost predicate Inv(s: System) {
    && |s.lives| == |s.periods| && (forall c :: 0 <= c < |s.periods| ==> s.periods[c] > 0)
    && QueueOk(s) && (s.running.Some? ==> s.running.value < |s.lives|)
    && forall c: nat :: c < |s.lives| ==> ClockOk(s, c)
  }

  lemma NewInv(periods: seq<int>)
    requires forall c :: 0 <= c < |periods| ==> periods[c] > 0
    ensures Inv(NewSystem(periods))
  {
    StartInv();
    hide ClockCalendar.Inv;
  }

  // ---- what an action does to a clock's wake-up

  lemma {:induction false} FlushKeepsWake(k: Clock)
    requires |k.wheel| == SIZE
    ensures Flush(k).wake == k.wake && Flush(k).running == k.running
    decreases |k.delayed|
  {
    hide Flush;
    if k.delayed != [] {
      FlushIs(k);
      var k0 := Jumped(k);
      var diff := DueOf(k.due, k.delayed[0]) - k0.cycles;
      if 0 <= diff < SIZE { FlushKeepsWake(ToWheel(k0, k.delayed[0], diff).(delayed := k.delayed[1..])); }
    } else {
      FlushNothing(k);
    }
  }

  lemma FlushNothing(k: Clock)
    requires |k.wheel| == SIZE && k.delayed == []
    ensures Flush(k) == k
  {
  }

  lemma BeginWakes(k: Clock)
    requires |k.wheel| == SIZE
    ensures Begin(k).running && Begin(k).wake.None?
  {
    FlushKeepsWake(k.(running := true, wake := None, parked := false, mustFlush := false));
  }

  lemma EnqueueWakes(k: Clock, e: nat, d: nat, now: int, period: int)
    requires |k.wheel| == SIZE && period > 0
    ensures var k' := Enqueue(k, e, d, now, period);
      && k'.running == k.running && k'.wake == (if k.running then k.wake else WakeAt(k, now + d * period))
      && (!k.running ==> HasEvents(k'))
  {
    hide Missed;
  }

  lemma CancelWakesNone(k: Clock, e: nat)
    ensures var k' := Cancel(k, e);
      && k'.running == k.running && (k'.wake == k.wake || k'.wake.None?)
      && (k'.wake.Some? && HasEvents(k) ==> HasEvents(k') || k.running)
  {
  }

  // ---- what it does to the list

  lemma OthersListed(q: seq<Q.Entry>, q': seq<Q.Entry>, c: nat)
    requires forall x :: x in q' && x.client != c <==> x in q && x.client != c
    ensures forall b: nat, wake :: b != c ==> (Listed(q', b, wake) <==> Listed(q, b, wake))
  {
    forall b: nat, w: int | b != c ensures Q.Entry(b, w) in q' <==> Q.Entry(b, w) in q { }
  }

  lemma ListedIn(q: seq<Q.Entry>, c: nat, wake: Option<int>)
    requires Listed(q, c, wake) && wake.Some?
    ensures Q.Entry(c, wake.value) in q
  {
  }

  lemma ApplyListed(q: seq<Q.Entry>, now: int, running: nat, c: nat, delay: nat, wake: Option<int>)
    requires Q.Distinct(q) && Listed(q, c, wake) && c != running
    ensures var q' := Q.Apply(q, now, running, Q.Enqueue(c, delay));
      && Listed(q', c, if wake.Some? && wake.value <= now + delay then wake else Some(now + delay))
      && forall x :: x in q' && x.client != c <==> x in q && x.client != c
  {
    hide Q.Distinct;
    var found := Q.Find(q, c);
    if wake.Some? { ListedIn(q, c, wake); }
    if found != [] {
      assert found[0] in found && found[0] == Q.Entry(c, found[0].time);
      assert wake == Some(found[0].time);
    }
    Q.RemoveDistinct(q, c);
    Q.InsertHolds(Q.Remove(q, c), Q.Entry(c, now + delay));
  }

  lemma RemoveListed(q: seq<Q.Entry>, c: nat)
    requires Q.Distinct(q)
    ensures var q' := Q.Remove(q, c);
      Listed(q', c, None) && forall x :: x in q' && x.client != c <==> x in q && x.client != c
  {
    Q.RemoveDistinct(q, c);
  }

  lemma InsertListed(q: seq<Q.Entry>, c: nat, time: int)
    requires Listed(q, c, None)
    ensures var q' := Q.Insert(q, Q.Entry(c, time));
      Listed(q', c, Some(time)) && forall x :: x in q' && x.client != c <==> x in q && x.client != c
  {
    Q.InsertHolds(q, Q.Entry(c, time));
  }

  lemma PopListed(q: seq<Q.Entry>)
    requires q != [] && Q.Distinct(q)
    ensures var c := q[0].client;
      Listed(q[1..], c, None) && forall x :: x in q[1..] && x.client != c <==> x in q && x.client != c
  {
    assert q == [q[0]] + q[1..];
    Q.DistinctCons(q[0], q[1..]);
  }

  // ---- the list as a whole

  lemma PopOk(s: System)
    requires QueueOk(s) && s.queue != []
    ensures QueueOk(s.(now := s.queue[0].time, queue := s.queue[1..])) && s.now <= s.queue[0].time
  {
    var e, rest := s.queue[0], s.queue[1..];
    assert s.queue == [e] + rest;
    Q.DistinctCons(e, rest);
    Q.SortedTail(s.queue, s.now);
  }

  lemma InsertOk(s: System, c: nat, time: int)
    requires QueueOk(s) && c < |s.lives| && s.now <= time && (forall x :: x in s.queue ==> x.client != c)
    ensures QueueOk(s.(queue := Q.Insert(s.queue, Q.Entry(c, time))))
  {
    hide Q.Sorted, Q.Distinct, Q.NotBefore;
    Q.InsertKeeps(s.queue, Q.Entry(c, time), s.now);
    Q.InsertDistinct(s.queue, Q.Entry(c, time));
    Q.InsertHolds(s.queue, Q.Entry(c, time));
  }

  lemma RemoveOk(s: System, c: nat)
    requires QueueOk(s)
    ensures QueueOk(s.(queue := Q.Remove(s.queue, c)))
  {
    hide Q.Sorted, Q.Distinct, Q.NotBefore;
    Q.RemoveOrder(s.queue, c, s.now);
    Q.RemoveDistinct(s.queue, c);
  }

  lemma ApplyOk(s: System, c: nat, delay: nat)
    requires QueueOk(s) && c < |s.lives|
    ensures QueueOk(s.(queue := Q.Apply(s.queue, s.now, Runner(s), Q.Enqueue(c, delay))))
  {
    hide Q.Sorted, Q.Distinct, Q.NotBefore;
    RemoveOk(s, c);
    Q.RemoveDistinct(s.queue, c);
    InsertOk(s.(queue := Q.Remove(s.queue, c)), c, s.now + delay);
  }

  // ---- every step

  lemma WakeIsLater(s: System, c: nat)
    requires Inv(s) && c < |s.lives|
    ensures ClockOk(s, c) && (s.lives[c].clock.wake.Some? ==> s.now <= s.lives[c].clock.wake.value)
  {
    hide LifeInv, HasEvents;
    var wake := s.lives[c].clock.wake;
    assert ClockOk(s, c);
    if wake.Some? {
      assert Q.Entry(c, wake.value) in s.queue;
      var i :| 0 <= i < |s.queue| && s.queue[i] == Q.Entry(c, wake.value);
    }
  }

  /** The scheduler asks nothing of a clock that it is not allowed to do. */
  lemma StepIsAllowed(s: System, x: Step)
    requires Inv(s) && CanStep(s, x)
    ensures Allowed(s, x)
  {
    hide Listed, Q.Sorted, Q.Distinct, Q.NotBefore, HasEvents, ClockCalendar.Inv, WakesInTime, Punctual, CatchesUp;
    var (c, a) := ActionOf(s, x);
    WakeIsLater(s, c);
    if x.Execute? {
      HeadIsAwake(s);
      PopOk(s);
    }
  }

  lemma HeadIsAwake(s: System)
    requires QueueOk(s) && s.queue != [] && s.queue[0].client < |s.lives|
    ensures forall wake :: Listed(s.queue, s.queue[0].client, wake) ==> wake == Some(s.queue[0].time)
  {
    var e := s.queue[0];
    assert e == Q.Entry(e.client, e.time) && e in s.queue;
  }

  /** The other clocks notice nothing. */
  lemma OthersOk(s: System, s': System, c: nat)
    requires Inv(s) && c < |s.lives| == |s'.lives| && s'.periods == s.periods && s.now <= s'.now
    requires forall b :: 0 <= b < |s.lives| && b != c ==> s'.lives[b] == s.lives[b]
    requires forall x :: x in s'.queue && x.client != c <==> x in s.queue && x.client != c
    requires s.running == Some(c) || s.running.None? || (s'.now == s.now && s'.running == s.running)
    requires s'.running == s.running || s'.running.None? || s'.running == Some(c)
    ensures forall b: nat :: b < |s.lives| && b != c ==> ClockOk(s', b)
  {
    hide LifeInv, HasEvents, Listed;
    OthersListed(s.queue, s'.queue, c);
    forall b: nat | b < |s.lives| && b != c ensures ClockOk(s', b) { assert ClockOk(s, b); }
  }

  lemma ExecuteInv(s: System)
    requires Inv(s) && CanStep(s, Execute) && Allowed(s, Execute)
    ensures Inv(Next(s, Execute))
  {
    hide LifeInv, HasEvents, Listed, Begin, Q.Sorted, Q.Distinct, Q.NotBefore, Enabled;
    var c := s.queue[0].client;
    assert ClockOk(s, c);
    ActionKeeps(s.lives[c], DoBegin(s.queue[0].time), s.periods[c]);
    BeginWakes(s.lives[c].clock);
    PopListed(s.queue);
    PopOk(s);
    OthersOk(s, Next(s, Execute), c);
    QueueFrame(s.(now := s.queue[0].time, queue := s.queue[1..]), Next(s, Execute));
  }

  lemma QueueFrame(s: System, s': System)
    requires QueueOk(s) && s'.now == s.now && s'.queue == s.queue && |s'.lives| == |s.lives|
    ensures QueueOk(s')
  {
  }

  lemma RunEventInv(s: System)
    requires Inv(s) && CanStep(s, RunEvent) && Allowed(s, RunEvent)
    ensures Inv(Next(s, RunEvent))
  {
    hide LifeInv, HasEvents, Listed, Q.Sorted, Q.Distinct, Q.NotBefore, Enabled;
    var c := s.running.value;
    assert ClockOk(s, c);
    ActionKeeps(s.lives[c], DoRun, s.periods[c]);
    OthersOk(s, Next(s, RunEvent), c);
    QueueFrame(s, Next(s, RunEvent));
  }

  /** The clock that has finished is put back into the list, if it is to wake again. */
  lemma FinishQueue(s: System, c: nat, delta: int)
    requires QueueOk(s) && c < |s.lives| && Listed(s.queue, c, None)
    ensures var q := if delta > 0 then Q.Insert(s.queue, Q.Entry(c, s.now + delta)) else s.queue;
      && QueueOk(s.(queue := q)) && Listed(q, c, if delta > 0 then Some(s.now + delta) else None)
      && forall x :: x in q && x.client != c <==> x in s.queue && x.client != c
  {
    hide Listed, QueueOk;
    if delta > 0 {
      NotListed(s.queue, c);
      InsertListed(s.queue, c, s.now + delta);
      InsertOk(s, c, s.now + delta);
    }
  }

  lemma FinishedOk(s: System)
    requires Inv(s) && CanStep(s, Finish) && Allowed(s, Finish)
    ensures var s' := Next(s, Finish); var c := s.running.value;
      && ClockOk(s', c) && QueueOk(s'.(lives := s.lives, running := s.running))
      && forall x :: x in s'.queue && x.client != c <==> x in s.queue && x.client != c
  {
    hide LifeInv, HasEvents, Listed, QueueOk, Enabled, Delta, ClockCalendar.Finish, Q.Insert;
    var c := s.running.value;
    assert ClockOk(s, c);
    var l, period := s.lives[c], s.periods[c];
    ActionKeeps(l, DoFinish, period);
    var delta := Delta(l.clock, period);
    FinishWakesAt(l.clock, l.now, period);
    FinishQueue(s, c, delta);
  }

  lemma FinishStepInv(s: System)
    requires Inv(s) && CanStep(s, Finish) && Allowed(s, Finish)
    ensures Inv(Next(s, Finish))
  {
    hide ClockOk, QueueOk, Enabled, Delta, HasCurrent, Do, Q.Insert;
    FinishedOk(s);
    OthersOk(s, Next(s, Finish), s.running.value);
    QueueFrame(s.(queue := Queue(s, Finish)), Next(s, Finish));
  }

  lemma NotListed(q: seq<Q.Entry>, c: nat)
    requires Listed(q, c, None)
    ensures forall x :: x in q ==> x.client != c
  {
    forall x | x in q ensures x.client != c { assert x == Q.Entry(x.client, x.time); }
  }

  lemma FinishWakesAt(k: Clock, now: int, period: int)
    ensures var k' := ClockCalendar.Finish(k, now, period);
      && !k'.running && k'.wake == (if Delta(k, period) > 0 then Some(now + Delta(k, period)) else None)
      && (Delta(k, period) > 0 ==> HasEvents(k'))
  {
  }

  lemma EnqueueOnInv(s: System, c: nat, e: nat, d: nat)
    requires Inv(s) && CanStep(s, EnqueueOn(c, e, d)) && Allowed(s, EnqueueOn(c, e, d))
    ensures Inv(Next(s, EnqueueOn(c, e, d)))
  {
    hide LifeInv, HasEvents, Listed, Q.Sorted, Q.Distinct, Q.NotBefore, Q.Apply, Enabled, Enqueue, CatchesUp;
    assert ClockOk(s, c);
    var l, period := s.lives[c], s.periods[c];
    ActionKeeps(l, DoEnqueue(e, d, s.now), period);
    EnqueueWakes(l.clock, e, d, s.now, period);
    DelayIsNat(d, period);
    if !l.clock.running {
      ApplyListed(s.queue, s.now, Runner(s), c, d * period, l.clock.wake);
      ApplyOk(s, c, d * period);
    }
    OthersOk(s, Next(s, EnqueueOn(c, e, d)), c);
    QueueFrame(s.(queue := Queue(s, EnqueueOn(c, e, d))), Next(s, EnqueueOn(c, e, d)));
  }

  lemma DelayIsNat(d: nat, period: int)
    requires period > 0
    ensures d * period >= 0
  {
  }

  lemma CancelOnInv(s: System, c: nat, e: nat)
    requires Inv(s) && CanStep(s, CancelOn(c, e)) && Allowed(s, CancelOn(c, e))
    ensures Inv(Next(s, CancelOn(c, e)))
  {
    hide LifeInv, HasEvents, Listed, Q.Sorted, Q.Distinct, Q.NotBefore, Q.Remove, Enabled, Cancel;
    assert ClockOk(s, c);
    var l, period := s.lives[c], s.periods[c];
    ActionKeeps(l, DoCancel(e), period);
    CancelWakesNone(l.clock, e);
    RemoveListed(s.queue, c);
    RemoveOk(s, c);
    OthersOk(s, Next(s, CancelOn(c, e)), c);
    QueueFrame(s.(queue := Queue(s, CancelOn(c, e))), Next(s, CancelOn(c, e)));
  }

  lemma StepInv(s: System, x: Step)
    requires Inv(s) && CanStep(s, x)
    ensures Allowed(s, x) && Inv(Next(s, x))
  {
    hide Inv, Next, Allowed, CanStep;
    StepIsAllowed(s, x);
    match x
    case Execute => ExecuteInv(s);
    case RunEvent => RunEventInv(s);
    case Finish => FinishStepInv(s);
    case EnqueueOn(c, e, d) => EnqueueOnInv(s, c, e, d);
    case CancelOn(c, e) => CancelOnInv(s, c, e);
  }

  /** A run: every step can be taken, and is one its clock allows. */
  predicate IsRun(s: System, steps: seq<Step>)
    decreases |steps|
  {
    steps == [] || (CanStep(s, steps[0]) && Allowed(s, steps[0]) && IsRun(Next(s, steps[0]), steps[1..]))
  }

  function Run(s: System, steps: seq<Step>): System
    requires IsRun(s, steps)
    decreases |steps|
  {
    if steps == [] then s else Run(Next(s, steps[0]), steps[1..])
  }

  lemma {:induction false} RunKeepsInv(s: System, steps: seq<Step>)
    requires Inv(s) && IsRun(s, steps)
    ensures Inv(Run(s, steps))
    decreases |steps|
  {
    hide Inv, Next, Allowed, CanStep;
    if steps != [] {
      StepInv(s, steps[0]);
      RunKeepsInv(Next(s, steps[0]), steps[1..]);
    }
  }

  /**
   Main result: under the global scheduler, with any number of clocks and periods and any callbacks,
   every step that can be taken is one its clock allows; on every clock each event runs at the cycle
   it was due and none is lost; and every clock that is to wake is listed at its wake-up, not before
   the present.
   */
  lemma EveryClockIsPunctual(periods: seq<int>, steps: seq<Step>)
    requires (forall c :: 0 <= c < |periods| ==> periods[c] > 0) && IsRun(NewSystem(periods), steps)
    ensures var s := Run(NewSystem(periods), steps);
      && (forall x :: CanStep(s, x) ==> Allowed(s, x))
      && Q.Sorted(s.queue) && Q.NotBefore(s.queue, s.now)
      && forall c: nat :: c < |s.lives| ==>
           Punctual(s.lives[c]) && EachOnce(s.lives[c].clock) && Listed(s.queue, c, s.lives[c].clock.wake)
  {
    hide Next, Allowed, CanStep;
    NewInv(periods);
    RunKeepsInv(NewSystem(periods), steps);
    var s := Run(NewSystem(periods), steps);
    forall x | CanStep(s, x) ensures Allowed(s, x) { StepIsAllowed(s, x); }
    forall c: nat | c < |s.lives|
      ensures Punctual(s.lives[c]) && EachOnce(s.lives[c].clock) && Listed(s.queue, c, s.lives[c].clock.wake)
    {
      assert ClockOk(s, c);
    }
  }
}
