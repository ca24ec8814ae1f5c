/**
 The clock's cycles in terms of time: as long as nobody cancels or enqueues in a way that upsets it, the
 clock executes every cycle at the time that cycle has, and events run exactly when they were asked for.
 */
module ClockTime {
  import opened Wrappers
  import opened Arithmetic
  import opened ClockCalendar
  import opened ClockHistory

  // ---------------------------------------------------------------- the end of an execution

  /** With events in the wheel the clock comes back one period later, for the next cycle. */
  lemma FinishTurnsOn(s: Clock, now: int, period: int)
    requires s.nb != 0 && period > 0
    ensures var r := Finish(s, now, period);
      && r.wake == Some(now + period) && r.cycles == s.cycles + 1 && r.parked == s.parked
      && !r.running && r.nb == s.nb
  {
  }

  /** With an empty wheel it is parked, and comes back exactly at the time of the first event that waits. */
  lemma FinishIsOnTime(s: Clock, now: int, period: int)
    requires Inv(s) && s.running && !HasCurrent(s) && s.nb == 0 && period > 0
    ensures var r := Finish(s, now, period);
      && r.parked && !r.running && OnTime(r, period) && r.stopTime == now && r.cycles == s.cycles
      && r.delayed == s.delayed
      && (r.delayed == [] ==> r.wake == None)
      && (r.delayed != [] ==> r.wake == Some(now + (DueOf(s.due, s.delayed[0]) - s.cycles) * period))
  {
    if s.delayed != [] {
      HeadIsDue(s);
      CycleIsDone(s);
      hide Inv;
      Mult(1, DueOf(s.due, s.delayed[0]) - s.cycles, period);
    }
  }

  // ---------------------------------------------------------------- events of one cycle

  /** On the list an event goes in front of those due at the same cycle, and behind the earlier ones. */
  lemma {:induction false} InsertedAt(q: seq<nat>, due: map<nat, int>, e: nat) returns (k: nat)
    ensures k <= |q| && InsertDelayed(q, due, e) == q[..k] + [e] + q[k..]
    ensures forall i :: 0 <= i < k ==> DueOf(due, q[i]) < DueOf(due, e)
    ensures k < |q| ==> DueOf(due, e) <= DueOf(due, q[k])
  {
    k := 0;
    if q != [] && DueOf(due, q[0]) < DueOf(due, e) {
      var j := InsertedAt(q[1..], due, e);
      k := j + 1;
      assert q == [q[0]] + q[1..] && q[..k] == [q[0]] + q[1..][..j] && q[k..] == q[1..][j..];
      assert InsertDelayed(q, due, e) == [q[0]] + (q[1..][..j] + [e] + q[1..][j..]);
    }
  }

  /** An event that a callback enqueues for the present cycle is the next one to run, and leaves nothing behind. */
  lemma EnqueuedNowRunsNext(s: Clock, e: nat, now: int, period: int)
    requires Inv(s) && s.running && e !in s.due && period > 0
    ensures |s.wheel| == SIZE && s.current < SIZE
    ensures var s' := Enqueue(s, e, 0, now, period);
      HasCurrent(s') && s'.wheel[s'.current][0] == e && RunOne(s') == s
  {
    Sizes(s);
    assert Slot(s.current, 0) == s.current;
    var s' := Enqueue(s, e, 0, now, period);
    assert s'.wheel[s.current][1..] == s.wheel[s.current];
    assert s'.due - {e} == s.due && s.wheel[s.current := s.wheel[s.current]] == s.wheel;
  }

  // ---------------------------------------------------------------- cycle `c` is at time `c * period`

  predicate OnBeat(s: Clock, now: int, period: int) {
    if s.running then now == s.cycles * period
    else if s.parked then
      && s.stopTime == s.cycles * period && s.stopTime <= now
      && s.wake == (if s.delayed == [] then None else Some(DueOf(s.due, s.delayed[0]) * period))
    else s.nb != 0 && s.wake == Some(s.cycles * period)
  }

  /** The wheel of a clock between two cycles must not be emptied, nor a parked clock's next event be cancelled. */
  predicate Harmless(s: Clock, e: nat) {
    e !in s.due || s.running ||
    (var s' := Cancel(s, e);
     if s.parked then s'.delayed == [] || DueOf(s'.due, s'.delayed[0]) == DueOf(s.due, s.delayed[0]) else s'.nb != 0)
  }

  /** Events are enqueued on a clock edge: at the time of the cycle the clock counts from. */
  predicate OnEdge(s: Clock, t: int, period: int)
    requires period > 0
  {
    t == Sync(s, t, period).cycles * period
  }

  predicate Steady(s: Clock, a: Action, period: int)
    requires period > 0
  {
    match a
    case DoEnqueue(_, _, t) => s.running || OnEdge(s, t, period)
    case DoCancel(e) => Harmless(s, e)
    case _ => true
  }

  // ---- what keeps the beat

  lemma BeatIsOnTime(s: Clock, now: int, period: int)
    requires s.parked && !s.running
    ensures OnBeat(s, now, period) <==>
      s.stopTime == s.cycles * period && s.stopTime <= now && OnTime(s, period) && (s.delayed == [] ==> s.wake == None)
  {
    if s.delayed != [] && s.stopTime == s.cycles * period {
      Onward(s.cycles, DueOf(s.due, s.delayed[0]), period);
    }
  }

  lemma Onward(c: int, due: int, period: int)
    ensures c * period + (due - c) * period == due * period
  {
  }

  lemma EnqueueParked(s: Clock, now: int, e: nat, d: nat, t: int, period: int)
    requires period > 0 && Inv(s) && s.parked && OnBeat(s, now, period) && OnEdge(s, t, period)
    requires e !in s.due && now <= t && (s.wake.Some? ==> t <= s.wake.value)
    ensures |s.wheel| == SIZE && OnBeat(Enqueue(s, e, d, t, period), t, period)
  {
    hide Inv, Missed, OnTime, OnBeat;
    Sizes(s);
    ParkedMeans(s);
    BeatIsOnTime(s, now, period);
    EnqueueKeepsTimeIff(s, e, d, t, period);
    UpdateKeepsTime(s, t, period);
    var s' := Enqueue(s, e, d, t, period);
    assert s' == EnqueueOther(Update(s, t, period), e, d, t, period);
    assert s'.stopTime == s'.cycles * period == t;
    assert s'.delayed != [];
    BeatIsOnTime(s', t, period);
  }

  lemma EnqueueOnBeat(s: Clock, now: int, e: nat, d: nat, t: int, period: int)
    requires Inv(s) && OnBeat(s, now, period) && period > 0 && (s.running || OnEdge(s, t, period))
    requires e !in s.due && now <= t && (s.wake.Some? ==> t <= s.wake.value) && (s.running ==> t == now)
    ensures |s.wheel| == SIZE && OnBeat(Enqueue(s, e, d, t, period), t, period)
  {
    Sizes(s);
    if s.parked {
      ParkedMeans(s);
      EnqueueParked(s, now, e, d, t, period);
    } else {
      assert Sync(s, t, period) == s;
      Mult(0, d, period);
    }
  }

  lemma CancelOnBeat(s: Clock, now: int, e: nat, period: int)
    requires Inv(s) && OnBeat(s, now, period) && Harmless(s, e) && period > 0
    ensures OnBeat(Cancel(s, e), now, period)
  {
    hide Inv, Without, SlotHolding;
    if e in s.due && s.parked {
      ParkedMeans(s);
      Sizes(s);
      ParkedOnList(s, e);
      CancelIs(s, e);
    }
  }

  lemma BeginOnBeat(s: Clock, now: int, t: int, period: int)
    requires Inv(s) && OnBeat(s, now, period) && !s.running && s.wake == Some(t) && period > 0
    ensures |s.wheel| == SIZE && OnBeat(Begin(s), t, period)
  {
    Sizes(s);
    BeginInv(s);
    if s.parked {
      BeginJumps(s);
    } else if s.mustFlush {
      BeginFlushing(s);
      FlushKeeps(s.(running := true, wake := None, parked := false, mustFlush := false));
    }
  }

  lemma FinishOnBeat(s: Clock, now: int, period: int)
    requires Inv(s) && s.running && !HasCurrent(s) && OnBeat(s, now, period) && period > 0
    ensures OnBeat(Finish(s, now, period), now, period)
  {
    hide Finish, OnTime;
    if s.nb != 0 {
      NotParked(s);
      FinishTurnsOn(s, now, period);
      hide Inv;
      Onward(s.cycles, s.cycles + 1, period);
    } else {
      FinishIsOnTime(s, now, period);
      hide Inv;
      var r := Finish(s, now, period);
      assert r.stopTime == r.cycles * period && r.stopTime <= now;
      hide OnBeat;
      BeatIsOnTime(r, now, period);
    }
  }

  lemma NotParked(s: Clock)
    requires Inv(s) && s.running
    ensures !s.parked
  {
  }

  // ---------------------------------------------------------------- whole runs

  /** Every event that has run did so at the time of the cycle it was due at. */
  predicate RanOnTime(l: Life, period: int) {
    forall i :: 0 <= i < |l.log| ==> l.log[i].time == l.log[i].due * period
  }

  predicate AskedOnTime(ts: seq<Ticket>, period: int) {
    forall i :: 0 <= i < |ts| ==> ts[i].asked == ts[i].due * period
  }

  lemma ActionOnBeat(l: Life, a: Action, period: int, ts: seq<Ticket>)
    requires LifeInv(l, period) && period > 0 && Enabled(l, a, period) && Steady(l.clock, a, period)
    requires OnBeat(l.clock, l.now, period) && RanOnTime(l, period) && AskedOnTime(ts, period)
    ensures var r := Do(l, a, period);
      OnBeat(r.clock, r.now, period) && RanOnTime(r, period) && AskedOnTime(Noted(l, a, period, ts), period)
  {
    hide Inv, Enqueue, Cancel, Begin, RunOne, Finish, OnBeat, Harmless, HasCurrent, CatchesUp;
    match a
    case DoEnqueue(e, d, t) =>
      EnqueueOnBeat(l.clock, l.now, e, d, t, period);
      AskedFor(l.clock, l.now, e, d, t, period);
    case DoCancel(e) => CancelOnBeat(l.clock, l.now, e, period);
    case DoBegin(t) => BeginOnBeat(l.clock, l.now, t, period);
    case DoRun => RunOnBeat(l, period);
    case DoFinish => FinishOnBeat(l.clock, l.now, period);
  }

  lemma AskedFor(s: Clock, now: int, e: nat, d: nat, t: int, period: int)
    requires OnBeat(s, now, period) && period > 0 && (s.running || OnEdge(s, t, period)) && (s.running ==> t == now)
    ensures t + d * period == (Sync(s, t, period).cycles + d) * period
  {
    hide Missed;
    var c := Sync(s, t, period).cycles;
    Onward(c, c + d, period);
  }

  lemma RunOnBeat(l: Life, period: int)
    requires LifeInv(l, period) && Enabled(l, DoRun, period) && period > 0
    requires OnBeat(l.clock, l.now, period) && RanOnTime(l, period)
    ensures var r := Do(l, DoRun, period); OnBeat(r.clock, r.now, period) && RanOnTime(r, period)
  {
    RunOneInv(l.clock);
    hide Inv;
  }

  predicate SteadyRun(l: Life, actions: seq<Action>, period: int)
    requires period > 0 && IsLife(l, actions, period)
    decreases |actions|
  {
    actions == [] ||
    (Steady(l.clock, actions[0], period) && SteadyRun(Do(l, actions[0], period), actions[1..], period))
  }

  lemma {:induction false} RunOnTime(l: Life, actions: seq<Action>, period: int, ts: seq<Ticket>)
    requires period > 0 && IsLife(l, actions, period) && SteadyRun(l, actions, period) && LifeInv(l, period)
    requires OnBeat(l.clock, l.now, period) && RanOnTime(l, period) && AskedOnTime(ts, period)
    ensures var r := After(l, actions, period);
      OnBeat(r.clock, r.now, period) && RanOnTime(r, period) &&
        AskedOnTime(Tickets(l, actions, period, ts), period)
    decreases |actions|
  {
    hide LifeInv, Do, Enabled, Noted, OnBeat, Steady, RanOnTime, AskedOnTime;
    if actions != [] {
      var a := actions[0];
      ActionKeeps(l, a, period);
      ActionOnBeat(l, a, period, ts);
      RunOnTime(Do(l, a, period), actions[1..], period, Noted(l, a, period, ts));
    }
  }

  /**
   Main result: over every run in which events are enqueued from outside on clock edges only and no cancel
   upsets the clock, the clock is on the beat, and every event enqueued `d` cycles on that has run did so
   exactly `d` periods after it was enqueued.
   */
  lemma EventsRunWhenAsked(actions: seq<Action>, period: int)
    requires period > 0 && IsLife(Born(), actions, period) && SteadyRun(Born(), actions, period)
    ensures var l := After(Born(), actions, period); var ts := Tickets(Born(), actions, period, []);
      && OnBeat(l.clock, l.now, period) && Accounted(l, ts)
      && forall i :: 0 <= i < |ts| && ts[i].fate.RanAs? ==> l.log[ts[i].fate.k].time == ts[i].asked
  {
    StartInv();
    assert LifeInv(Born(), period) by { hide Inv; }
    RunOnTime(Born(), actions, period, []);
    EveryEnqueueIsSettledOnce(actions, period);
    var l := After(Born(), actions, period);
    var ts := Tickets(Born(), actions, period, []);
    forall i | 0 <= i < |ts| && ts[i].fate.RanAs? ensures l.log[ts[i].fate.k].time == ts[i].asked {
      assert RightFate(l, ts[i]);
    }
  }
}
