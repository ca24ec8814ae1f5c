/**
 Runs of a clock from its start in which its notion of time goes wrong: it wakes too early after a
 cancel, or after an enqueue off the clock's edges, and it overruns a waiting event when its wheel is
 emptied from outside.
 */
module ClockFindings {
  import opened Wrappers
  import opened Arithmetic
  import opened ClockCalendar

  lemma LifeCons(l: Life, a: Action, actions: seq<Action>, period: int)
    requires period > 0 && |l.clock.wheel| == SIZE && Enabled(l, a, period)
    ensures IsLife(l, [a] + actions, period) <==> IsLife(Do(l, a, period), actions, period)
    ensures IsLife(Do(l, a, period), actions, period) ==>
      After(l, [a] + actions, period) == After(Do(l, a, period), actions, period)
  {
    hide Enabled, Do;
    assert ([a] + actions)[1..] == actions;
  }

  lemma LifeNil(l: Life, period: int)
    requires period > 0
    ensures IsLife(l, [], period) && After(l, [], period) == l
  {
  }

  // ---------------------------------------------------------------- cancelling while parked

  /** The first of two waiting events is cancelled, and then the clock wakes. */
  function CancelRun(period: int): seq<Action> {
    [DoEnqueue(0, 1, 0)] + ([DoEnqueue(1, 5, 0)] + ([DoCancel(0)] + ([DoBegin(period)] + [])))
  }

  /** It wakes for the cancelled event, one cycle on, and jumps to cycle 5. */
  lemma EarlyWakeHappens(period: int)
    requires period > 0
    ensures IsLife(Born(), CancelRun(period), period)
    ensures var l := After(Born(), CancelRun(period), period); l.now == period && l.clock.cycles == 5 && l.clock.running
  {
    hide IsLife, After;
    var l0 := Born();
    var l1 := Do(l0, DoEnqueue(0, 1, 0), period);
    var l2 := Do(l1, DoEnqueue(1, 5, 0), period);
    assert l1.clock.delayed == [0] && l1.clock.wake == Some(period) && l1.clock.due == map[0 := 1];
    Mult(1, 5, period);
    assert InsertDelayed([0], map[0 := 1, 1 := 5], 1) == [0] + InsertDelayed([], map[0 := 1, 1 := 5], 1) == [0, 1];
    assert l2.clock.delayed == [0, 1] && l2.clock.wake == Some(period) && l2.clock.due == map[0 := 1, 1 := 5];
    var l3 := Do(l2, DoCancel(0), period);
    CancelsHead(l2.clock);
    var l4 := Do(l3, DoBegin(period), period);
    assert l3.clock.due == map[1 := 5];
    FlushOne(l3.clock.(running := true, wake := None, parked := false, mustFlush := false), 1);
    LifeCons(l0, DoEnqueue(0, 1, 0), [DoEnqueue(1, 5, 0)] + ([DoCancel(0)] + ([DoBegin(period)] + [])), period);
    LifeCons(l1, DoEnqueue(1, 5, 0), [DoCancel(0)] + ([DoBegin(period)] + []), period);
    LifeCons(l2, DoCancel(0), [DoBegin(period)] + [], period);
    LifeCons(l3, DoBegin(period), [], period);
    LifeNil(l4, period);
  }

  lemma CancelsHead(s: Clock)
    requires s.delayed == [0, 1] && 0 in s.due
    ensures Cancel(s, 0) == s.(delayed := [1], due := s.due - {0})
  {
    assert [0 as nat, 1][1..] == [1];
  }

  /** With an empty wheel the flush jumps to the first waiting event. */
  lemma FlushOne(s: Clock, e: nat)
    requires |s.wheel| == SIZE && s.nb == 0 && s.delayed == [e] && e in s.due
    ensures Flush(s) == ToWheel(s.(cycles := s.due[e]), e, 0).(delayed := [])
  {
    var s0 := s.(cycles := s.due[e]);
    assert s.delayed[1..] == [];
    assert Flush(ToWheel(s0, e, 0).(delayed := [])) == ToWheel(s0, e, 0).(delayed := []);
  }

  // ---------------------------------------------------------------- enqueueing off an edge

  /** An event enqueued one tick into a cycle, for the cycle after the next edge. */
  function OffEdgeRun(): seq<Action> {
    [DoEnqueue(0, 1, 1)] + []
  }

  /**
   The wake-up is a cycle too early, less one tick: the clock catches up by rounding up but counts the
   delay from the time of the call.
   */
  lemma OffEdgeWakesEarly(period: int)
    requires period > 1
    ensures IsLife(Born(), OffEdgeRun(), period)
    ensures var s := After(Born(), OffEdgeRun(), period).clock;
      s.parked && s.due == map[0 := 2] && s.wake == Some(1 + period) &&
        s.stopTime + (2 - s.cycles) * period == 2 * period
      && !OnTime(s, period)
  {
    hide IsLife, After;
    assert Missed(1, period) == 1;
    var l1 := Do(Born(), DoEnqueue(0, 1, 1), period);
    LifeCons(Born(), DoEnqueue(0, 1, 1), [], period);
    LifeNil(l1, period);
    assert l1.clock.delayed == [0] && l1.clock.cycles == 1 && l1.clock.stopTime == period;
  }

  // ---------------------------------------------------------------- emptying the wheel from outside

  /**
   The clock wakes at cycle 100; its callback enqueues one event for cycle 140 and one for the next
   cycle, which is cancelled from outside before that cycle begins.
   */
  function EmptyingRun(period: int): seq<Action> {
    [DoEnqueue(0, 100, 0)] + ([DoBegin(100 * period)] +
      ([DoEnqueue(1, 40, 100 * period)] + ([DoEnqueue(2, 1, 100 * period)] +
    ([DoRun] + ([DoFinish] + ([DoCancel(2)] + []))))))
  }

  function Empties(): (w: seq<seq<nat>>)
    ensures |w| == SIZE && forall k :: 0 <= k < SIZE ==> w[k] == []
  {
    seq(SIZE, _ => [])
  }

  /** The clock after each of these actions. */
  function Waiting(period: int): Clock {
    Start().(mustFlush := true, wake := Some(100 * period), due := map[0 := 100], delayed := [0])
  }

  function Woken(): Clock {
    Clock(Empties()[0 := [0]], 0, 1, 100, [], false, true, map[0 := 100], 0, None, false)
  }

  function TwoMore(): Clock {
    Clock(Empties()[0 := [0]][1 := [2]], 0, 2, 100, [1], true, true, map[0 := 100, 1 := 140, 2 := 101], 0, None, false)
  }

  function Emptied(period: int): Clock {
    Clock(Empties(), 1, 0, 101, [1], true, false, map[1 := 140], 0, Some(101 * period), false)
  }

  lemma ToWaiting(period: int)
    requires period > 0
    ensures Do(Born(), DoEnqueue(0, 100, 0), period) == Life(Waiting(period), 0, [], 1, 0)
    ensures Enabled(Born(), DoEnqueue(0, 100, 0), period)
  {
  }

  lemma ToWoken(period: int)
    requires period > 0
    ensures Enabled(Life(Waiting(period), 0, [], 1, 0), DoBegin(100 * period), period)
    ensures Do(Life(Waiting(period), 0, [], 1, 0), DoBegin(100 * period), period) ==
      Life(Woken(), 100 * period, [], 1, 0)
  {
    Mult(0, 100, period);
    FlushOne(Waiting(period).(running := true, wake := None, parked := false, mustFlush := false), 0);
    assert Start().wheel == Empties() && [0 as nat] + Empties()[0] == [0];
    assert map[0 as nat := 100][0 := 100] == map[0 as nat := 100];
  }

  lemma ToTwoMore(period: int)
    requires period > 0
    ensures var l := Life(Woken(), 100 * period, [], 1, 0);
      && Enabled(l, DoEnqueue(1, 40, 100 * period), period)
      && Enabled(Do(l, DoEnqueue(1, 40, 100 * period), period), DoEnqueue(2, 1, 100 * period), period)
      && |Do(l, DoEnqueue(1, 40, 100 * period), period).clock.wheel| == SIZE
      && Do(Do(l, DoEnqueue(1, 40, 100 * period), period), DoEnqueue(2, 1, 100 * period), period) ==
           Life(TwoMore(), 100 * period, [], 3, 0)
  {
    var l := Life(Woken(), 100 * period, [], 1, 0);
    var l' := Do(l, DoEnqueue(1, 40, 100 * period), period);
    assert InsertDelayed([], map[0 := 100, 1 := 140], 1) == [1];
    assert Woken().due[1 := 140] == map[0 := 100, 1 := 140];
    assert l'.clock == Woken().(mustFlush := true, due := map[0 := 100, 1 := 140], delayed := [1]);
    assert [2 as nat] + Empties()[0 := [0]][1] == [2];
  }

  lemma ToEmptied(period: int)
    requires period > 0
    ensures var l := Life(TwoMore(), 100 * period, [], 3, 0);
      && Enabled(l, DoRun, period) && |Do(l, DoRun, period).clock.wheel| == SIZE
      && Enabled(Do(l, DoRun, period), DoFinish, period)
      && |Do(Do(l, DoRun, period), DoFinish, period).clock.wheel| == SIZE
      && Do(Do(Do(l, DoRun, period), DoFinish, period), DoCancel(2), period).clock == Emptied(period)
      && Do(Do(Do(l, DoRun, period), DoFinish, period), DoCancel(2), period).now == 100 * period
  {
    var w := Empties()[0 := [0]][1 := [2]];
    assert w[0] == [0] && w[1] == [2] && w[0][1..] == [] && w[1][1..] == [];
    assert TwoMore().due - {0} == map[1 := 140, 2 := 101];
    assert w[0 := []] == Empties()[1 := [2]] && Empties()[1 := [2]][1 := []] == Empties();
    var s := Clock(Empties()[1 := [2]], 1, 1, 101, [1], true, false, map[1 := 140, 2 := 101],
      0, Some(101 * period), false);
    var l := Life(TwoMore(), 100 * period, [], 3, 0);
    assert Do(l, DoRun, period).clock.due == map[1 := 140, 2 := 101];
    assert Do(Do(l, DoRun, period), DoFinish, period).clock == s;
    assert SlotHolding(s.wheel, 2, 0) == 1;
    assert s.due - {2} == map[1 := 140];
  }

  /** An event enqueued for the next cycle then makes the clock count the hundred cycles it slept once more. */
  lemma OverrunHappens(period: int)
    requires period > 0
    ensures IsLife(Born(), EmptyingRun(period), period)
    ensures var s := After(Born(), EmptyingRun(period), period).clock;
      && s == Emptied(period) && |s.wheel| == SIZE
      && Enqueue(s, 3, 1, 101 * period, period).cycles == 202 &&
         DueOf(Enqueue(s, 3, 1, 101 * period, period).due, 1) == 140
  {
    hide IsLife, After, Enabled, Do, Woken, Waiting, TwoMore, Emptied;
    ToWaiting(period);
    ToWoken(period);
    ToTwoMore(period);
    ToEmptied(period);
    WheelsOk(period);
    var at := 100 * period;
    var l1, l2 := Life(Waiting(period), 0, [], 1, 0), Life(Woken(), at, [], 1, 0);
    var l3 := Do(l2, DoEnqueue(1, 40, at), period);
    var l4 := Life(TwoMore(), at, [], 3, 0);
    var l5 := Do(l4, DoRun, period);
    var l6 := Do(l5, DoFinish, period);
    CancelIsEnabled(l6, period);
    var l7 := Do(l6, DoCancel(2), period);
    LifeNil(l7, period);
    LifeCons(l6, DoCancel(2), [], period);
    LifeCons(l5, DoFinish, [DoCancel(2)] + [], period);
    LifeCons(l4, DoRun, [DoFinish] + ([DoCancel(2)] + []), period);
    var rest := [DoRun] + ([DoFinish] + ([DoCancel(2)] + []));
    LifeCons(l3, DoEnqueue(2, 1, at), rest, period);
    LifeCons(l2, DoEnqueue(1, 40, at), [DoEnqueue(2, 1, at)] + rest, period);
    LifeCons(l1, DoBegin(at), [DoEnqueue(1, 40, at)] + ([DoEnqueue(2, 1, at)] + rest), period);
    LifeCons(Born(), DoEnqueue(0, 100, 0), [DoBegin(at)] +
      ([DoEnqueue(1, 40, at)] + ([DoEnqueue(2, 1, at)] + rest)), period);
    EmptiedOverruns(period);
  }

  lemma CancelIsEnabled(l: Life, period: int)
    ensures Enabled(l, DoCancel(2), period)
  {
  }

  lemma WheelsOk(period: int)
    ensures |Born().clock.wheel| == |Waiting(period).wheel| == |Woken().wheel| ==
      |TwoMore().wheel| == |Emptied(period).wheel| == SIZE
  {
  }

  lemma EmptiedOverruns(period: int)
    requires period > 0
    ensures |Emptied(period).wheel| == SIZE
    ensures var s := Enqueue(Emptied(period), 3, 1, 101 * period, period); s.cycles == 202 && DueOf(s.due, 1) == 140
  {
    DivAdd(101, period - 1, period);
    Mult(1, 101, period);
    assert Missed(101 * period, period) == 101;
    var f := Sync(Emptied(period), 101 * period, period);
    assert f == Emptied(period).(cycles := 202, stopTime := 101 * period);
    assert Enqueue(Emptied(period), 3, 1, 101 * period, period) == EnqueueOther(f, 3, 1, 101 * period, period);
  }

  /** Left alone instead, it wakes for the next cycle, and jumps from there to the cycle of the event that waits. */
  lemma EmptiedJumps(period: int)
    ensures |Emptied(period).wheel| == SIZE
    ensures Emptied(period).wake == Some(101 * period) && Begin(Emptied(period)).cycles == 140
  {
    FlushOne(Emptied(period).(running := true, wake := None, parked := false, mustFlush := false), 1);
  }
}
