/**
 The event scheduler of one clock as a state machine: a wheel of slots for the next cycles, a sorted
 list for events further away, and the bookkeeping that keeps the cycle count in step with time.
 It refines a calendar that maps every enqueued event to the cycle it is due at.
 */
module ClockCalendar {
  import opened Wrappers
  import opened Arithmetic

  /** CLOCK_EVENT_QUEUE_SIZE */
  const SIZE: int := 32

  /**
   `due` holds the `cycle` field of every event whose `enqueued` flag is set. `wake` is the time at
   which the global scheduler will execute the clock, if it is to. `parked` tells that the last
   execution left with an empty wheel.
   */
  datatype Clock = Clock(
    wheel: seq<seq<nat>>, current: nat, nb: int, cycles: int, delayed: seq<nat>, mustFlush: bool, running: bool,
    due: map<nat, int>, stopTime: int, wake: Option<int>, parked: bool)

  function Start(): Clock {
    Clock(seq(SIZE, _ => []), 0, 0, 0, [], true, false, map[], 0, None, true)
  }

  // ---------------------------------------------------------------- enqueueing

  function Slot(current: nat, d: nat): nat {
    (current + d) % SIZE
  }

  function ToWheel(s: Clock, e: nat, d: nat): Clock
    requires |s.wheel| == SIZE
  {
    var k := Slot(s.current, d);
    s.(wheel := s.wheel[k := [e] + s.wheel[k]], nb := s.nb + 1, due := s.due[e := s.cycles + d])
  }

  /** The time of an event, for events that are enqueued. */
  function DueOf(due: map<nat, int>, e: nat): int {
    if e in due then due[e] else 0
  }

  /** The list with `e` in front of the first event not earlier. */
  function InsertDelayed(delayed: seq<nat>, due: map<nat, int>, e: nat): seq<nat> {
    if delayed == [] || DueOf(due, e) <= DueOf(due, delayed[0]) then [e] + delayed
    else [delayed[0]] + InsertDelayed(delayed[1..], due, e)
  }

  /** The global scheduler keeps the earlier of two wake times and ignores a running client. */
  function WakeAt(s: Clock, time: int): Option<int> {
    if s.running || (s.wake.Some? && s.wake.value <= time) then s.wake else Some(time)
  }

  function EnqueueOther(s: Clock, e: nat, d: nat, now: int, period: int): Clock {
    var due := s.due[e := s.cycles + d];
    s.(mustFlush := true, wake := WakeAt(s, now + d * period), due := due, delayed := InsertDelayed(s.delayed, due, e))
  }

  /** The number of cycles a parked clock has missed, rounded up. */
  function Missed(diff: int, period: int): int
    requires period > 0
  {
    if diff > 0 then (diff + period - 1) / period else 0
  }

  function Update(s: Clock, now: int, period: int): Clock
    requires period > 0
  {
    var n := Missed(now - s.stopTime, period);
    s.(cycles := s.cycles + n, stopTime := s.stopTime + n * period)
  }

  function Sync(s: Clock, now: int, period: int): Clock
    requires period > 0
  {
    if !s.running && s.nb == 0 then Update(s, now, period) else s
  }

  function Enqueue(s: Clock, e: nat, d: nat, now: int, period: int): Clock
    requires |s.wheel| == SIZE && period > 0
  {
    var s0 := Sync(s, now, period);
    if s0.running && d < SIZE then ToWheel(s0, e, d) else EnqueueOther(s0, e, d, now, period)
  }

  // ---------------------------------------------------------------- cancelling

  function Without(q: seq<nat>, e: nat): seq<nat> {
    if q == [] then [] else if q[0] == e then q[1..] else [q[0]] + Without(q[1..], e)
  }

  /** The first slot from `k` on that holds the event. */
  function SlotHolding(wheel: seq<seq<nat>>, e: nat, k: nat): (r: nat)
    requires k <= |wheel|
    ensures k <= r <= |wheel| && (r < |wheel| ==> e in wheel[r]) && (forall j :: k <= j < r ==> e !in wheel[j])
    decreases |wheel| - k
  {
    if k == |wheel| || e in wheel[k] then k else SlotHolding(wheel, e, k + 1)
  }

  function HasEvents(s: Clock): bool {
    s.nb != 0 || s.delayed != []
  }

  function Cancel(s: Clock, e: nat): Clock {
    if e !in s.due then s
    else
      var k := SlotHolding(s.wheel, e, 0);
      var s0 :=
        if e in s.delayed then s.(delayed := Without(s.delayed, e))
        else if k < |s.wheel| then s.(wheel := s.wheel[k := Without(s.wheel[k], e)], nb := s.nb - 1)
        else s;
      var s1 := s0.(due := s0.due - {e});
      if !HasEvents(s1) && !s1.running then s1.(wake := None) else s1
  }

  // ---------------------------------------------------------------- executing

  /** Events whose cycle has come into the wheel's range move there, in order. */
  function Flush(s: Clock): Clock
    requires |s.wheel| == SIZE
    decreases |s.delayed|
  {
    if s.delayed == [] then s
    else
      var e := s.delayed[0];
      var s0 := if s.nb == 0 then s.(cycles := DueOf(s.due, e)) else s;
      var diff := DueOf(s.due, e) - s0.cycles;
      if diff < 0 || diff >= SIZE then s0 else Flush(ToWheel(s0, e, diff).(delayed := s.delayed[1..]))
  }

  /** The first half of an execution: events are flushed when asked for. */
  function Begin(s: Clock): Clock
    requires |s.wheel| == SIZE
  {
    var s0 := s.(running := true, wake := None, parked := false);
    if s0.mustFlush then Flush(s0.(mustFlush := false)) else s0
  }

  predicate HasCurrent(s: Clock) {
    s.current < |s.wheel| && s.wheel[s.current] != []
  }

  /** The event that is executed next, and the clock without it. */
  function RunOne(s: Clock): Clock
    requires HasCurrent(s)
  {
    var e := s.wheel[s.current][0];
    s.(wheel := s.wheel[s.current := s.wheel[s.current][1..]], nb := s.nb - 1, due := s.due - {e})
  }

  /** What an execution returns to the global scheduler. */
  function Delta(s: Clock, period: int): int {
    if s.nb != 0 then period
    else if s.delayed != [] then (DueOf(s.due, s.delayed[0]) - s.cycles) * period
    else -1
  }

  function Finish(s: Clock, now: int, period: int): Clock {
    var wake := if Delta(s, period) > 0 then Some(now + Delta(s, period)) else None;
    if s.nb != 0 then
      var k := (s.current + 1) % SIZE;
      s.(running := false, wake := wake, cycles := s.cycles + 1, current := k, mustFlush := s.mustFlush || k == 0)
    else s.(running := false, wake := wake, mustFlush := true, stopTime := now, parked := true)
  }

  // ---------------------------------------------------------------- the invariant

  /** All events in the wheel, with their multiplicity. */
  function Flat(wheel: seq<seq<nat>>): multiset<nat> {
    if wheel == [] then multiset{} else Flat(wheel[..|wheel| - 1]) + multiset(wheel[|wheel| - 1])
  }

  /** How many cycles ahead slot `k` is. */
  function Ahead(current: nat, k: nat): int {
    if k >= current then k - current else k - current + SIZE
  }

  /** An event in the wheel is due when the wheel gets to its slot. */
  predicate WheelIsRight(s: Clock) {
    && |s.wheel| == SIZE && s.current < SIZE
    && forall k, e :: 0 <= k < SIZE && e in s.wheel[k] ==> DueOf(s.due, e) == s.cycles + Ahead(s.current, k)
  }

  predicate SortedBy(q: seq<nat>, due: map<nat, int>) {
    forall i, j :: 0 <= i < j < |q| ==> DueOf(due, q[i]) <= DueOf(due, q[j])
  }

  predicate NoneBefore(q: seq<nat>, due: map<nat, int>, cycle: int) {
    forall e :: e in q ==> cycle <= DueOf(due, e)
  }

  /** Events on the list are not overdue, and cannot fall due before the list is looked at again. */
  predicate DelayedIsRight(s: Clock) {
    && SortedBy(s.delayed, s.due)
    && NoneBefore(s.delayed, s.due, if s.running then s.cycles + 1 else s.cycles)
    && (!s.mustFlush ==> NoneBefore(s.delayed, s.due, s.cycles + SIZE - s.current))
  }

  /** Every enqueued event is in exactly one place, exactly once; nothing else is anywhere. */
  ghost predicate EachOnce(s: Clock) {
    && s.nb == |Flat(s.wheel)|
    && forall e: nat :: Flat(s.wheel)[e] + multiset(s.delayed)[e] == if e in s.due then 1 else 0
  }

  ghost predicate Inv(s: Clock) {
    WheelIsRight(s) && DelayedIsRight(s) && EachOnce(s) && (s.parked ==> !s.running && s.nb == 0 && s.mustFlush)
  }

  lemma StartInv()
    ensures Inv(Start())
  {
    FlatOfEmpty(Start().wheel);
  }

  lemma {:induction false} FlatOfEmpty(wheel: seq<seq<nat>>)
    requires forall k :: 0 <= k < |wheel| ==> wheel[k] == []
    ensures Flat(wheel) == multiset{}
  {
    if wheel != [] { FlatOfEmpty(wheel[..|wheel| - 1]); }
  }

  lemma {:induction false} FlatUpdate(wheel: seq<seq<nat>>, k: nat, slot: seq<nat>)
    requires k < |wheel|
    ensures Flat(wheel[k := slot]) + multiset(wheel[k]) == Flat(wheel) + multiset(slot)
  {
    var n := |wheel| - 1;
    if k == n {
      assert wheel[k := slot][..n] == wheel[..n];
    } else {
      FlatUpdate(wheel[..n], k, slot);
      assert wheel[k := slot][..n] == wheel[..n][k := slot];
      assert wheel[k := slot][n] == wheel[n] && wheel[..n][k] == wheel[k];
      Swap(Flat(wheel[..n][k := slot]), multiset(wheel[n]), multiset(wheel[k]));
      Swap(Flat(wheel[..n]), multiset(wheel[n]), multiset(slot));
    }
  }

  lemma Swap(a: multiset<nat>, b: multiset<nat>, c: multiset<nat>)
    ensures (a + b) + c == (a + c) + b
  {
  }

  lemma {:induction false} FlatHolds(wheel: seq<seq<nat>>, e: nat, k: nat)
    requires k < |wheel|
    ensures multiset(wheel[k])[e] <= Flat(wheel)[e]
  {
    var n := |wheel| - 1;
    if k < n {
      FlatHolds(wheel[..n], e, k);
      assert wheel[..n][k] == wheel[k];
    }
  }

  lemma {:induction false} FlatNone(wheel: seq<seq<nat>>, e: nat)
    requires forall k :: 0 <= k < |wheel| ==> e !in wheel[k]
    ensures Flat(wheel)[e] == 0
  {
    if wheel != [] { FlatNone(wheel[..|wheel| - 1], e); }
  }

  // ---- enqueueing

  lemma SlotIsAhead(current: nat, d: nat)
    requires current < SIZE && d < SIZE
    ensures Slot(current, d) < SIZE && Ahead(current, Slot(current, d)) == d
  {
  }

  lemma {:induction false} InsertDelayedHolds(q: seq<nat>, due: map<nat, int>, e: nat)
    ensures multiset(InsertDelayed(q, due, e)) == multiset(q) + multiset{e}
    ensures forall x :: x in InsertDelayed(q, due, e) <==> x in q || x == e
  {
    if q == [] || DueOf(due, e) <= DueOf(due, q[0]) {
    } else {
      InsertDelayedHolds(q[1..], due, e);
      assert q == [q[0]] + q[1..];
    }
  }

  lemma SortedByCons(x: nat, q: seq<nat>, due: map<nat, int>)
    ensures SortedBy([x] + q, due) <==> SortedBy(q, due) && NoneBefore(q, due, DueOf(due, x))
  {
    var r := [x] + q;
    if SortedBy(r, due) {
      forall i, j | 0 <= i < j < |q|
        ensures DueOf(due, q[i]) <= DueOf(due, q[j]) { assert r[i + 1] == q[i] && r[j + 1] == q[j]; }
      forall e | e in q ensures DueOf(due, x) <= DueOf(due, e) {
        var i :| 0 <= i < |q| && q[i] == e;
        assert r[0] == x && r[i + 1] == e;
      }
    }
  }

  lemma {:induction false} InsertDelayedSorted(q: seq<nat>, due: map<nat, int>, e: nat)
    requires SortedBy(q, due)
    ensures SortedBy(InsertDelayed(q, due, e), due)
  {
    hide SortedBy;
    if q == [] {
      SortedByCons(e, [], due);
      SortedNone(due);
    } else {
      assert q == [q[0]] + q[1..];
      SortedByCons(q[0], q[1..], due);
      if DueOf(due, e) <= DueOf(due, q[0]) {
        SortedByCons(e, q, due);
      } else {
        InsertDelayedSorted(q[1..], due, e);
        InsertDelayedHolds(q[1..], due, e);
        SortedByCons(q[0], InsertDelayed(q[1..], due, e), due);
      }
    }
  }

  lemma SortedNone(due: map<nat, int>)
    ensures SortedBy([], due)
  {
  }

  /** Only the due cycles of the listed events matter. */
  lemma DueElsewhere(q: seq<nat>, due: map<nat, int>, due': map<nat, int>, cycle: int)
    requires forall e :: e in q ==> DueOf(due', e) == DueOf(due, e)
    ensures SortedBy(q, due) ==> SortedBy(q, due')
    ensures NoneBefore(q, due, cycle) ==> NoneBefore(q, due', cycle)
  {
  }

  /** An event that is not enqueued is nowhere. */
  lemma Nowhere(s: Clock, e: nat)
    requires EachOnce(s) && e !in s.due
    ensures e !in s.delayed && forall k :: 0 <= k < |s.wheel| ==> e !in s.wheel[k]
  {
    assert Flat(s.wheel)[e] + multiset(s.delayed)[e] == 0;
    forall k | 0 <= k < |s.wheel| ensures e !in s.wheel[k] { FlatHolds(s.wheel, e, k); }
  }

  lemma ToWheelKeeps(s: Clock, e: nat, d: nat)
    requires WheelIsRight(s) && d < SIZE && (forall k :: 0 <= k < SIZE ==> e !in s.wheel[k])
    ensures WheelIsRight(ToWheel(s, e, d)) && Flat(ToWheel(s, e, d).wheel) == Flat(s.wheel) + multiset{e}
  {
    SlotIsAhead(s.current, d);
    var k := Slot(s.current, d);
    FlatUpdate(s.wheel, k, [e] + s.wheel[k]);
    assert multiset([e] + s.wheel[k]) == multiset{e} + multiset(s.wheel[k]);
    AddedOne(Flat(s.wheel[k := [e] + s.wheel[k]]), Flat(s.wheel), multiset(s.wheel[k]), e);
    ToWheelRight(s, e, d);
  }

  lemma AddedOne(a: multiset<nat>, b: multiset<nat>, c: multiset<nat>, e: nat)
    requires a + c == b + (multiset{e} + c)
    ensures a == b + multiset{e}
  {
    forall x ensures a[x] == (b + multiset{e})[x] {
      assert (a + c)[x] == (b + (multiset{e} + c))[x];
    }
  }

  lemma ToWheelRight(s: Clock, e: nat, d: nat)
    requires WheelIsRight(s) && d < SIZE && (forall k :: 0 <= k < SIZE ==> e !in s.wheel[k])
    ensures WheelIsRight(ToWheel(s, e, d))
  {
    SlotIsAhead(s.current, d);
    var j := Slot(s.current, d);
    var s' := ToWheel(s, e, d);
    forall k, x | 0 <= k < SIZE && x in s'.wheel[k] ensures DueOf(s'.due, x) == s'.cycles + Ahead(s'.current, k) {
      if k != j {
        assert s'.wheel[k] == s.wheel[k] && x != e;
        assert DueOf(s.due, x) == s.cycles + Ahead(s.current, k);
      } else if x != e {
        assert x in s.wheel[k];
        assert DueOf(s.due, x) == s.cycles + Ahead(s.current, k);
      } else {
        assert DueOf(s'.due, e) == s.cycles + d;
      }
    }
  }

  lemma WheelElsewhere(s: Clock, s': Clock)
    requires WheelIsRight(s) && s'.wheel == s.wheel && s'.current == s.current && s'.cycles == s.cycles
    requires forall k, x :: 0 <= k < SIZE && x in s.wheel[k] ==> DueOf(s'.due, x) == DueOf(s.due, x)
    ensures WheelIsRight(s')
  {
  }

  lemma AddedToWheel(s: Clock, s': Clock, e: nat)
    requires EachOnce(s) && e !in s.due && Flat(s'.wheel) == Flat(s.wheel) + multiset{e} && s'.nb == s.nb + 1
    requires s'.delayed == s.delayed && s'.due.Keys == s.due.Keys + {e}
    ensures EachOnce(s')
  {
    hide Flat;
  }

  lemma EnqueueToWheelInv(s: Clock, e: nat, d: nat)
    requires Inv(s) && e !in s.due && s.running && d < SIZE
    ensures Inv(ToWheel(s, e, d))
  {
    hide WheelIsRight, SortedBy, NoneBefore, EachOnce, Flat, Slot;
    Sizes(s);
    Nowhere(s, e);
    ToWheelKeeps(s, e, d);
    var s' := ToWheel(s, e, d);
    AddedToWheel(s, s', e);
    DueElsewhere(s.delayed, s.due, s'.due, s.cycles + 1);
    DueElsewhere(s.delayed, s.due, s'.due, s.cycles + SIZE - s.current);
  }

  lemma EnqueueOtherDelayed(s: Clock, e: nat, d: nat, now: int, period: int)
    requires DelayedIsRight(s) && e !in s.delayed && (s.running ==> d > 0)
    ensures DelayedIsRight(EnqueueOther(s, e, d, now, period))
  {
    hide SortedBy;
    var s' := EnqueueOther(s, e, d, now, period);
    assert forall x :: x in s.delayed ==> DueOf(s'.due, x) == DueOf(s.due, x);
    DueElsewhere(s.delayed, s.due, s'.due, if s.running then s.cycles + 1 else s.cycles);
    InsertDelayedSorted(s.delayed, s'.due, e);
    InsertDelayedHolds(s.delayed, s'.due, e);
  }

  lemma EnqueueOtherInv(s: Clock, e: nat, d: nat, now: int, period: int)
    requires Inv(s) && e !in s.due && (s.running ==> d > 0)
    ensures Inv(EnqueueOther(s, e, d, now, period))
  {
    Nowhere(s, e);
    var s' := EnqueueOther(s, e, d, now, period);
    EnqueueOtherDelayed(s, e, d, now, period);
    InsertDelayedHolds(s.delayed, s'.due, e);
    WheelElsewhere(s, s');
  }

  // ---- catching up with time

  /** The first event on the list is far enough away for the time that has passed since the clock stopped. */
  predicate CatchesUp(s: Clock, now: int, period: int) {
    s.delayed == [] || now <= s.stopTime + (DueOf(s.due, s.delayed[0]) - s.cycles) * period
  }

  lemma MissedBound(diff: int, period: int, n: int)
    requires period > 0 && n >= 0
    ensures Missed(diff, period) <= n <==> diff <= n * period
    ensures Missed(diff, period) >= 0 && diff <= Missed(diff, period) * period
    ensures diff >= 0 ==> Missed(diff, period) * period < diff + period
  {
    if diff > 0 {
      var q := (diff + period - 1) / period;
      assert q * period <= diff + period - 1 < q * period + period;
      if q <= n { assert q * period <= n * period by { Mult(q, n, period); } }
      if q > n { assert (n + 1) * period <= q * period by { Mult(n + 1, q, period); } }
      if q < 0 { Mult(q, -1, period); }
    } else {
      Mult(0, n, period);
    }
  }

  lemma EmptyWheel(s: Clock)
    requires EachOnce(s) && s.nb == 0
    ensures forall k :: 0 <= k < |s.wheel| ==> s.wheel[k] == []
  {
    forall k | 0 <= k < |s.wheel| ensures s.wheel[k] == [] {
      if s.wheel[k] != [] {
        FlatHolds(s.wheel, s.wheel[k][0], k);
        assert s.wheel[k][0] in s.wheel[k];
        assert Flat(s.wheel)[s.wheel[k][0]] > 0;
      }
    }
  }

  lemma HeadIsFirst(q: seq<nat>, due: map<nat, int>, cycle: int)
    requires SortedBy(q, due) && q != []
    ensures NoneBefore(q, due, cycle) <==> cycle <= DueOf(due, q[0])
  {
    if cycle <= DueOf(due, q[0]) {
      forall e | e in q ensures cycle <= DueOf(due, e) {
        var i :| 0 <= i < |q| && q[i] == e;
      }
    }
  }

  lemma UpdateDelayedIff(s: Clock, now: int, period: int)
    requires DelayedIsRight(s) && !s.running && period > 0 && s.mustFlush && now > s.stopTime
    ensures DelayedIsRight(Update(s, now, period)) <==> CatchesUp(s, now, period)
  {
    var s' := Update(s, now, period);
    MissedBound(now - s.stopTime, period, 0);
    hide Missed, SortedBy, NoneBefore;
    if s.delayed != [] {
      var room := DueOf(s.due, s.delayed[0]) - s.cycles;
      HeadIsFirst(s.delayed, s.due, s.cycles);
      HeadIsFirst(s.delayed, s.due, s'.cycles);
      MissedBound(now - s.stopTime, period, room);
    } else {
      NothingBefore(s.due, s'.cycles);
    }
  }

  /** Catching up keeps the calendar exactly if no more time has passed than the first waiting event allows. */
  lemma UpdateInvIff(s: Clock, now: int, period: int)
    requires Inv(s) && !s.running && s.nb == 0 && s.mustFlush && period > 0 && now > s.stopTime
    ensures Inv(Update(s, now, period)) <==> CatchesUp(s, now, period)
  {
    EmptyWheel(s);
    UpdateDelayedIff(s, now, period);
    hide DelayedIsRight, CatchesUp, Missed, Flat;
  }

  lemma NothingBefore(due: map<nat, int>, cycle: int)
    ensures NoneBefore([], due, cycle)
  {
  }

  /** The clock's own notion of time: where it would stand if it had run on. */
  lemma UpdateKeepsTime(s: Clock, now: int, period: int)
    requires period > 0
    ensures var s' := Update(s, now, period);
      s'.stopTime - s'.cycles * period == s.stopTime - s.cycles * period && now <= s'.stopTime
      && (now >= s.stopTime ==> s'.stopTime < now + period)
  {
    MissedBound(now - s.stopTime, period, 0);
    var n := Missed(now - s.stopTime, period);
    assert (s.cycles + n) * period == s.cycles * period + n * period;
  }

  // ---- cancelling and running take one event out

  lemma {:induction false} WithoutHolds(q: seq<nat>, e: nat)
    requires e in q
    ensures multiset(q) == multiset(Without(q, e)) + multiset{e}
    ensures forall x :: x in Without(q, e) ==> x in q
  {
    assert q == [q[0]] + q[1..];
    if q[0] != e { WithoutHolds(q[1..], e); }
  }

  lemma {:induction false} WithoutSorted(q: seq<nat>, due: map<nat, int>, e: nat)
    requires SortedBy(q, due) && e in q
    ensures SortedBy(Without(q, e), due)
  {
    hide SortedBy;
    assert q == [q[0]] + q[1..];
    SortedByCons(q[0], q[1..], due);
    if q[0] != e {
      WithoutSorted(q[1..], due, e);
      WithoutHolds(q[1..], e);
      SortedByCons(q[0], Without(q[1..], e), due);
    }
  }

  lemma RemovedOne(a: multiset<nat>, b: multiset<nat>, c: multiset<nat>, d: multiset<nat>, e: nat)
    requires a + (d + multiset{e}) == b + d
    ensures b == a + multiset{e}
  {
    forall x ensures b[x] == (a + multiset{e})[x] {
      assert (a + (d + multiset{e}))[x] == (b + d)[x];
    }
  }

  /** One slot loses the event. */
  lemma SlotLoses(wheel: seq<seq<nat>>, k: nat, slot: seq<nat>, e: nat)
    requires k < |wheel| && multiset(wheel[k]) == multiset(slot) + multiset{e}
    ensures Flat(wheel) == Flat(wheel[k := slot]) + multiset{e}
  {
    FlatUpdate(wheel, k, slot);
    RemovedOne(Flat(wheel[k := slot]), Flat(wheel), multiset{}, multiset(slot), e);
  }

  lemma OneLess(s: Clock, s': Clock, e: nat)
    requires EachOnce(s) && e in s.due && Flat(s.wheel) == Flat(s'.wheel) + multiset{e}
    requires s'.nb == s.nb - 1 && s'.delayed == s.delayed && s'.due == s.due - {e}
    ensures EachOnce(s') && Flat(s'.wheel)[e] == 0 && e !in s.delayed && s.nb > 0
  {
    hide Flat;
    assert Flat(s.wheel)[e] + multiset(s.delayed)[e] == 1;
    assert |Flat(s.wheel)| == |Flat(s'.wheel)| + 1;
  }

  lemma TakenFromWheel(s: Clock, s': Clock, k: nat, e: nat)
    requires EachOnce(s) && WheelIsRight(s) && e in s.due && k < SIZE && |s'.wheel| == SIZE
    requires multiset(s.wheel[k]) == multiset(s'.wheel[k]) + multiset{e} && s'.wheel == s.wheel[k := s'.wheel[k]]
    requires s'.nb == s.nb - 1 && s'.delayed == s.delayed && s'.due == s.due - {e}
    requires s'.current == s.current && s'.cycles == s.cycles
    ensures EachOnce(s') && WheelIsRight(s') && e !in s.delayed && s.nb > 0
  {
    hide EachOnce, Flat;
    SlotLoses(s.wheel, k, s'.wheel[k], e);
    OneLess(s, s', e);
    forall j, x | 0 <= j < SIZE && x in s'.wheel[j] ensures DueOf(s'.due, x) == s'.cycles + Ahead(s'.current, j) {
      FlatHolds(s'.wheel, e, j);
      StillThere(s, s', k, e, j, x);
      assert DueOf(s.due, x) == s.cycles + Ahead(s.current, j);
    }
  }

  lemma StillThere(s: Clock, s': Clock, k: nat, e: nat, j: nat, x: nat)
    requires |s.wheel| == SIZE == |s'.wheel| && k < SIZE && j < SIZE && x in s'.wheel[j]
    requires s'.wheel == s.wheel[k := s'.wheel[k]]
    requires multiset(s.wheel[k]) == multiset(s'.wheel[k]) + multiset{e}
    ensures x in s.wheel[j]
  {
    if j == k { assert x in multiset(s.wheel[k]); } else { assert s'.wheel[j] == s.wheel[j]; }
  }

  lemma DelayedWithoutDue(s: Clock, e: nat, due: map<nat, int>)
    requires DelayedIsRight(s) && e !in s.delayed && due == s.due - {e}
    ensures DelayedIsRight(s.(due := due))
  {
    assert forall x :: x in s.delayed ==> DueOf(due, x) == DueOf(s.due, x);
    DueElsewhere(s.delayed, s.due, due, if s.running then s.cycles + 1 else s.cycles);
    DueElsewhere(s.delayed, s.due, due, s.cycles + SIZE - s.current);
  }

  lemma RunOneInv(s: Clock)
    requires Inv(s) && s.running && HasCurrent(s)
    ensures Inv(RunOne(s))
    ensures var e := s.wheel[s.current][0]; e in s.due && s.due[e] == s.cycles && RunOne(s).due == s.due - {e}
  {
    var e := s.wheel[s.current][0];
    var s' := RunOne(s);
    assert s.wheel[s.current] == [e] + s.wheel[s.current][1..];
    InWheel(s, s.current, e);
    TakenFromWheel(s, s', s.current, e);
    DelayedWithoutDue(s, e, s'.due);
    hide WheelIsRight, EachOnce, SortedBy, NoneBefore;
  }

  lemma InWheel(s: Clock, k: nat, e: nat)
    requires Inv(s) && k < SIZE && e in s.wheel[k]
    ensures e in s.due && s.due[e] == s.cycles + Ahead(s.current, k)
  {
    FlatHolds(s.wheel, e, k);
    assert e in multiset(s.wheel[k]);
    assert Flat(s.wheel)[e] + multiset(s.delayed)[e] == if e in s.due then 1 else 0;
    assert DueOf(s.due, e) == s.cycles + Ahead(s.current, k);
  }

  lemma OneLessDelayed(s: Clock, s': Clock, e: nat)
    requires EachOnce(s) && e in s.due && multiset(s.delayed) == multiset(s'.delayed) + multiset{e}
    requires s'.nb == s.nb && s'.wheel == s.wheel && s'.due == s.due - {e}
    ensures EachOnce(s') && e !in s'.delayed && forall k :: 0 <= k < |s.wheel| ==> e !in s.wheel[k]
  {
    hide Flat;
    assert Flat(s.wheel)[e] + multiset(s.delayed)[e] == 1;
    forall k | 0 <= k < |s.wheel| ensures e !in s.wheel[k] { FlatHolds(s.wheel, e, k); }
  }

  lemma CancelDelayedInv(s: Clock, e: nat)
    requires Inv(s) && e in s.due && e in s.delayed
    ensures Inv(s.(delayed := Without(s.delayed, e), due := s.due - {e}))
  {
    hide EachOnce, SortedBy, NoneBefore, Without;
    var s' := s.(delayed := Without(s.delayed, e), due := s.due - {e});
    WithoutHolds(s.delayed, e);
    OneLessDelayed(s, s', e);
    WheelElsewhere(s, s');
    DelayedWithout(s, e);
  }

  lemma DelayedWithout(s: Clock, e: nat)
    requires DelayedIsRight(s) && e in s.delayed && e !in Without(s.delayed, e)
    ensures DelayedIsRight(s.(delayed := Without(s.delayed, e), due := s.due - {e}))
  {
    WithoutHolds(s.delayed, e);
    WithoutSorted(s.delayed, s.due, e);
    var s' := s.(delayed := Without(s.delayed, e));
    assert DelayedIsRight(s');
    DelayedWithoutDue(s', e, s.due - {e});
  }

  lemma CancelWheelInv(s: Clock, e: nat)
    requires Inv(s) && e in s.due && e !in s.delayed
    ensures var k := SlotHolding(s.wheel, e, 0);
      k < SIZE && Inv(s.(wheel := s.wheel[k := Without(s.wheel[k], e)], nb := s.nb - 1, due := s.due - {e}))
  {
    var k := SlotHolding(s.wheel, e, 0);
    assert Flat(s.wheel)[e] + multiset(s.delayed)[e] == 1;
    if k == |s.wheel| { FlatNone(s.wheel, e); }
    WithoutHolds(s.wheel[k], e);
    var s' := s.(wheel := s.wheel[k := Without(s.wheel[k], e)], nb := s.nb - 1, due := s.due - {e});
    TakenFromWheel(s, s', k, e);
    DelayedWithoutDue(s, e, s'.due);
    hide WheelIsRight, EachOnce, SortedBy, NoneBefore;
  }

  lemma WakeIsFree(s: Clock, w: Option<int>)
    requires Inv(s)
    ensures Inv(s.(wake := w))
  {
  }

  lemma CancelIs(s: Clock, e: nat)
    requires e in s.due
    ensures e in s.delayed ==>
      Cancel(s, e) == s.(delayed := Without(s.delayed, e), due := s.due - {e}, wake := Cancel(s, e).wake)
    ensures var k := SlotHolding(s.wheel, e, 0); e !in s.delayed && k < |s.wheel| ==>
      Cancel(s, e) == s.(wheel := s.wheel[k := Without(s.wheel[k], e)], nb := s.nb - 1, due := s.due - {e},
                         wake := Cancel(s, e).wake)
  {
    hide Without;
  }

  lemma CancelInv(s: Clock, e: nat)
    requires Inv(s)
    ensures Inv(Cancel(s, e)) && Cancel(s, e).due == s.due - {e} && Cancel(s, e).cycles == s.cycles
  {
    hide Without, Cancel, SlotHolding, EachOnce, DelayedIsRight;
    if e !in s.due {
      CancelNothing(s, e);
    } else {
      CancelIs(s, e);
      var w := Cancel(s, e).wake;
      if e in s.delayed {
        CancelDelayedInv(s, e);
        WakeIsFree(s.(delayed := Without(s.delayed, e), due := s.due - {e}), w);
      } else {
        CancelWheelInv(s, e);
        var k := SlotHolding(s.wheel, e, 0);
        WakeIsFree(s.(wheel := s.wheel[k := Without(s.wheel[k], e)], nb := s.nb - 1, due := s.due - {e}), w);
      }
    }
  }

  lemma CancelNothing(s: Clock, e: nat)
    requires e !in s.due
    ensures Cancel(s, e) == s && s.due - {e} == s.due
  {
  }

  // ---- flushing

  /** What holds while the list is being flushed. */
  ghost predicate Flushing(s: Clock) {
    && |s.wheel| == SIZE && s.nb >= 0 && WheelIsRight(s) && EachOnce(s) && s.running && !s.parked
    && SortedBy(s.delayed, s.due) && NoneBefore(s.delayed, s.due, s.cycles)
  }

  /** An empty wheel lets the clock jump to its first waiting event. */
  function Jumped(s: Clock): Clock {
    if s.nb == 0 && s.delayed != [] then s.(cycles := DueOf(s.due, s.delayed[0])) else s
  }

  lemma JumpKeeps(s: Clock)
    requires Flushing(s) && s.delayed != []
    ensures Flushing(Jumped(s)) && s.cycles <= Jumped(s).cycles <= DueOf(s.due, s.delayed[0])
  {
    HeadIsFirst(s.delayed, s.due, s.cycles);
    HeadIsFirst(s.delayed, s.due, DueOf(s.due, s.delayed[0]));
    hide SortedBy, NoneBefore, Flat;
    if s.nb == 0 { EmptyWheel(s); }
  }

  lemma HeadIsDue(s: Clock)
    requires EachOnce(s) && s.delayed != []
    ensures s.delayed[0] in s.due && s.delayed[0] !in s.delayed[1..]
    ensures forall k :: 0 <= k < |s.wheel| ==> s.delayed[0] !in s.wheel[k]
  {
    var e := s.delayed[0];
    assert s.delayed == [e] + s.delayed[1..];
    assert Flat(s.wheel)[e] + multiset(s.delayed)[e] == if e in s.due then 1 else 0;
    forall k | 0 <= k < |s.wheel| ensures e !in s.wheel[k] { FlatHolds(s.wheel, e, k); }
  }

  /** Moving the head into the wheel leaves every event in exactly one place. */
  lemma HeadMoves(s: Clock, s': Clock)
    requires EachOnce(s) && s.delayed != [] && s'.delayed == s.delayed[1..] && s'.due == s.due
    requires s'.nb == s.nb + 1 && Flat(s'.wheel) == Flat(s.wheel) + multiset{s.delayed[0]}
    ensures EachOnce(s')
  {
    hide Flat;
    assert s.delayed == [s.delayed[0]] + s.delayed[1..];
    forall x: nat ensures Flat(s'.wheel)[x] + multiset(s'.delayed)[x] == if x in s'.due then 1 else 0 {
      assert Flat(s.wheel)[x] + multiset(s.delayed)[x] == if x in s.due then 1 else 0;
    }
  }

  lemma Tail(q: seq<nat>, due: map<nat, int>, cycle: int)
    requires q != [] && SortedBy(q, due) && NoneBefore(q, due, cycle)
    ensures SortedBy(q[1..], due) && NoneBefore(q[1..], due, cycle)
  {
    assert q == [q[0]] + q[1..];
    SortedByCons(q[0], q[1..], due);
  }

  lemma FlushMoves(s: Clock, diff: nat)
    requires Flushing(s) && s.delayed != [] && diff < SIZE && DueOf(s.due, s.delayed[0]) == s.cycles + diff
    ensures var e := s.delayed[0];
      Flushing(ToWheel(s, e, diff).(delayed := s.delayed[1..])) && ToWheel(s, e, diff).due == s.due
  {
    hide EachOnce, SortedBy, NoneBefore, Flat, WheelIsRight, Slot;
    var e := s.delayed[0];
    HeadIsDue(s);
    ToWheelKeeps(s, e, diff);
    Tail(s.delayed, s.due, s.cycles);
    var s0 := ToWheel(s, e, diff);
    var s' := s0.(delayed := s.delayed[1..]);
    assert s0.due == s.due;
    WheelElsewhere(s0, s');
    HeadMoves(s, s');
  }

  /** One turn of the loop. */
  lemma FlushIs(s: Clock)
    requires |s.wheel| == SIZE && s.delayed != []
    ensures var s0 := Jumped(s); var diff := DueOf(s.due, s.delayed[0]) - s0.cycles;
      Flush(s) == if diff < 0 || diff >= SIZE then s0
        else Flush(ToWheel(s0, s.delayed[0], diff).(delayed := s.delayed[1..]))
  {
    hide ToWheel;
  }

  lemma {:induction false} FlushKeeps(s: Clock)
    requires Flushing(s)
    ensures |s.wheel| == SIZE
    ensures var r := Flush(s);
      Flushing(r) && r.running && NoneBefore(r.delayed, r.due, r.cycles + SIZE) &&
        r.due == s.due && s.cycles <= r.cycles
      && r.current == s.current && r.mustFlush == s.mustFlush && r.wake == s.wake && r.stopTime == s.stopTime
      && (s.nb > 0 || s.delayed == [] ==> r.cycles == s.cycles)
      && (s.nb == 0 && s.delayed != [] ==> r.cycles == DueOf(s.due, s.delayed[0]))
    decreases |s.delayed|
  {
    hide WheelIsRight, EachOnce, SortedBy, NoneBefore, Flush;
    if s.delayed == [] {
      FlushNone(s);
      NothingBefore(s.due, s.cycles + SIZE);
    } else {
      FlushIs(s);
      JumpKeeps(s);
      var s0 := Jumped(s);
      var diff := DueOf(s.due, s.delayed[0]) - s0.cycles;
      if diff < SIZE {
        FlushMoves(s0, diff);
        FlushKeeps(ToWheel(s0, s.delayed[0], diff).(delayed := s.delayed[1..]));
      } else {
        HeadIsFirst(s.delayed, s.due, s0.cycles + SIZE);
      }
    }
  }

  lemma FlushNone(s: Clock)
    requires |s.wheel| == SIZE && s.delayed == []
    ensures Flush(s) == s
  {
  }

  lemma NbNonNegative(s: Clock)
    requires EachOnce(s)
    ensures s.nb >= 0
  {
  }

  lemma Sizes(s: Clock)
    requires Inv(s)
    ensures |s.wheel| == SIZE && s.current < SIZE
  {
  }

  lemma BeginFlushing(s: Clock)
    requires Inv(s) && !s.running
    ensures Flushing(s.(running := true, wake := None, parked := false, mustFlush := false))
  {
    NbNonNegative(s);
    hide SortedBy, NoneBefore, Flat;
  }

  lemma BeginFlushes(s: Clock)
    requires Inv(s) && !s.running && s.mustFlush
    ensures Inv(Begin(s)) && Begin(s).running && Begin(s).due == s.due && s.cycles <= Begin(s).cycles
  {
    hide Inv, Flush, NoneBefore, Flushing;
    Sizes(s);
    BeginFlushing(s);
    var s0 := s.(running := true, wake := None, parked := false, mustFlush := false);
    FlushKeeps(s0);
    FlushedInv(Flush(s0));
  }

  lemma FlushedInv(s: Clock)
    requires Flushing(s) && NoneBefore(s.delayed, s.due, s.cycles + SIZE)
    ensures Inv(s)
  {
    hide SortedBy, Flat;
  }

  /** Nothing is skipped when an execution begins. */
  lemma BeginInv(s: Clock)
    requires Inv(s) && !s.running
    ensures var r := Begin(s);
      Inv(r) && r.running && r.due == s.due && s.cycles <= r.cycles && (forall e :: e in r.due ==> r.cycles <= r.due[e])
  {
    if s.mustFlush {
      BeginFlushes(s);
    } else {
      assert Inv(Begin(s)) by { hide SortedBy, Flat; }
    }
    NothingOverdue(Begin(s));
  }

  /** In a state that keeps the invariant no event has been missed. */
  lemma NothingOverdue(s: Clock)
    requires Inv(s)
    ensures forall e :: e in s.due ==> s.cycles <= s.due[e]
  {
    forall e | e in s.due ensures s.cycles <= s.due[e] {
      assert Flat(s.wheel)[e] + multiset(s.delayed)[e] == 1;
      if e !in s.delayed {
        var k := SlotHolding(s.wheel, e, 0);
        if k == |s.wheel| { FlatNone(s.wheel, e); }
        InWheel(s, k, e);
      }
    }
  }

  // ---- the end of an execution

  /** When the current slot is empty, no event is due at the current cycle any more. */
  lemma CycleIsDone(s: Clock)
    requires Inv(s) && s.running && !HasCurrent(s)
    ensures forall e :: e in s.due ==> s.cycles < s.due[e]
  {
    forall e | e in s.due ensures s.cycles < s.due[e] {
      assert Flat(s.wheel)[e] + multiset(s.delayed)[e] == 1;
      if e !in s.delayed {
        var k := SlotHolding(s.wheel, e, 0);
        if k == |s.wheel| { FlatNone(s.wheel, e); }
        InWheel(s, k, e);
        assert k != s.current;
      }
    }
  }

  lemma FinishTurns(s: Clock, now: int, period: int)
    requires WheelIsRight(s) && !HasCurrent(s) && s.nb != 0
    ensures WheelIsRight(Finish(s, now, period))
  {
    var s' := Finish(s, now, period);
    forall k, x | 0 <= k < SIZE && x in s'.wheel[k] ensures DueOf(s'.due, x) == s'.cycles + Ahead(s'.current, k) {
      assert k != s.current && DueOf(s.due, x) == s.cycles + Ahead(s.current, k);
    }
  }

  lemma LaterStill(q: seq<nat>, due: map<nat, int>, cycle: int, earlier: int)
    requires NoneBefore(q, due, cycle) && earlier <= cycle
    ensures NoneBefore(q, due, earlier)
  {
  }

  lemma FinishInv(s: Clock, now: int, period: int)
    requires Inv(s) && s.running && !HasCurrent(s)
    ensures Inv(Finish(s, now, period)) && Finish(s, now, period).due == s.due
  {
    NbNonNegative(s);
    hide Flat, SortedBy, NoneBefore;
    if s.nb != 0 {
      FinishTurns(s, now, period);
    } else {
      WheelElsewhere(s, Finish(s, now, period));
    }
    LaterStill(s.delayed, s.due, s.cycles + 1, s.cycles);
  }

  /** The global scheduler is told when to come back: never, or at a later time. */
  lemma DeltaIsPositive(s: Clock, period: int)
    requires Inv(s) && s.running && period > 0
    ensures Delta(s, period) == -1 || Delta(s, period) > 0
    ensures Delta(s, period) == -1 <==> s.due == map[]
  {
    if s.nb == 0 && s.delayed != [] {
      assert s.delayed[0] in s.delayed;
      Mult(1, DueOf(s.due, s.delayed[0]) - s.cycles, period);
    }
    if s.nb != 0 || s.delayed != [] {
      SomethingIsDue(s);
    } else {
      forall e: nat ensures e !in s.due {
        assert Flat(s.wheel)[e] + multiset(s.delayed)[e] == if e in s.due then 1 else 0;
      }
    }
  }

  lemma SomethingIsDue(s: Clock)
    requires EachOnce(s) && (s.nb != 0 || s.delayed != [])
    ensures s.due != map[]
  {
    if s.delayed != [] {
      assert s.delayed[0] in multiset(s.delayed);
      assert Flat(s.wheel)[s.delayed[0]] + multiset(s.delayed)[s.delayed[0]] == if s.delayed[0] in s.due then 1 else 0;
    } else {
      var e :| e in Flat(s.wheel);
      assert Flat(s.wheel)[e] + multiset(s.delayed)[e] == if e in s.due then 1 else 0;
    }
  }

  // ---------------------------------------------------------------- whole runs

  /** An execution of an event: the cycle it was due at, and the cycle and the time it ran at. */
  datatype Ran = Ran(event: nat, due: int, at: int, time: int)

  /** A clock with its history: the time, what has run, and how many events were enqueued and cancelled. */
  datatype Life = Life(clock: Clock, now: int, log: seq<Ran>, enqueued: nat, cancelled: nat)

  datatype Action =
    | DoEnqueue(e: nat, d: nat, t: int)    // at time `t`, from this clock's own callbacks or from outside
    | DoCancel(e: nat)
    | DoBegin(t: int)                      // the global scheduler executes the clock
    | DoRun                                // one event of the current cycle runs
    | DoFinish                             // none is left in the current cycle

  /** While a clock is parked its wake-up comes no later than its first waiting event is due. */
  predicate WakesInTime(s: Clock, period: int) {
    s.parked && s.delayed != [] ==>
      s.wake.Some? && s.wake.value <= s.stopTime + (DueOf(s.due, s.delayed[0]) - s.cycles) * period
  }

  /**
   Time does not run backwards nor past the clock's wake-up; an event is not enqueued twice. A clock
   whose wheel was emptied from outside between two cycles must not have stood still for too long.
   */
  predicate Enabled(l: Life, a: Action, period: int) {
    var s := l.clock;
    match a
    case DoEnqueue(e, d, t) =>
      && e !in s.due && l.now <= t && (s.wake.Some? ==> t <= s.wake.value)
      && (s.running ==> t == l.now)
      && (!s.running && s.nb == 0 && !s.parked ==> CatchesUp(s, t, period))
    case DoCancel(e) => true
    case DoBegin(t) => !s.running && s.wake == Some(t) && l.now <= t && HasEvents(s)
    case DoRun => s.running && HasCurrent(s)
    case DoFinish => s.running && !HasCurrent(s)
  }

  function Do(l: Life, a: Action, period: int): Life
    requires |l.clock.wheel| == SIZE && Enabled(l, a, period) && period > 0
  {
    var s := l.clock;
    match a
    case DoEnqueue(e, d, t) => l.(clock := Enqueue(s, e, d, t, period), now := t, enqueued := l.enqueued + 1)
    case DoCancel(e) => l.(clock := Cancel(s, e), cancelled := l.cancelled + (if e in s.due then 1 else 0))
    case DoBegin(t) => l.(clock := Begin(s), now := t)
    case DoRun =>
      var e := s.wheel[s.current][0];
      l.(clock := RunOne(s), log := l.log + [Ran(e, DueOf(s.due, e), s.cycles, l.now)])
    case DoFinish => l.(clock := Finish(s, l.now, period))
  }

  /** Everything that ran did so at the cycle it was due; every event enqueued ran, was cancelled or still waits. */
  ghost predicate Punctual(l: Life) {
    && (forall i :: 0 <= i < |l.log| ==> l.log[i].at == l.log[i].due)
    && l.enqueued == |l.log| + l.cancelled + |l.clock.due|
  }

  ghost predicate LifeInv(l: Life, period: int) {
    |l.clock.wheel| == SIZE && Inv(l.clock) && WakesInTime(l.clock, period) && Punctual(l)
  }

  // ---- enqueueing

  lemma UpdateNothing(s: Clock, now: int, period: int)
    requires period > 0 && now <= s.stopTime
    ensures Update(s, now, period) == s
  {
  }

  /** A parked clock that wakes in time also catches up in time. */
  lemma ParkedCatchesUp(s: Clock, t: int, period: int)
    requires Inv(s) && WakesInTime(s, period) && s.parked && (s.wake.Some? ==> t <= s.wake.value)
    ensures CatchesUp(s, t, period)
  {
  }

  /** The list has to be flushed anyway once an event goes on it. */
  function Flagged(s: Clock): Clock {
    if s.running then s else s.(mustFlush := true)
  }

  lemma FlagIsFree(s: Clock)
    requires Inv(s)
    ensures Inv(Flagged(s))
  {
    hide SortedBy, NoneBefore, Flat;
  }

  lemma SyncInv(s: Clock, t: int, period: int)
    requires Inv(s) && WakesInTime(s, period) && period > 0 && (s.wake.Some? ==> t <= s.wake.value)
    requires !s.running && s.nb == 0 && !s.parked ==> CatchesUp(s, t, period)
    ensures var s' := Sync(Flagged(s), t, period);
      && Inv(s') && WakesInTime(s', period) && s'.due == s.due && s'.running == s.running && s'.wake == s.wake
      && s'.delayed == s.delayed && s'.parked == s.parked && (s'.parked ==> t <= s'.stopTime)
  {
    hide Inv, Missed;
    FlagIsFree(s);
    var f := Flagged(s);
    if !f.running && f.nb == 0 {
      if f.parked { ParkedCatchesUp(s, t, period); }
      if t > f.stopTime {
        UpdateInvIff(f, t, period);
      } else {
        UpdateNothing(f, t, period);
      }
      UpdateKeepsTime(f, t, period);
      if f.delayed != [] { SameSlack(f, Update(f, t, period), period, DueOf(f.due, f.delayed[0])); }
    }
    if s.parked { ParkedMeans(s); }
  }

  lemma ParkedMeans(s: Clock)
    requires Inv(s) && s.parked
    ensures !s.running && s.nb == 0
  {
  }

  /** Moving cycles and stop time together leaves every due cycle at the same time. */
  lemma SameSlack(s: Clock, s': Clock, period: int, c: int)
    requires s'.stopTime - s'.cycles * period == s.stopTime - s.cycles * period
    ensures s'.stopTime + (c - s'.cycles) * period == s.stopTime + (c - s.cycles) * period
  {
    assert (c - s'.cycles) * period == c * period - s'.cycles * period;
    assert (c - s.cycles) * period == c * period - s.cycles * period;
  }

  lemma OtherWakes(s: Clock, e: nat, d: nat, t: int, period: int)
    requires Inv(s) && WakesInTime(s, period) && e !in s.due && period > 0 && (s.parked ==> t <= s.stopTime)
    ensures WakesInTime(EnqueueOther(s, e, d, t, period), period)
  {
    if s.parked {
      ParkedMeans(s);
      Nowhere(s, e);
      var s' := EnqueueOther(s, e, d, t, period);
      assert s'.delayed[0] == e || (s.delayed != [] && s'.delayed[0] == s.delayed[0]);
      if s'.delayed[0] == e {
        assert DueOf(s'.due, e) - s'.cycles == d;
      } else {
        assert s.delayed[0] in s.delayed;
      }
    }
  }

  lemma EnqueueFlagged(s: Clock, e: nat, d: nat, t: int, period: int)
    requires |s.wheel| == SIZE && period > 0
    ensures |Sync(Flagged(s), t, period).wheel| == SIZE
    ensures var f := Sync(Flagged(s), t, period);
      Enqueue(s, e, d, t, period) == if f.running && d < SIZE then ToWheel(f, e, d)
        else EnqueueOther(f, e, d, t, period)
  {
    hide ToWheel, InsertDelayed, Missed;
  }

  lemma EnqueueKeeps(s: Clock, e: nat, d: nat, t: int, period: int)
    requires Inv(s) && WakesInTime(s, period) && period > 0 && e !in s.due && (s.wake.Some? ==> t <= s.wake.value)
    requires !s.running && s.nb == 0 && !s.parked ==> CatchesUp(s, t, period)
    ensures |s.wheel| == SIZE
    ensures var s' := Enqueue(s, e, d, t, period);
      && Inv(s') && WakesInTime(s', period) && |s'.wheel| == SIZE
      && s'.due == s.due[e := s'.cycles + d] && s.cycles <= s'.cycles
  {
    hide Inv, ToWheel, EnqueueOther, WakesInTime, Sync, Flagged, Enqueue;
    Sizes(s);
    SyncInv(s, t, period);
    SyncForward(s, t, period);
    EnqueueFlagged(s, e, d, t, period);
    var f := Sync(Flagged(s), t, period);
    EnqueueIs(f, e, d, t, period);
    if f.running && d < SIZE {
      EnqueueToWheelInv(f, e, d);
      ToWheelWakes(f, e, d, period);
    } else {
      EnqueueOtherInv(f, e, d, t, period);
      OtherWakes(f, e, d, t, period);
    }
  }

  lemma EnqueueStep(l: Life, e: nat, d: nat, t: int, period: int)
    requires LifeInv(l, period) && period > 0 && Enabled(l, DoEnqueue(e, d, t), period)
    ensures LifeInv(Do(l, DoEnqueue(e, d, t), period), period)
  {
    hide Inv, WakesInTime, CatchesUp, Enqueue;
    EnqueueKeeps(l.clock, e, d, t, period);
  }

  /**
   When the wheel was emptied from outside, the stop time is stale: enqueueing then keeps the
   calendar exactly if the clock does not overrun its first waiting event.
   */
  lemma EnqueueAfterEmptyingIff(s: Clock, e: nat, d: nat, t: int, period: int)
    requires Inv(s) && period > 0 && e !in s.due && !s.running && s.nb == 0 && t > s.stopTime
    ensures |s.wheel| == SIZE
    ensures Inv(Enqueue(s, e, d, t, period)) <==> CatchesUp(s, t, period)
  {
    hide Inv, ToWheel, EnqueueOther, Enqueue, Update, Missed;
    Sizes(s);
    FlagIsFree(s);
    EnqueueFlagged(s, e, d, t, period);
    UpdateInvIff(Flagged(s), t, period);
    UpdateLeaves(Flagged(s), t, period);
    var f := Update(Flagged(s), t, period);
    if CatchesUp(s, t, period) {
      EnqueueOtherInv(f, e, d, t, period);
    } else {
      NotOnList(s, e);
      MissedBound(t - s.stopTime, period, DueOf(s.due, s.delayed[0]) - s.cycles);
      Overrun(f, e, d, t, period);
    }
  }

  lemma UpdateLeaves(s: Clock, t: int, period: int)
    requires period > 0
    ensures var f := Update(s, t, period);
      f.running == s.running && f.delayed == s.delayed && f.due == s.due && f.wheel == s.wheel && f.nb == s.nb
      && f.parked == s.parked && f.cycles == s.cycles + Missed(t - s.stopTime, period)
  {
  }

  lemma NotOnList(s: Clock, e: nat)
    requires Inv(s) && e !in s.due
    ensures e !in s.delayed
    ensures s.delayed != [] ==> s.cycles <= DueOf(s.due, s.delayed[0])
  {
    Nowhere(s, e);
    if s.delayed != [] { assert s.delayed[0] in s.delayed; }
  }

  lemma Overrun(f: Clock, e: nat, d: nat, t: int, period: int)
    requires f.delayed != [] && e !in f.delayed && DueOf(f.due, f.delayed[0]) < f.cycles
    ensures !Inv(EnqueueOther(f, e, d, t, period))
  {
    var s' := EnqueueOther(f, e, d, t, period);
    InsertDelayedHolds(f.delayed, s'.due, e);
    assert f.delayed[0] in s'.delayed && DueOf(s'.due, f.delayed[0]) < s'.cycles;
  }

  lemma SyncForward(s: Clock, t: int, period: int)
    requires period > 0
    ensures Sync(Flagged(s), t, period).cycles >= s.cycles && |Sync(Flagged(s), t, period).wheel| == |s.wheel|
  {
    MissedBound(t - s.stopTime, period, 0);
  }

  lemma EnqueueIs(s: Clock, e: nat, d: nat, t: int, period: int)
    requires |s.wheel| == SIZE
    ensures ToWheel(s, e, d).due == s.due[e := s.cycles + d] && |ToWheel(s, e, d).wheel| == SIZE
    ensures ToWheel(s, e, d).cycles == s.cycles
    ensures EnqueueOther(s, e, d, t, period).due == s.due[e := s.cycles + d]
    ensures EnqueueOther(s, e, d, t, period).wheel == s.wheel && EnqueueOther(s, e, d, t, period).cycles == s.cycles
  {
  }

  lemma ToWheelWakes(s: Clock, e: nat, d: nat, period: int)
    requires Inv(s) && s.running && d < SIZE
    ensures WakesInTime(ToWheel(s, e, d), period)
  {
  }

  // ---- the other actions

  lemma ParkedOnList(s: Clock, e: nat)
    requires Inv(s) && s.parked && e in s.due
    ensures e in s.delayed
  {
    assert Flat(s.wheel)[e] + multiset(s.delayed)[e] == 1;
  }

  lemma CancelKeepsSize(s: Clock, e: nat)
    requires |s.wheel| == SIZE
    ensures |Cancel(s, e).wheel| == SIZE && Cancel(s, e).parked == s.parked && Cancel(s, e).stopTime == s.stopTime
    ensures Cancel(s, e).delayed != [] ==> Cancel(s, e).wake == s.wake
    ensures Cancel(s, e).cycles == s.cycles
  {
  }

  lemma CancelWakes(s: Clock, e: nat, period: int)
    requires Inv(s) && WakesInTime(s, period) && period > 0
    ensures WakesInTime(Cancel(s, e), period) && |Cancel(s, e).wheel| == SIZE
  {
    hide Inv, Cancel, Without;
    Sizes(s);
    CancelKeepsSize(s, e);
    var s' := Cancel(s, e);
    if e !in s.due {
      CancelNothing(s, e);
    } else if s.parked {
      ParkedOnList(s, e);
      CancelIs(s, e);
      if s'.delayed != [] {
        CancelledHead(s, e);
        Mult(DueOf(s.due, s.delayed[0]) - s.cycles, DueOf(s'.due, s'.delayed[0]) - s.cycles, period);
      }
    }
  }

  /** What comes to the front of the list is due no earlier than what was there. */
  lemma CancelledHead(s: Clock, e: nat)
    requires Inv(s) && e in s.due && e in s.delayed && Without(s.delayed, e) != []
    ensures var h := Without(s.delayed, e)[0];
      h != e && DueOf(s.due, s.delayed[0]) <= DueOf(s.due, h) == DueOf(s.due - {e}, h)
  {
    CancelDelayedInv(s, e);
    var q := Without(s.delayed, e);
    WithoutHolds(s.delayed, e);
    assert q[0] in s.delayed;
    HeadIsFirst(s.delayed, s.due, DueOf(s.due, s.delayed[0]));
    OneLessDelayed(s, s.(delayed := q, due := s.due - {e}), e);
  }

  lemma CancelStep(l: Life, e: nat, period: int)
    requires LifeInv(l, period) && period > 0
    ensures LifeInv(Do(l, DoCancel(e), period), period)
  {
    hide Inv, WakesInTime, Cancel;
    CancelInv(l.clock, e);
    CancelWakes(l.clock, e, period);
  }

  lemma BeginStep(l: Life, t: int, period: int)
    requires LifeInv(l, period) && period > 0 && Enabled(l, DoBegin(t), period)
    ensures LifeInv(Do(l, DoBegin(t), period), period)
  {
    hide Flush;
    BeginInv(l.clock);
    assert !Begin(l.clock).parked by {
      if l.clock.mustFlush {
        BeginFlushing(l.clock);
        FlushKeeps(l.clock.(running := true, wake := None, parked := false, mustFlush := false));
      }
    }
    hide Inv, Begin;
  }

  lemma RunStep(l: Life, period: int)
    requires LifeInv(l, period) && Enabled(l, DoRun, period) && period > 0
    ensures LifeInv(Do(l, DoRun, period), period)
  {
    hide Inv, RunOne, WakesInTime;
    RunOneInv(l.clock);
    RunOneStays(l.clock);
  }

  lemma RunOneStays(s: Clock)
    requires Inv(s) && s.running && HasCurrent(s)
    ensures |RunOne(s).wheel| == SIZE && forall period: int :: WakesInTime(RunOne(s), period)
  {
  }

  lemma FinishStep(l: Life, period: int)
    requires LifeInv(l, period) && Enabled(l, DoFinish, period) && period > 0
    ensures LifeInv(Do(l, DoFinish, period), period)
    ensures forall e :: e in l.clock.due ==> l.clock.cycles < l.clock.due[e]
  {
    hide Inv, WakesInTime, Finish;
    CycleIsDone(l.clock);
    FinishInv(l.clock, l.now, period);
    FinishWakes(l.clock, l.now, period);
    Sizes(Finish(l.clock, l.now, period));
  }

  lemma FinishWakes(s: Clock, now: int, period: int)
    requires Inv(s) && s.running && !HasCurrent(s) && period > 0
    ensures WakesInTime(Finish(s, now, period), period)
  {
    DeltaIsPositive(s, period);
    hide Inv;
  }

  lemma ActionKeeps(l: Life, a: Action, period: int)
    requires LifeInv(l, period) && Enabled(l, a, period) && period > 0
    ensures LifeInv(Do(l, a, period), period)
  {
    hide LifeInv, Do, Enabled;
    match a
    case DoEnqueue(e, d, t) => EnqueueStep(l, e, d, t, period);
    case DoCancel(e) => CancelStep(l, e, period);
    case DoBegin(t) => BeginStep(l, t, period);
    case DoRun => RunStep(l, period);
    case DoFinish => FinishStep(l, period);
  }

  predicate IsLife(l: Life, actions: seq<Action>, period: int)
    requires period > 0
    decreases |actions|
  {
    actions == [] ||
    (|l.clock.wheel| == SIZE && Enabled(l, actions[0], period) &&
      IsLife(Do(l, actions[0], period), actions[1..], period))
  }

  function After(l: Life, actions: seq<Action>, period: int): Life
    requires period > 0 && IsLife(l, actions, period)
    decreases |actions|
  {
    if actions == [] then l else After(Do(l, actions[0], period), actions[1..], period)
  }

  lemma {:induction false} LifeKeeps(l: Life, actions: seq<Action>, period: int)
    requires LifeInv(l, period) && period > 0 && IsLife(l, actions, period)
    ensures LifeInv(After(l, actions, period), period)
    decreases |actions|
  {
    hide LifeInv, Do, Enabled;
    if actions != [] {
      ActionKeeps(l, actions[0], period);
      LifeKeeps(Do(l, actions[0], period), actions[1..], period);
    }
  }

  function Born(): Life {
    Life(Start(), 0, [], 0, 0)
  }

  /**
   Main result: over every run of enqueues, cancels and executions each event that runs does so at
   the cycle it was due, no event is lost or runs twice, and the clock never stands past an event
   that still waits.
   */
  lemma EveryLifeIsPunctual(actions: seq<Action>, period: int)
    requires period > 0 && IsLife(Born(), actions, period)
    ensures var l := After(Born(), actions, period);
      Punctual(l) && EachOnce(l.clock) && (forall e :: e in l.clock.due ==> l.clock.cycles <= l.clock.due[e])
  {
    StartInv();
    assert LifeInv(Born(), period) by { hide Inv; }
    LifeKeeps(Born(), actions, period);
    NothingOverdue(After(Born(), actions, period).clock);
    hide Born;
  }

  // ---------------------------------------------------------------- time

  /** The wake-up of a parked clock is exactly the time its first waiting event is due at. */
  predicate OnTime(s: Clock, period: int) {
    s.delayed != [] ==> s.wake == Some(s.stopTime + (DueOf(s.due, s.delayed[0]) - s.cycles) * period)
  }

  /**
   Cancelling while parked leaves the wake-up right exactly if nothing is left or the next event is
   due at the same cycle; otherwise the clock wakes too early and jumps to the next event at once.
   */
  lemma CancelKeepsTimeIff(s: Clock, e: nat, period: int)
    requires Inv(s) && s.parked && OnTime(s, period) && period > 0 && e in s.due
    ensures var s' := Cancel(s, e);
      OnTime(s', period) <==> s'.delayed == [] || DueOf(s'.due, s'.delayed[0]) == DueOf(s.due, s.delayed[0])
  {
    hide Inv, Cancel, Without;
    Sizes(s);
    ParkedOnList(s, e);
    CancelKeepsSize(s, e);
    CancelIs(s, e);
    var s' := Cancel(s, e);
    if s'.delayed != [] {
      Differs(DueOf(s.due, s.delayed[0]) - s.cycles, DueOf(s'.due, s'.delayed[0]) - s.cycles, period);
    }
  }

  lemma Differs(a: int, b: int, period: int)
    requires period > 0
    ensures a * period == b * period <==> a == b
  {
    if a < b { Mult(a + 1, b, period); }
    if b < a { Mult(b + 1, a, period); }
  }

  /** A clock that wakes at its wake-up jumps to the cycle of its first waiting event, whatever the time is. */
  lemma BeginJumps(s: Clock)
    requires Inv(s) && s.parked && s.delayed != []
    ensures Begin(s).cycles == DueOf(s.due, s.delayed[0])
  {
    BeginFlushing(s);
    FlushKeeps(s.(running := true, wake := None, parked := false, mustFlush := false));
  }

  /**
   Enqueueing while parked leaves the wake-up right exactly if it happens on a clock edge or the
   event is not the next one.
   */
  lemma EnqueueKeepsTimeIff(s: Clock, e: nat, d: nat, t: int, period: int)
    requires Inv(s) && s.parked && OnTime(s, period) && period > 0 && e !in s.due && s.stopTime <= t
    requires (s.wake.Some? ==> t <= s.wake.value) && (s.delayed == [] ==> s.wake.None?)
    ensures |s.wheel| == SIZE
    ensures var s' := Enqueue(s, e, d, t, period);
      OnTime(s', period) <==> s'.stopTime == t || (s.delayed != [] && DueOf(s.due, s.delayed[0]) < s'.cycles + d)
  {
    hide Inv, Missed;
    Sizes(s);
    ParkedMeans(s);
    NotOnList(s, e);
    UpdateKeepsTime(s, t, period);
    var f := Update(s, t, period);
    var s' := Enqueue(s, e, d, t, period);
    assert s' == EnqueueOther(f, e, d, t, period);
    if s.delayed != [] {
      var h := DueOf(s.due, s.delayed[0]);
      SameSlack(s, f, period, h);
      if h < f.cycles + d {
        Mult(h - f.cycles + 1, d, period);
      } else {
        Mult(d, h - f.cycles, period);
      }
    }
  }
}
