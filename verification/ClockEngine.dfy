/**
 The clock engine as an object, with its wheel in an array. Every method does to the fields what the
 state machine of `ClockCalendar` says.
 */
module ClockEngine {
  import opened Wrappers
  import opened ClockCalendar

  lemma {:induction false} InsertDelayedAt(q: seq<nat>, due: map<nat, int>, e: nat, k: nat)
    requires k <= |q| && (forall i :: 0 <= i < k ==> DueOf(due, q[i]) < DueOf(due, e))
    requires k < |q| ==> DueOf(due, e) <= DueOf(due, q[k])
    ensures InsertDelayed(q, due, e) == q[..k] + [e] + q[k..]
  {
    if k > 0 {
      InsertDelayedAt(q[1..], due, e, k - 1);
      assert q[1..][..k - 1] == q[1..k] && q[1..][k - 1..] == q[k..];
      assert [q[0]] + q[1..k] == q[..k];
    }
  }

  class Engine {
    const period: int
    const wheel: array<seq<nat>>
    var current: nat
    var nb: int
    var cycles: int
    var delayed: seq<nat>
    var mustFlush: bool
    var running: bool
    var due: map<nat, int>
    var stopTime: int
    var wake: Option<int>
    ghost var parked: bool

    ghost function View(): Clock
      reads this, wheel
    {
      Clock(wheel[..], current, nb, cycles, delayed, mustFlush, running, due, stopTime, wake, parked)
    }

    constructor (period: int)
      requires period > 0
      ensures fresh(wheel) && this.period == period && View() == Start()
    {
      this.period := period;
      wheel := new seq<nat>[SIZE](_ => []);
      current, nb, cycles, delayed, mustFlush, running := 0, 0, 0, [], true, false;
      due, stopTime, wake, parked := map[], 0, None, true;
      new;
      assert wheel[..] == Start().wheel;
    }

    method EnqueueToCycle(e: nat, d: nat)
      requires wheel.Length == SIZE
      modifies wheel, this`nb, this`due
      ensures View() == ToWheel(old(View()), e, d)
    {
      var k := (current + d) % SIZE;
      wheel[k] := [e] + wheel[k];
      nb := nb + 1;
      due := due[e := cycles + d];
    }

    /** The global scheduler's `enqueue`, as far as this client sees it. */
    method EnqueueToEngine(time: int)
      modifies this`wake
      ensures wake == WakeAt(old(View()), time)
    {
      if !running && (wake.None? || time < wake.value) { wake := Some(time); }
    }

    method InsertInList(e: nat)
      modifies this`delayed
      ensures delayed == InsertDelayed(old(delayed), due, e)
    {
      var i := 0;
      while i < |delayed| && DueOf(due, delayed[i]) < DueOf(due, e)
        invariant 0 <= i <= |delayed|
        invariant forall j :: 0 <= j < i ==> DueOf(due, delayed[j]) < DueOf(due, e)
      {
        i := i + 1;
      }
      InsertDelayedAt(delayed, due, e, i);
      delayed := delayed[..i] + [e] + delayed[i..];
    }

    method EnqueueOther(e: nat, d: nat, now: int)
      modifies this`mustFlush, this`wake, this`due, this`delayed
      ensures View() == ClockCalendar.EnqueueOther(old(View()), e, d, now, period)
    {
      hide InsertDelayed;
      mustFlush := true;
      EnqueueToEngine(now + d * period);
      due := due[e := cycles + d];
      InsertInList(e);
    }

    method Update(now: int)
      requires period > 0
      modifies this`cycles, this`stopTime
      ensures View() == ClockCalendar.Update(old(View()), now, period)
    {
      var diff := now - stopTime;
      if diff > 0 {
        var n := (diff + period - 1) / period;
        stopTime := stopTime + n * period;
        cycles := cycles + n;
      }
    }

    method Enqueue(e: nat, d: nat, now: int)
      requires wheel.Length == SIZE && period > 0
      modifies this, wheel
      ensures View() == ClockCalendar.Enqueue(old(View()), e, d, now, period)
    {
      if !running && nb == 0 { Update(now); }
      if running && d < SIZE { EnqueueToCycle(e, d); } else { EnqueueOther(e, d, now); }
    }

    /** Takes the event off the list, if it is on it. */
    method CancelDelayed(e: nat) returns (found: bool)
      modifies this`delayed
      ensures found <==> e in old(delayed)
      ensures delayed == if found then Without(old(delayed), e) else old(delayed)
    {
      var i := 0;
      while i < |delayed| && delayed[i] != e
        invariant 0 <= i <= |delayed| && e !in delayed[..i]
        invariant Without(delayed, e) == delayed[..i] + Without(delayed[i..], e)
      {
        assert delayed[i..][1..] == delayed[i + 1..];
        assert delayed[..i] + [delayed[i]] == delayed[..i + 1];
        i := i + 1;
      }
      found := i < |delayed|;
      if found { delayed := delayed[..i] + delayed[i + 1..]; }
    }

    /** Takes the event out of the first slot that holds it. */
    method CancelWheel(e: nat) returns (found: bool)
      requires wheel.Length == SIZE
      modifies wheel, this`nb
      ensures var k := SlotHolding(old(wheel[..]), e, 0);
        && (found <==> k < SIZE) && nb == (if found then old(nb) - 1 else old(nb))
        && wheel[..] == if found then old(wheel[..])[k := Without(old(wheel[..])[k], e)] else old(wheel[..])
    {
      var k := 0;
      while k < SIZE && e !in wheel[k]
        invariant 0 <= k <= SIZE
        invariant SlotHolding(wheel[..], e, 0) == SlotHolding(wheel[..], e, k)
      {
        k := k + 1;
      }
      found := k < SIZE;
      if found {
        wheel[k] := Without(wheel[k], e);
        nb := nb - 1;
      }
    }

    method Cancel(e: nat)
      requires wheel.Length == SIZE
      modifies this, wheel
      ensures View() == ClockCalendar.Cancel(old(View()), e)
    {
      if e !in due { return; }
      var found := CancelDelayed(e);
      if !found { found := CancelWheel(e); }
      due := due - {e};
      if nb == 0 && delayed == [] && !running { wake := None; }
    }

    method FlushDelayedQueue()
      requires wheel.Length == SIZE
      modifies this, wheel
      ensures View() == Flush(old(View()))
    {
      hide Flush, ToWheel;
      ghost var s0 := View();
      while delayed != []
        invariant Flush(s0) == Flush(View())
        decreases |delayed|
      {
        ghost var s1 := View();
        FlushIs(s1);
        var e := delayed[0];
        if nb == 0 { cycles := DueOf(due, e); }
        var diff := DueOf(due, e) - cycles;
        if diff < 0 || diff >= SIZE { return; }
        EnqueueToCycle(e, diff);
        delayed := delayed[1..];
        TailFrame(Jumped(s1), e, diff);
      }
      FlushNone(View());
    }

    lemma TailFrame(s: Clock, e: nat, diff: nat)
      requires |s.wheel| == SIZE
      ensures ToWheel(s, e, diff).delayed == s.delayed
    {
    }

    method BeginExec()
      requires wheel.Length == SIZE && !running
      modifies this, wheel
      ensures View() == Begin(old(View()))
    {
      running, wake, parked := true, None, false;
      if mustFlush {
        mustFlush := false;
        FlushDelayedQueue();
      }
    }

    /** The next event of the current cycle; its callback may then call `Enqueue` and `Cancel`. */
    method TakeEvent() returns (e: nat)
      requires wheel.Length == SIZE && HasCurrent(View())
      modifies this`nb, this`due, wheel
      ensures View() == RunOne(old(View())) && e == old(wheel[current][0])
    {
      e := wheel[current][0];
      wheel[current] := wheel[current][1..];
      nb := nb - 1;
      due := due - {e};
    }

    method EndExec(now: int) returns (delta: int)
      requires wheel.Length == SIZE
      modifies this
      ensures View() == Finish(old(View()), now, period) && delta == Delta(old(View()), period)
    {
      if nb != 0 {
        cycles := cycles + 1;
        current := (current + 1) % SIZE;
        if current == 0 { mustFlush := true; }
        delta := period;
      } else {
        mustFlush := true;
        stopTime := now;
        parked := true;
        delta := if delayed != [] then (DueOf(due, delayed[0]) - cycles) * period else -1;
      }
      running := false;
      wake := if delta > 0 then Some(now + delta) else None;
    }
  }
}
