/**
 What becomes of each single enqueue of an event over a whole run of a clock: an event may be
 enqueued many times, and every one of these enqueues is written down with the cycle it is for and
 the one thing that happened to it.
 */
module ClockHistory {
  import opened ClockCalendar

  /** An enqueue waits, has run as a certain entry of the clock's log, or was cancelled. */
  datatype Fate = Waiting | RanAs(k: nat) | Cancelled

  /** One enqueue: the event, the cycle it is for, the time it was asked for, and its fate so far. */
  datatype Ticket = Ticket(event: nat, due: int, asked: int, fate: Fate)

  /** The waiting enqueues of an event meet their fate. */
  function Settle(ts: seq<Ticket>, e: nat, fate: Fate): (r: seq<Ticket>)
    ensures |r| == |ts|
  {
    seq(|ts|, i requires 0 <= i < |ts| =>
      if ts[i].event == e && ts[i].fate.Waiting? then ts[i].(fate := fate) else ts[i])
  }

  /**
   What one action adds to the record. An enqueue at time `t` is for `d` cycles after the cycle the clock is
   in by then, and asks for `d` periods after `t`.
   */
  function Noted(l: Life, a: Action, period: int, ts: seq<Ticket>): seq<Ticket>
    requires |l.clock.wheel| == SIZE && Enabled(l, a, period) && period > 0
  {
    match a
    case DoEnqueue(e, d, t) => ts + [Ticket(e, Sync(l.clock, t, period).cycles + d, t + d * period, Waiting)]
    case DoCancel(e) => Settle(ts, e, Cancelled)
    case DoRun => Settle(ts, l.clock.wheel[l.clock.current][0], RanAs(|l.log|))
    case _ => ts
  }

  function Tickets(l: Life, actions: seq<Action>, period: int, ts: seq<Ticket>): seq<Ticket>
    requires period > 0 && IsLife(l, actions, period)
    decreases |actions|
  {
    if actions == [] then ts
    else Tickets(Do(l, actions[0], period), actions[1..], period, Noted(l, actions[0], period, ts))
  }

  // ---------------------------------------------------------------- what the record says

  /** A waiting enqueue is in the calendar for its cycle; one that ran did so once its cycle had come, at that cycle. */
  predicate RightFate(l: Life, k: Ticket) {
    match k.fate
    case Waiting => k.event in l.clock.due && l.clock.due[k.event] == k.due
    case RanAs(n) => n < |l.log| && l.log[n].event == k.event && l.log[n].due == l.log[n].at == k.due
    case Cancelled => true
  }

  predicate Waits(ts: seq<Ticket>, e: nat) {
    exists i :: 0 <= i < |ts| && ts[i].event == e && ts[i].fate == Waiting
  }

  predicate HasRun(ts: seq<Ticket>, k: nat) {
    exists i :: 0 <= i < |ts| && ts[i].fate == RanAs(k)
  }

  /** Two enqueues never share a place in the calendar or an entry of the log. */
  predicate Apart(a: Ticket, b: Ticket) {
    && (a.fate.Waiting? && b.fate.Waiting? ==> a.event != b.event)
    && (a.fate.RanAs? && b.fate.RanAs? ==> a.fate.k != b.fate.k)
  }

  /** Enqueues on the one side, events in the calendar and entries of the log on the other: each has exactly one. */
  predicate Accounted(l: Life, ts: seq<Ticket>) {
    && |ts| == l.enqueued
    && (forall i :: 0 <= i < |ts| ==> RightFate(l, ts[i]))
    && (forall i, j :: 0 <= i < j < |ts| ==> Apart(ts[i], ts[j]))
    && (forall e :: e in l.clock.due ==> Waits(ts, e))
    && (forall k: nat :: k < |l.log| ==> HasRun(ts, k))
  }

  // ---------------------------------------------------------------- action by action

  lemma EnqueueNotes(l: Life, e: nat, d: nat, t: int, period: int, ts: seq<Ticket>)
    requires LifeInv(l, period) && period > 0 && Enabled(l, DoEnqueue(e, d, t), period) && Accounted(l, ts)
    ensures Accounted(Do(l, DoEnqueue(e, d, t), period), Noted(l, DoEnqueue(e, d, t), period, ts))
  {
    hide Inv, Enqueue, Sync, Accounted;
    DueAfterEnqueue(l.clock, e, d, t, period);
    var asked := t + d * period;
    OneMore(l, Do(l, DoEnqueue(e, d, t), period), ts,
            Ticket(e, Sync(l.clock, t, period).cycles + d, asked, Waiting));
  }

  lemma DueAfterEnqueue(s: Clock, e: nat, d: nat, t: int, period: int)
    requires |s.wheel| == SIZE && period > 0
    ensures Enqueue(s, e, d, t, period).due == s.due[e := Sync(s, t, period).cycles + d]
  {
    EnqueueIs(Sync(s, t, period), e, d, t, period);
  }

  lemma OneMore(l: Life, r: Life, ts: seq<Ticket>, k: Ticket)
    requires Accounted(l, ts) && k.fate.Waiting? && k.event !in l.clock.due
    requires r.enqueued == l.enqueued + 1 && r.log == l.log && r.clock.due == l.clock.due[k.event := k.due]
    ensures Accounted(r, ts + [k])
  {
    var after := ts + [k];
    forall e | e in r.clock.due ensures Waits(after, e) {
      if e == k.event {
        assert after[|ts|] == k;
      } else {
        assert Waits(ts, e);
        var i :| 0 <= i < |ts| && ts[i].event == e && ts[i].fate == Waiting;
        assert after[i] == ts[i];
      }
    }
    forall n: nat | n < |r.log| ensures HasRun(after, n) {
      assert HasRun(ts, n);
      var i :| 0 <= i < |ts| && ts[i].fate == RanAs(n);
      assert after[i] == ts[i];
    }
  }

  /** An event leaves the calendar, and its one waiting enqueue meets its fate. */
  lemma OneSettled(l: Life, r: Life, ts: seq<Ticket>, e: nat, fate: Fate)
    requires Accounted(l, ts) && r.enqueued == l.enqueued && r.clock.due == l.clock.due - {e} && e in l.clock.due
    requires fate == Cancelled ==> r.log == l.log
    requires fate != Cancelled ==>
      fate == RanAs(|l.log|) && r.log == l.log + [Ran(e, l.clock.due[e], l.clock.due[e], l.now)]
    ensures Accounted(r, Settle(ts, e, fate))
  {
    var after := Settle(ts, e, fate);
    forall x | x in r.clock.due ensures Waits(after, x) {
      assert Waits(ts, x);
      var i :| 0 <= i < |ts| && ts[i].event == x && ts[i].fate == Waiting;
      assert after[i] == ts[i];
    }
    forall n: nat | n < |r.log| ensures HasRun(after, n) {
      if n < |l.log| {
        assert HasRun(ts, n);
        var i :| 0 <= i < |ts| && ts[i].fate == RanAs(n);
        assert after[i] == ts[i];
      } else {
        assert Waits(ts, e);
        var i :| 0 <= i < |ts| && ts[i].event == e && ts[i].fate == Waiting;
        assert after[i].fate == RanAs(n);
      }
    }
    forall i, j | 0 <= i < j < |after| ensures Apart(after[i], after[j]) {
      assert Apart(ts[i], ts[j]) && RightFate(l, ts[i]) && RightFate(l, ts[j]);
    }
  }

  lemma NothingSettled(l: Life, ts: seq<Ticket>, e: nat, fate: Fate)
    requires Accounted(l, ts) && e !in l.clock.due
    ensures Settle(ts, e, fate) == ts
  {
    forall i | 0 <= i < |ts| ensures Settle(ts, e, fate)[i] == ts[i] { assert RightFate(l, ts[i]); }
  }

  lemma CancelNotes(l: Life, e: nat, period: int, ts: seq<Ticket>)
    requires LifeInv(l, period) && period > 0 && Accounted(l, ts)
    ensures Accounted(Do(l, DoCancel(e), period), Noted(l, DoCancel(e), period, ts))
  {
    hide Inv, Cancel, Accounted, Settle;
    CancelInv(l.clock, e);
    if e in l.clock.due {
      OneSettled(l, Do(l, DoCancel(e), period), ts, e, Cancelled);
    } else {
      NothingSettled(l, ts, e, Cancelled);
      CancelNothing(l.clock, e);
    }
  }

  lemma RunNotes(l: Life, period: int, ts: seq<Ticket>)
    requires LifeInv(l, period) && period > 0 && Enabled(l, DoRun, period) && Accounted(l, ts)
    ensures Accounted(Do(l, DoRun, period), Noted(l, DoRun, period, ts))
  {
    hide Inv, RunOne, Accounted, Settle;
    RunOneInv(l.clock);
    var e := l.clock.wheel[l.clock.current][0];
    OneSettled(l, Do(l, DoRun, period), ts, e, RanAs(|l.log|));
  }

  lemma NothingNoted(l: Life, a: Action, period: int, ts: seq<Ticket>)
    requires LifeInv(l, period) && period > 0 && Enabled(l, a, period) && Accounted(l, ts)
    requires a.DoBegin? || a.DoFinish?
    ensures Accounted(Do(l, a, period), ts)
  {
    hide Inv, Begin, Finish;
    if a.DoBegin? {
      BeginInv(l.clock);
    } else {
      FinishInv(l.clock, l.now, period);
    }
    var r := Do(l, a, period);
    assert r.clock.due == l.clock.due && r.log == l.log && r.enqueued == l.enqueued;
    assert forall k: Ticket :: RightFate(r, k) <==> RightFate(l, k);
  }

  lemma ActionNotes(l: Life, a: Action, period: int, ts: seq<Ticket>)
    requires LifeInv(l, period) && period > 0 && Enabled(l, a, period) && Accounted(l, ts)
    ensures Accounted(Do(l, a, period), Noted(l, a, period, ts))
  {
    match a
    case DoEnqueue(e, d, t) => hide *; EnqueueNotes(l, e, d, t, period, ts);
    case DoCancel(e) => hide *; CancelNotes(l, e, period, ts);
    case DoRun => hide *; RunNotes(l, period, ts);
    case _ => NothingNoted(l, a, period, ts);
  }

  lemma {:induction false} RunAccounts(l: Life, actions: seq<Action>, period: int, ts: seq<Ticket>)
    requires period > 0 && IsLife(l, actions, period) && LifeInv(l, period) && Accounted(l, ts)
    ensures Accounted(After(l, actions, period), Tickets(l, actions, period, ts))
    decreases |actions|
  {
    hide LifeInv, Do, Enabled, Accounted, Noted;
    if actions != [] {
      var a := actions[0];
      ActionKeeps(l, a, period);
      ActionNotes(l, a, period, ts);
      RunAccounts(Do(l, a, period), actions[1..], period, Noted(l, a, period, ts));
    }
  }

  /**
   Over every run each enqueue has exactly one fate: it ran once, at the cycle it was for; or it was
   cancelled; or it waits, alone for its event, for a cycle that is not past. And nothing runs or
   waits that is not one of these enqueues.
   */
  lemma EveryEnqueueIsSettledOnce(actions: seq<Action>, period: int)
    requires period > 0 && IsLife(Born(), actions, period)
    ensures var l := After(Born(), actions, period); var ts := Tickets(Born(), actions, period, []);
      Accounted(l, ts) && forall i :: 0 <= i < |ts| && ts[i].fate.Waiting? ==> l.clock.cycles <= ts[i].due
  {
    StartInv();
    assert LifeInv(Born(), period) by { hide Inv; }
    assert Accounted(Born(), []);
    RunAccounts(Born(), actions, period, []);
    EveryLifeIsPunctual(actions, period);
    var l := After(Born(), actions, period);
    var ts := Tickets(Born(), actions, period, []);
    forall i | 0 <= i < |ts| && ts[i].fate.Waiting? ensures l.clock.cycles <= ts[i].due {
      assert RightFate(l, ts[i]);
    }
  }
}
