/**
 The global scheduler, as a value: a time-ordered list of clients and the plain loop that pops the
 head, executes it and puts it back. This is what the linked list and the fast loop must amount to.
 */
module TimeQueue {

  /** A client waiting for its time. */
  datatype Entry = Entry(client: nat, time: int)

  /** What a client's callback may do to the scheduler. */
  datatype Op = Enqueue(client: nat, delay: nat) | Dequeue(client: nat)

  /** The outcome of one execution: calls into the scheduler, then the delay to the client's next one, if positive. */
  datatype Reaction = Reaction(ops: seq<Op>, delta: int)

  /** Clients are opaque: their reaction may depend on everything executed so far. */
  type Oracle = seq<Entry> -> Reaction

  datatype Scheduler = Scheduler(queue: seq<Entry>, time: int, trace: seq<Entry>)

  predicate Sorted(q: seq<Entry>) {
    forall i, j :: 0 <= i < j < |q| ==> q[i].time <= q[j].time
  }

  predicate Distinct(q: seq<Entry>) {
    forall i, j :: 0 <= i < j < |q| ==> q[i].client != q[j].client
  }

  predicate NotBefore(q: seq<Entry>, time: int) {
    forall i :: 0 <= i < |q| ==> time <= q[i].time
  }

  /** A new entry goes in front of those of the same time. */
  function Insert(q: seq<Entry>, e: Entry): seq<Entry> {
    if q == [] || e.time <= q[0].time then [e] + q else [q[0]] + Insert(q[1..], e)
  }

  function Remove(q: seq<Entry>, c: nat): seq<Entry> {
    if q == [] then [] else if q[0].client == c then q[1..] else [q[0]] + Remove(q[1..], c)
  }

  /** The entry of a client, as a list of at most one. */
  function Find(q: seq<Entry>, c: nat): (r: seq<Entry>)
    ensures |r| <= 1 && (forall e :: e in r ==> e in q && e.client == c)
    ensures r == [] <==> forall e :: e in q ==> e.client != c
  {
    if q == [] then [] else if q[0].client == c then [q[0]] else Find(q[1..], c)
  }

  /** A client that is running or already due by then is left alone; otherwise it is moved forward. */
  function Apply(q: seq<Entry>, now: int, running: nat, op: Op): seq<Entry> {
    match op
    case Dequeue(c) => Remove(q, c)
    case Enqueue(c, delay) =>
      var found := Find(q, c);
      if c == running || (found != [] && found[0].time <= now + delay) then q
      else Insert(Remove(q, c), Entry(c, now + delay))
  }

  function ApplyAll(q: seq<Entry>, now: int, running: nat, ops: seq<Op>): seq<Entry> {
    if ops == [] then q else Apply(ApplyAll(q, now, running, ops[..|ops| - 1]), now, running, ops[|ops| - 1])
  }

  /** Pop the head, execute it, put it back. */
  function PlainStep(s: Scheduler, o: Oracle): Scheduler {
    if s.queue == [] then s
    else
      var e := s.queue[0];
      var trace := s.trace + [e];
      var r := o(trace);
      var q := ApplyAll(s.queue[1..], e.time, e.client, r.ops);
      Scheduler(if r.delta > 0 then Insert(q, Entry(e.client, e.time + r.delta)) else q, e.time, trace)
  }

  function Plain(s: Scheduler, o: Oracle, n: nat): Scheduler {
    if n == 0 then s else PlainStep(Plain(s, o, n - 1), o)
  }

  lemma PlainStepIs(s: Scheduler, o: Oracle, e: Entry, rest: seq<Entry>)
    requires s.queue == [e] + rest
    ensures var r := o(s.trace + [e]); var q := ApplyAll(rest, e.time, e.client, r.ops);
      PlainStep(s, o) ==
      Scheduler(if r.delta > 0 then Insert(q, Entry(e.client, e.time + r.delta)) else q, e.time, s.trace + [e])
  {
    assert s.queue[1..] == rest;
  }

  // ---------------------------------------------------------------- the list stays in order

  predicate Good(s: Scheduler) {
    Sorted(s.queue) && Distinct(s.queue) && NotBefore(s.queue, s.time)
  }

  lemma SortedCons(e: Entry, q: seq<Entry>, time: int)
    requires Sorted(q) && NotBefore(q, e.time) && time <= e.time
    ensures Sorted([e] + q) && NotBefore([e] + q, time)
  {
  }

  lemma SortedSnoc(q: seq<Entry>, e: Entry)
    requires Sorted(q) && forall i :: 0 <= i < |q| ==> q[i].time <= e.time
    ensures Sorted(q + [e])
  {
  }

  lemma SortedTail(q: seq<Entry>, time: int)
    requires Sorted(q) && q != []
    ensures Sorted(q[1..]) && NotBefore(q[1..], q[0].time) && (NotBefore(q, time) ==> time <= q[0].time)
    ensures time <= q[0].time ==> NotBefore(q, time)
  {
  }

  lemma {:induction false} InsertKeeps(q: seq<Entry>, e: Entry, time: int)
    requires Sorted(q) && NotBefore(q, time) && time <= e.time
    ensures Sorted(Insert(q, e)) && NotBefore(Insert(q, e), time)
  {
    hide Sorted, NotBefore;
    if q == [] {
      SortedSingle(e, time);
    } else {
      SortedTail(q, time);
      if e.time <= q[0].time {
        SortedTail(q, e.time);
        SortedCons(e, q, time);
      } else {
        InsertKeeps(q[1..], e, q[0].time);
        SortedCons(q[0], Insert(q[1..], e), time);
      }
    }
  }

  lemma SortedSingle(e: Entry, time: int)
    requires time <= e.time
    ensures Sorted([e] + []) && NotBefore([e] + [], time)
  {
  }

  lemma {:induction false} InsertHolds(q: seq<Entry>, e: Entry)
    ensures forall x :: x in Insert(q, e) <==> x in q || x == e
  {
    if q != [] && e.time > q[0].time {
      InsertHolds(q[1..], e);
      assert q == [q[0]] + q[1..];
    }
  }

  lemma DistinctCons(e: Entry, q: seq<Entry>)
    ensures Distinct([e] + q) <==> Distinct(q) && forall x :: x in q ==> x.client != e.client
  {
    var r := [e] + q;
    if Distinct(r) {
      forall i, j | 0 <= i < j < |q| ensures q[i].client != q[j].client { assert r[i + 1] == q[i] && r[j + 1] == q[j]; }
      forall x | x in q ensures x.client != e.client {
        var i :| 0 <= i < |q| && q[i] == x;
        assert r[0] == e && r[i + 1] == x;
      }
    }
  }

  lemma {:induction false} InsertDistinct(q: seq<Entry>, e: Entry)
    requires Distinct(q) && forall x :: x in q ==> x.client != e.client
    ensures Distinct(Insert(q, e))
  {
    hide Distinct;
    if q == [] || e.time <= q[0].time {
      DistinctCons(e, q);
    } else {
      assert q == [q[0]] + q[1..];
      DistinctCons(q[0], q[1..]);
      InsertDistinct(q[1..], e);
      InsertHolds(q[1..], e);
      DistinctCons(q[0], Insert(q[1..], e));
    }
  }

  lemma {:induction false} RemoveOrder(q: seq<Entry>, c: nat, time: int)
    requires Sorted(q) && NotBefore(q, time)
    ensures Sorted(Remove(q, c)) && NotBefore(Remove(q, c), time)
  {
    hide Sorted, NotBefore;
    if q != [] {
      SortedTail(q, time);
      if q[0].client == c {
        Earlier(q[1..], time, q[0].time);
      } else {
        RemoveOrder(q[1..], c, q[0].time);
        SortedCons(q[0], Remove(q[1..], c), time);
      }
    }
  }

  lemma Earlier(q: seq<Entry>, time: int, later: int)
    requires NotBefore(q, later) && time <= later
    ensures NotBefore(q, time)
  {
  }

  lemma {:induction false} RemoveDistinct(q: seq<Entry>, c: nat)
    requires Distinct(q)
    ensures Distinct(Remove(q, c)) && forall x :: x in Remove(q, c) <==> x in q && x.client != c
  {
    hide Distinct;
    if q != [] {
      assert q == [q[0]] + q[1..];
      DistinctCons(q[0], q[1..]);
      RemoveDistinct(q[1..], c);
      DistinctCons(q[0], Remove(q[1..], c));
    }
  }

  /** Sorted, without repeats, and without the client that runs. */
  predicate Waiting(q: seq<Entry>, now: int, running: nat) {
    Sorted(q) && Distinct(q) && NotBefore(q, now) && forall x :: x in q ==> x.client != running
  }

  lemma ApplyKeeps(q: seq<Entry>, now: int, running: nat, op: Op)
    requires Waiting(q, now, running)
    ensures Waiting(Apply(q, now, running, op), now, running)
  {
    hide Sorted, Distinct, NotBefore;
    RemoveOrder(q, op.client, now);
    RemoveDistinct(q, op.client);
    if op.Enqueue? {
      InsertKeeps(Remove(q, op.client), Entry(op.client, now + op.delay), now);
      InsertDistinct(Remove(q, op.client), Entry(op.client, now + op.delay));
      InsertHolds(Remove(q, op.client), Entry(op.client, now + op.delay));
    }
  }

  lemma {:induction false} ApplyAllKeeps(q: seq<Entry>, now: int, running: nat, ops: seq<Op>)
    requires Waiting(q, now, running)
    ensures Waiting(ApplyAll(q, now, running, ops), now, running)
  {
    if ops != [] {
      ApplyAllKeeps(q, now, running, ops[..|ops| - 1]);
      ApplyKeeps(ApplyAll(q, now, running, ops[..|ops| - 1]), now, running, ops[|ops| - 1]);
    }
  }

  lemma PlainStepKeepsGood(s: Scheduler, o: Oracle)
    requires Good(s)
    ensures Good(PlainStep(s, o)) && s.time <= PlainStep(s, o).time
  {
    if s.queue != [] {
      var e := s.queue[0];
      var r := o(s.trace + [e]);
      PopLeavesWaiting(s);
      ApplyAllKeeps(s.queue[1..], e.time, e.client, r.ops);
      hide Sorted, Distinct, NotBefore;
      if r.delta > 0 {
        var q := ApplyAll(s.queue[1..], e.time, e.client, r.ops);
        InsertKeeps(q, Entry(e.client, e.time + r.delta), e.time);
        InsertDistinct(q, Entry(e.client, e.time + r.delta));
      }
    }
  }

  lemma PopLeavesWaiting(s: Scheduler)
    requires Good(s) && s.queue != []
    ensures Waiting(s.queue[1..], s.queue[0].time, s.queue[0].client) && s.time <= s.queue[0].time
  {
    assert s.queue == [s.queue[0]] + s.queue[1..];
    DistinctCons(s.queue[0], s.queue[1..]);
    SortedTail(s.queue, s.time);
  }

  /** What has been dispatched since `from` was at non-decreasing times, none before `time` or after the present. */
  predicate InOrder(s: Scheduler, from: nat, time: int) {
    && from <= |s.trace| && time <= s.time
    && Sorted(s.trace[from..]) && NotBefore(s.trace[from..], time)
    && forall i :: from <= i < |s.trace| ==> s.trace[i].time <= s.time
  }

  lemma InOrderStep(s: Scheduler, o: Oracle, from: nat, time: int)
    requires Good(s) && InOrder(s, from, time)
    ensures InOrder(PlainStep(s, o), from, time)
  {
    PlainStepKeepsGood(s, o);
    if s.queue != [] {
      var e := s.queue[0];
      SortedSnoc(s.trace[from..], e);
      assert (s.trace + [e])[from..] == s.trace[from..] + [e];
    }
  }

  /** Times never decrease along a run. */
  lemma {:induction false} PlainKeepsGood(s: Scheduler, o: Oracle, n: nat)
    requires Good(s)
    ensures Good(Plain(s, o, n)) && InOrder(Plain(s, o, n), |s.trace|, s.time)
  {
    if n > 0 {
      PlainKeepsGood(s, o, n - 1);
      PlainStepKeepsGood(Plain(s, o, n - 1), o);
      InOrderStep(Plain(s, o, n - 1), o, |s.trace|, s.time);
    }
  }

  lemma PlainNone(s: Scheduler, o: Oracle)
    ensures Plain(s, o, 0) == s
  {
  }

  /** A run can be cut anywhere. */
  lemma {:induction false} PlainSplits(s: Scheduler, o: Oracle, n: nat, m: nat)
    ensures Plain(Plain(s, o, n), o, m) == Plain(s, o, n + m)
  {
    hide PlainStep;
    if m > 0 { PlainSplits(s, o, n, m - 1); }
  }
}
