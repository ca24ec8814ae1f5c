/**
 The waiting pulse ends as the program keeps them: traces linked both ways through their `next` and
 `prev` fields.
 */
module TracePulses {
  import opened Sequences
  import opened TracePending

  class Trace {
    const id: nat
    var next: Trace?
    var prev: Trace?
    var pendingTimestamp: int
    var buffer: Value

    constructor (id: nat)
      ensures this.id == id && pendingTimestamp == -1
    {
      this.id, next, prev, pendingTimestamp, buffer := id, null, null, -1, Value(false, []);
    }
  }

  ghost function Entries(q: seq<Trace>): (r: seq<Entry>)
    reads (set t | t in q)`pendingTimestamp, (set t | t in q)`buffer
    ensures |r| == |q| && forall i :: 0 <= i < |q| ==> r[i] == Entry(q[i].id, q[i].pendingTimestamp, q[i].buffer)
  {
    if q == [] then [] else [Entry(q[0].id, q[0].pendingTimestamp, q[0].buffer)] + Entries(q[1..])
  }

  /** The traces of `q` are linked in both directions. */
  ghost predicate Linked(first: Trace?, q: seq<Trace>)
    reads (set t | t in q)`next, (set t | t in q)`prev
  {
    && first == (if q == [] then null else q[0])
    && (forall i {:trigger q[i].next} :: 0 <= i < |q| ==> q[i].next == if i + 1 < |q| then q[i + 1] else null)
    && (forall i {:trigger q[i].prev} :: 0 <= i < |q| ==> q[i].prev == if i > 0 then q[i - 1] else null)
  }

  // ---------------------------------------------------------------- positions in the list

  lemma {:induction false} InsertAt(q: seq<Entry>, e: Entry, k: nat)
    requires k <= |q| && (forall i :: 0 <= i < k ==> q[i].time < e.time) && (k < |q| ==> e.time <= q[k].time)
    ensures Insert(q, e) == q[..k] + [e] + q[k..]
  {
    if k > 0 {
      InsertAt(q[1..], e, k - 1);
      assert q[1..][..k - 1] == q[1..k] && q[1..][k - 1..] == q[k..];
      assert [q[0]] + q[1..k] == q[..k];
    }
  }

  lemma {:induction false} RemoveAt(q: seq<Entry>, trace: nat, k: nat)
    requires k < |q| && q[k].trace == trace && (forall i :: 0 <= i < k ==> q[i].trace != trace)
    ensures Remove(q, trace) == q[..k] + q[k + 1..]
  {
    if k > 0 {
      RemoveAt(q[1..], trace, k - 1);
      assert q[1..][..k - 1] == q[1..k] && q[1..][k..] == q[k + 1..];
      assert [q[0]] + q[1..k] == q[..k];
    }
  }

  lemma {:induction false} RemoveNone(q: seq<Entry>, trace: nat)
    requires forall i :: 0 <= i < |q| ==> q[i].trace != trace
    ensures Remove(q, trace) == q
  {
    if q != [] { RemoveNone(q[1..], trace); }
  }

  lemma EntriesCut(q: seq<Trace>, k: nat)
    requires k < |q|
    ensures Entries(q[..k] + q[k + 1..]) == Entries(q)[..k] + Entries(q)[k + 1..]
  {
    hide Entries;
  }

  lemma EntriesSpliced(q: seq<Trace>, k: nat, t: Trace, entries: seq<Entry>)
    requires k <= |q| == |entries|
    requires forall i :: 0 <= i < |q| ==> entries[i] == Entry(q[i].id, q[i].pendingTimestamp, q[i].buffer)
    ensures Entries(q[..k] + [t] + q[k..]) == entries[..k] + [Entry(t.id, t.pendingTimestamp, t.buffer)] + entries[k..]
  {
    hide Entries;
  }

  // ---------------------------------------------------------------- pointers

  lemma UnchainedNext(q: seq<Trace>, k: nat)
    requires k < |q|
    requires forall i {:trigger q[i].next} :: 0 <= i < |q| ==>
      q[i].next == if i == k - 1 then (if k + 1 < |q| then q[k + 1] else null)
        else if i + 1 < |q| then q[i + 1] else null
    ensures var r := q[..k] + q[k + 1..]; forall i :: 0 <= i < |r| ==>
      r[i].next == if i + 1 < |r| then r[i + 1] else null
  {
    var r := q[..k] + q[k + 1..];
    forall i | 0 <= i < |r| ensures r[i].next == if i + 1 < |r| then r[i + 1] else null {
      assert r[i] == q[if i < k then i else i + 1];
    }
  }

  lemma UnchainedPrev(q: seq<Trace>, k: nat)
    requires k < |q|
    requires forall i {:trigger q[i].prev} :: 0 <= i < |q| && i != k ==>
      q[i].prev == if i == k + 1 then (if k > 0 then q[k - 1] else null) else if i > 0 then q[i - 1] else null
    ensures var r := q[..k] + q[k + 1..]; forall i :: 0 <= i < |r| ==> r[i].prev == if i > 0 then r[i - 1] else null
  {
    var r := q[..k] + q[k + 1..];
    forall i | 0 <= i < |r| ensures r[i].prev == if i > 0 then r[i - 1] else null {
      assert r[i] == q[if i < k then i else i + 1];
      assert i > 0 ==> r[i - 1] == q[if i - 1 < k then i - 1 else i];
    }
  }

  /** Cutting out position `k`: its neighbours point past it. */
  lemma Unchained(first: Trace?, q: seq<Trace>, k: nat)
    requires k < |q| && first == (if k > 0 then q[0] else if |q| > 1 then q[1] else null)
    requires forall i {:trigger q[i].next} :: 0 <= i < |q| ==>
      q[i].next == if i == k - 1 then (if k + 1 < |q| then q[k + 1] else null)
        else if i + 1 < |q| then q[i + 1] else null
    requires forall i {:trigger q[i].prev} :: 0 <= i < |q| && i != k ==>
      q[i].prev == if i == k + 1 then (if k > 0 then q[k - 1] else null) else if i > 0 then q[i - 1] else null
    ensures Linked(first, q[..k] + q[k + 1..])
  {
    UnchainedNext(q, k);
    UnchainedPrev(q, k);
  }

  lemma Chained(first: Trace?, q: seq<Trace>, k: nat, t: Trace)
    requires k <= |q| && first == (if k == 0 then t else q[0])
    requires forall i {:trigger q[i].next} :: 0 <= i < |q| ==>
      q[i].next == if i == k - 1 then t else if i + 1 < |q| then q[i + 1] else null
    requires forall i {:trigger q[i].prev} :: 0 <= i < |q| ==>
      q[i].prev == if i == k then t else if i > 0 then q[i - 1] else null
    requires t.next == (if k < |q| then q[k] else null) && t.prev == (if k > 0 then q[k - 1] else null)
    ensures Linked(first, q[..k] + [t] + q[k..])
  {
    var r := q[..k] + [t] + q[k..];
    forall i | 0 <= i < |r| ensures r[i].next == if i + 1 < |r| then r[i + 1] else null {
      if i < k { assert r[i] == q[i]; }
      if i > k { assert r[i] == q[i - 1]; }
    }
    forall i | 0 <= i < |r| ensures r[i].prev == if i > 0 then r[i - 1] else null {
      if i < k { assert r[i] == q[i]; }
      if i > k { assert r[i] == q[i - 1]; }
    }
  }

  lemma WithoutOne(q: seq<Trace>, k: nat)
    requires NoRepeats(q) && k < |q|
    ensures NoRepeats(q[..k] + q[k + 1..]) && forall t :: t in q[..k] + q[k + 1..] <==> t in q && t != q[k]
  {
    var r := q[..k] + q[k + 1..];
    forall i | 0 <= i < |r| ensures r[i] == q[if i < k then i else i + 1] {}
    forall t | t in q && t != q[k] ensures t in r {
      var i :| 0 <= i < |q| && q[i] == t;
      assert r[if i < k then i else i - 1] == t;
    }
  }

  lemma WithOne(q: seq<Trace>, k: nat, t: Trace)
    requires NoRepeats(q) && k <= |q| && t !in q
    ensures NoRepeats(q[..k] + [t] + q[k..]) && forall x :: x in q[..k] + [t] + q[k..] <==> x in q || x == t
  {
    var r := q[..k] + [t] + q[k..];
    forall i | 0 <= i < |r| ensures r[i] == if i < k then q[i] else if i == k then t else q[i - 1] {}
    forall x | x in q ensures x in r {
      var i :| 0 <= i < |q| && q[i] == x;
      assert r[if i < k then i else i + 1] == x;
    }
    assert r[k] == t;
  }

  /** A position is told apart by its element. */
  lemma Apart(q: seq<Trace>, k: nat)
    requires NoRepeats(q) && k < |q|
    ensures forall i :: 0 <= i < |q| && i != k ==> q[i] != q[k]
  {
  }

  class PulseList {
    const registry: map<nat, Trace>
    var firstPendingEvent: Trace?
    var stream: seq<Entry>
    ghost var queue: seq<Trace>

    ghost predicate Registered(t: Trace) {
      t.id in registry && registry[t.id] == t
    }

    ghost predicate Known(q: seq<Trace>) {
      (forall id :: id in registry ==> registry[id].id == id) && (forall t :: t in q ==> Registered(t)) && NoRepeats(q)
    }

    /** A trace has a pending timestamp exactly while it is in the list. */
    ghost predicate Marked()
      reads this`queue, registry.Values`pendingTimestamp
    {
      forall id :: id in registry ==> (registry[id].pendingTimestamp != -1 <==> registry[id] in queue)
    }

    ghost predicate Valid()
      reads this`queue, this`firstPendingEvent, registry.Values`next, registry.Values`prev,
        registry.Values`pendingTimestamp
    {
      Known(queue) && Linked(firstPendingEvent, queue) && Marked()
    }

    ghost function View(): Pulses
      reads this`queue, this`stream, registry.Values`pendingTimestamp, registry.Values`buffer
      requires Known(queue)
    {
      Pulses(Entries(queue), stream)
    }

    method Cut(trace: Trace, ghost k: nat)
      requires Linked(firstPendingEvent, queue) && NoRepeats(queue) && k < |queue| && queue[k] == trace
      modifies this`firstPendingEvent, this`queue, (set t | t in queue)`next, (set t | t in queue)`prev
      ensures queue == old(queue)[..k] + old(queue)[k + 1..] && Linked(firstPendingEvent, queue)
    {
      hide NoRepeats;
      ghost var q := queue;
      Apart(q, k);
      if k > 0 { Apart(q, k - 1); }
      if k + 1 < |q| { Apart(q, k + 1); }
      if trace.prev != null { trace.prev.next := trace.next; } else { firstPendingEvent := trace.next; }
      if trace.next != null { trace.next.prev := trace.prev; }
      queue := q[..k] + q[k + 1..];
      Unchained(firstPendingEvent, q, k);
    }

    method Splice(trace: Trace, prev: Trace?, current: Trace?, ghost k: nat)
      requires Linked(firstPendingEvent, queue) && NoRepeats(queue) && k <= |queue| && trace !in queue
      requires At(k, prev, current)
      modifies this`firstPendingEvent, this`queue, (set t | t in queue)`next,
        (set t | t in queue)`prev, trace`next, trace`prev
      ensures queue == old(queue)[..k] + [trace] + old(queue)[k..] && Linked(firstPendingEvent, queue)
    {
      hide NoRepeats;
      ghost var q := queue;
      if k > 0 { Apart(q, k - 1); }
      if k < |q| { Apart(q, k); }
      if prev != null { prev.next := trace; } else { firstPendingEvent := trace; }
      trace.prev := prev;
      trace.next := current;
      if current != null { current.prev := trace; }
      queue := q[..k] + [trace] + q[k..];
      Chained(firstPendingEvent, q, k, trace);
    }

    /** The pointers around position `k` of the list. */
    ghost predicate At(k: nat, prev: Trace?, current: Trace?)
      reads this`queue
    {
      k <= |queue| && current == (if k < |queue| then queue[k] else null) && prev == if k == 0 then null
        else queue[k - 1]
    }

    method FindTime(timestamp: int) returns (prev: Trace?, current: Trace?, ghost k: nat)
      requires Linked(firstPendingEvent, queue)
      ensures At(k, prev, current)
      ensures forall i :: 0 <= i < k ==> queue[i].pendingTimestamp < timestamp
      ensures k < |queue| ==> timestamp <= queue[k].pendingTimestamp
    {
      current, prev, k := firstPendingEvent, null, 0;
      while current != null && current.pendingTimestamp < timestamp
        invariant At(k, prev, current)
        invariant forall i :: 0 <= i < k ==> queue[i].pendingTimestamp < timestamp
        decreases |queue| - k
      {
        prev, current := current, current.next;
        k := k + 1;
      }
    }

    /** Marked, except perhaps for one trace that has just left the list. */
    ghost predicate MarkedBut(t: Trace)
      reads this`queue, registry.Values`pendingTimestamp
    {
      forall id :: id in registry && registry[id] != t ==>
        (registry[id].pendingTimestamp != -1 <==> registry[id] in queue)
    }

    method EnqueuePending(trace: Trace, timestamp: int, event: Value)
      requires Known(queue) && Linked(firstPendingEvent, queue) && MarkedBut(trace)
      requires Registered(trace) && trace !in queue && timestamp != -1
      modifies this`firstPendingEvent, this`queue, registry.Values`next, registry.Values`prev
      modifies trace`pendingTimestamp, trace`buffer
      ensures Valid()
      ensures View() == old(View()).(waiting := Insert(old(View()).waiting, Entry(trace.id, timestamp, event)))
    {
      hide Linked, NoRepeats, Entries, Insert;
      assert registry[trace.id] in registry.Values;
      var prev, current, k := FindTime(timestamp);
      ghost var q := queue;
      ghost var entries := Entries(q);
      InsertAt(entries, Entry(trace.id, timestamp, event), k);
      WithOne(q, k, trace);
      trace.pendingTimestamp := timestamp;
      trace.buffer := event;
      Splice(trace, prev, current, k);
      EntriesSpliced(q, k, trace, entries);
    }

    lemma EntriesWithout(q: seq<Trace>, k: nat)
      requires Known(q) && k < |q|
      ensures Entries(q[..k] + q[k + 1..]) == Remove(Entries(q), q[k].id)
    {
      hide Entries, Remove, NoRepeats;
      forall i | 0 <= i < k ensures Entries(q)[i].trace != q[k].id { SameNumber(q, i, k); }
      RemoveAt(Entries(q), q[k].id, k);
      EntriesCut(q, k);
    }

    lemma SameNumber(q: seq<Trace>, i: nat, k: nat)
      requires Known(q) && i < k < |q|
      ensures q[i].id != q[k].id
    {
      assert Registered(q[i]) && Registered(q[k]);
    }

    lemma NotWaiting(trace: Trace)
      requires Known(queue) && Registered(trace) && trace !in queue
      ensures Remove(Entries(queue), trace.id) == Entries(queue)
    {
      hide Entries, Remove, NoRepeats;
      forall i | 0 <= i < |queue| ensures Entries(queue)[i].trace != trace.id { assert Registered(queue[i]); }
      RemoveNone(Entries(queue), trace.id);
    }

    /** Takes a trace that has something waiting out of the list; its timestamp is overwritten afterwards. */
    method DropPending(trace: Trace)
      requires Valid() && Registered(trace)
      modifies this`firstPendingEvent, this`queue, registry.Values`next, registry.Values`prev
      ensures Known(queue) && Linked(firstPendingEvent, queue) && MarkedBut(trace) && trace !in queue
      ensures View() == old(View()).(waiting := Remove(old(View()).waiting, trace.id))
    {
      hide Linked, NoRepeats, Entries, Remove;
      assert registry[trace.id] == trace;
      if trace.pendingTimestamp != -1 {
        ghost var k :| 0 <= k < |queue| && queue[k] == trace;
        EntriesWithout(queue, k);
        WithoutOne(queue, k);
        Cut(trace, k);
      } else {
        NotWaiting(trace);
      }
    }

    /** Takes the head off the list and dumps it. */
    method DumpHead(trace: Trace) returns (next: Trace?)
      requires Valid() && queue != [] && queue[0] == trace
      modifies this`firstPendingEvent, this`queue, this`stream, trace`pendingTimestamp, (set t | t in queue)`prev
      ensures Valid() && next == firstPendingEvent
      ensures View() == Pulses(old(View()).waiting[1..], old(View()).stream + [old(View()).waiting[0]])
    {
      hide NoRepeats, Entries, Linked;
      ghost var q := queue;
      ghost var entries := Entries(q);
      EntriesCut(q, 0);
      WithoutOne(q, 0);
      assert q[..0] + q[1..] == q[1..] && entries[..0] + entries[1..] == entries[1..];
      stream := stream + [Entry(trace.id, trace.pendingTimestamp, trace.buffer)];
      next := Behead(trace);
      trace.pendingTimestamp := -1;
      Unmark(q, trace);
    }

    /** The list without its head. */
    method Behead(trace: Trace) returns (next: Trace?)
      requires Linked(firstPendingEvent, queue) && NoRepeats(queue) && queue != [] && queue[0] == trace
      modifies this`firstPendingEvent, this`queue, (set t | t in queue)`prev
      ensures next == firstPendingEvent && queue == old(queue)[1..] && Linked(firstPendingEvent, queue)
    {
      hide NoRepeats;
      ghost var q := queue;
      if |q| > 1 { Apart(q, 1); }
      next := trace.next;
      firstPendingEvent := next;
      if next != null { next.prev := null; }
      queue := queue[1..];
      Unchained(firstPendingEvent, q, 0);
      assert q[..0] + q[1..] == q[1..];
    }

    lemma Unmark(q: seq<Trace>, trace: Trace)
      requires Known(q) && trace in q && queue == q[1..] && q[0] == trace && trace !in q[1..]
      requires trace.pendingTimestamp == -1
      requires forall id :: id in registry && registry[id] != trace ==>
        (registry[id].pendingTimestamp != -1 <==> registry[id] in q)
      ensures Marked()
    {
      assert q == [q[0]] + q[1..];
    }

    lemma Head()
      requires Known(queue) && Linked(firstPendingEvent, queue)
      ensures firstPendingEvent == null <==> queue == []
      ensures queue != [] ==>
        queue[0] == firstPendingEvent && View().waiting[0].time == firstPendingEvent.pendingTimestamp
      ensures |View().waiting| == |queue| && forall t :: t in queue ==> t in registry.Values
    {
      forall t | t in queue ensures t in registry.Values { assert Registered(t) && registry[t.id] in registry.Values; }
    }

    method CheckPendingEvents(timestamp: int)
      requires Valid()
      modifies this`firstPendingEvent, this`queue, this`stream, registry.Values`pendingTimestamp, registry.Values`prev
      ensures Valid() && View() == Check(old(View()), timestamp)
    {
      hide Linked, NoRepeats, Entries, Check, Known, Marked;
      ghost var p := View();
      Head();
      var trace := firstPendingEvent;
      while trace != null && (timestamp == -1 || trace.pendingTimestamp <= timestamp)
        invariant Valid() && trace == firstPendingEvent && (trace == null <==> queue == [])
        invariant queue != [] ==> queue[0] == trace && View().waiting[0].time == trace.pendingTimestamp
        invariant forall t :: t in queue ==> t in registry.Values
        invariant |View().waiting| == |queue| && Check(p, timestamp) == Check(View(), timestamp)
        decreases |queue|
      {
        CheckOne(View(), timestamp);
        trace := DumpHead(trace);
        Head();
      }
      CheckDone(View(), timestamp);
    }

    lemma CheckOne(p: Pulses, timestamp: int)
      requires p.waiting != [] && (timestamp == -1 || p.waiting[0].time <= timestamp)
      ensures Check(p, timestamp) == Check(Pulses(p.waiting[1..], p.stream + [p.waiting[0]]), timestamp)
    {
    }

    lemma CheckDone(p: Pulses, timestamp: int)
      requires p.waiting == [] || (timestamp != -1 && p.waiting[0].time > timestamp)
      ensures Check(p, timestamp) == p
    {
    }

    method DumpEvent(trace: Trace, timestamp: int, event: Value)
      requires Valid() && Registered(trace)
      modifies this`firstPendingEvent, this`queue, this`stream, registry.Values`pendingTimestamp, registry.Values`prev
      ensures Valid() && View() == TracePending.DumpEvent(old(View()), Entry(trace.id, timestamp, event))
    {
      hide Linked, NoRepeats, Entries, Check;
      CheckPendingEvents(timestamp);
      stream := stream + [Entry(trace.id, timestamp, event)];
    }

    method DumpEventPulse(trace: Trace, timestamp: int, endTimestamp: int, pulseEvent: Value, event: Value)
      requires Valid() && Registered(trace) && endTimestamp != -1
      modifies this`firstPendingEvent, this`queue, this`stream
      modifies registry.Values`next, registry.Values`prev, registry.Values`pendingTimestamp, registry.Values`buffer
      ensures Valid()
      ensures View() == DumpPulse(old(View()), Entry(trace.id, timestamp, pulseEvent), endTimestamp, event)
    {
      hide Linked, NoRepeats, Entries, Check, Insert, Remove;
      assert registry[trace.id] in registry.Values;
      CheckPendingEvents(timestamp);
      DropPending(trace);
      stream := stream + [Entry(trace.id, timestamp, pulseEvent)];
      EnqueuePending(trace, endTimestamp, event);
    }
  }
}
