/**
 The global scheduler as the program has it: clients linked through their `next` fields, and the
 main loop with its shortcut for a client that stays first. It dispatches exactly what the plain
 loop over a time-ordered list dispatches.
 */
module TimeEngine {
  import opened Sequences
  import opened TimeQueue

  class Client {
    const id: nat
    var next: Client?
    var nextEventTime: int
    var isEnqueued: bool
    var running: bool

    constructor (id: nat)
      ensures this.id == id && !isEnqueued && !running
    {
      this.id, next, nextEventTime, isEnqueued, running := id, null, 0, false, false;
    }
  }

  /** The entries of a list of clients. */
  ghost function Entries(q: seq<Client>): (r: seq<Entry>)
    reads (set c | c in q)`nextEventTime
    ensures |r| == |q| && forall i :: 0 <= i < |q| ==> r[i] == Entry(q[i].id, q[i].nextEventTime)
  {
    if q == [] then [] else [Entry(q[0].id, q[0].nextEventTime)] + Entries(q[1..])
  }

  /** `first` heads a list through `next` that consists of the clients of `q`. */
  ghost predicate Linked(first: Client?, q: seq<Client>)
    reads (set c | c in q)`next
  {
    && first == (if q == [] then null else q[0])
    && (forall i {:trigger q[i]} :: 0 <= i < |q| ==> q[i].next == if i + 1 < |q| then q[i + 1] else null)
  }

  lemma EntriesCut(q: seq<Client>, k: nat)
    requires k < |q|
    ensures Entries(q[..k] + q[k + 1..]) == Entries(q)[..k] + Entries(q)[k + 1..]
  {
    hide Entries;
  }

  lemma EntriesSpliced(q: seq<Client>, k: nat, c: Client, entries: seq<Entry>)
    requires k <= |q| == |entries| && forall i :: 0 <= i < |q| ==> entries[i] == Entry(q[i].id, q[i].nextEventTime)
    ensures Entries(q[..k] + [c] + q[k..]) == entries[..k] + [Entry(c.id, c.nextEventTime)] + entries[k..]
  {
    hide Entries;
  }

  // ---------------------------------------------------------------- positions in the list

  lemma {:induction false} InsertAt(q: seq<Entry>, e: Entry, k: nat)
    requires k <= |q| && (forall i :: 0 <= i < k ==> q[i].time < e.time) && (k < |q| ==> e.time <= q[k].time)
    ensures Insert(q, e) == q[..k] + [e] + q[k..]
  {
    if k > 0 {
      InsertAt(q[1..], e, k - 1);
      assert q[1..][..k - 1] == q[1..k] && q[1..][k - 1..] == q[k..];
      assert [q[0]] + q[1..k] == q[..k];
    }
  }

  lemma {:induction false} RemoveAt(q: seq<Entry>, c: nat, k: nat)
    requires k < |q| && q[k].client == c && (forall i :: 0 <= i < k ==> q[i].client != c)
    ensures Remove(q, c) == q[..k] + q[k + 1..] && Find(q, c) == [q[k]]
  {
    if k > 0 {
      RemoveAt(q[1..], c, k - 1);
      assert q[1..][..k - 1] == q[1..k] && q[1..][k..] == q[k + 1..];
      assert [q[0]] + q[1..k] == q[..k];
    }
  }

  lemma {:induction false} RemoveNone(q: seq<Entry>, c: nat)
    requires forall i :: 0 <= i < |q| ==> q[i].client != c
    ensures Remove(q, c) == q && Find(q, c) == []
  {
    if q != [] { RemoveNone(q[1..], c); }
  }

  lemma WithoutOne(q: seq<Client>, k: nat)
    requires NoRepeats(q) && k < |q|
    ensures NoRepeats(q[..k] + q[k + 1..]) && forall c :: c in q[..k] + q[k + 1..] <==> c in q && c != q[k]
  {
    var r := q[..k] + q[k + 1..];
    forall i | 0 <= i < |r| ensures r[i] == q[if i < k then i else i + 1] {}
    forall c | c in q && c != q[k] ensures c in r {
      var i :| 0 <= i < |q| && q[i] == c;
      assert r[if i < k then i else i - 1] == c;
    }
  }

  lemma Chained(first: Client?, q: seq<Client>, k: nat, client: Client)
    requires k <= |q| && first == (if k == 0 then client else q[0])
    requires forall i {:trigger q[i]} :: 0 <= i < |q| ==>
      q[i].next == if i == k - 1 then client else if i + 1 < |q| then q[i + 1] else null
    requires client.next == if k < |q| then q[k] else null
    ensures Linked(first, q[..k] + [client] + q[k..])
  {
    var r := q[..k] + [client] + q[k..];
    forall i | 0 <= i < |r| ensures r[i].next == if i + 1 < |r| then r[i + 1] else null {
      if i < k { assert r[i] == q[i]; }
      if i > k { assert r[i] == q[i - 1]; }
    }
  }

  lemma Unchained(first: Client?, q: seq<Client>, k: nat)
    requires k < |q| && first == (if k > 0 then q[0] else if |q| > 1 then q[1] else null)
    requires forall i {:trigger q[i]} :: 0 <= i < |q| ==>
      q[i].next == if i == k - 1 then (if k + 1 < |q| then q[k + 1] else null)
        else if i + 1 < |q| then q[i + 1] else null
    ensures Linked(first, q[..k] + q[k + 1..])
  {
    var r := q[..k] + q[k + 1..];
    forall i | 0 <= i < |r| ensures r[i].next == if i + 1 < |r| then r[i + 1] else null {
      assert r[i] == q[if i < k then i else i + 1];
    }
  }

  lemma OneBefore(q: seq<Client>, k: nat)
    requires NoRepeats(q) && k <= |q|
    ensures forall i :: 0 <= i < |q| && i != k - 1 && k > 0 ==> q[i] != q[k - 1]
  {
  }

  lemma WithOne(q: seq<Client>, k: nat, c: Client)
    requires NoRepeats(q) && k <= |q| && c !in q
    ensures NoRepeats(q[..k] + [c] + q[k..]) && forall d :: d in q[..k] + [c] + q[k..] <==> d in q || d == c
  {
    var r := q[..k] + [c] + q[k..];
    forall i | 0 <= i < |r| ensures r[i] == if i < k then q[i] else if i == k then c else q[i - 1] {}
    forall d | d in q ensures d in r {
      var i :| 0 <= i < |q| && q[i] == d;
      assert r[if i < k then i else i + 1] == d;
    }
    assert r[k] == c;
  }

  // ---------------------------------------------------------------- the engine

  class Engine {
    const registry: map<nat, Client>
    var firstClient: Client?
    var time: int
    ghost var queue: seq<Client>

    ghost predicate Registered(c: Client) {
      c.id in registry && registry[c.id] == c
    }

    /** Every client is known under its own number; the queue holds known clients, each once. */
    ghost predicate Known(q: seq<Client>) {
      (forall id :: id in registry ==> registry[id].id == id) && (forall c :: c in q ==> Registered(c)) && NoRepeats(q)
    }

    ghost predicate Flagged()
      reads this`queue, registry.Values`isEnqueued
    {
      forall id :: id in registry ==> (registry[id].isEnqueued <==> registry[id] in queue)
    }

    ghost predicate Valid()
      reads this`queue, this`firstClient, registry.Values`next, registry.Values`isEnqueued
    {
      Known(queue) && Linked(firstClient, queue) && Flagged()
    }

    ghost function Waiters(): seq<Entry>
      reads this`queue, registry.Values`nextEventTime
      requires Known(queue)
    {
      Entries(queue)
    }

    /** The pointers around position `k` of the list. */
    ghost predicate At(k: nat, prev: Client?, current: Client?)
      reads this
    {
      k <= |queue| && current == (if k < |queue| then queue[k] else null) && prev == if k == 0 then null
        else queue[k - 1]
    }

    method FindClient(client: Client) returns (prev: Client?, ghost k: nat)
      requires Linked(firstClient, queue) && client in queue
      ensures k < |queue| && At(k, prev, client) && queue[k] == client
    {
      var current: Client? := firstClient;
      prev, k := null, 0;
      while current != null && current != client
        invariant At(k, prev, current)
        invariant forall i :: 0 <= i < k ==> queue[i] != client
        decreases |queue| - k
      {
        prev, current := current, current.next;
        k := k + 1;
      }
    }

    /** From position `from` on, the first client not earlier than `at`. */
    method FindTime(before: Client?, start: Client?, ghost from: nat, at: int)
      returns (prev: Client?, current: Client?, ghost k: nat)
      requires Linked(firstClient, queue) && At(from, before, start)
      requires forall i :: 0 <= i < from ==> queue[i].nextEventTime < at
      ensures At(k, prev, current)
      ensures forall i :: 0 <= i < k ==> queue[i].nextEventTime < at
      ensures k < |queue| ==> at <= queue[k].nextEventTime
    {
      prev, current, k := before, start, from;
      while current != null && current.nextEventTime < at
        invariant At(k, prev, current)
        invariant forall i :: 0 <= i < k ==> queue[i].nextEventTime < at
        decreases |queue| - k
      {
        prev, current := current, current.next;
        k := k + 1;
      }
    }

    method Cut(prev: Client?, client: Client, ghost k: nat)
      requires Linked(firstClient, queue) && NoRepeats(queue) && k < |queue| && At(k, prev, client)
      modifies this`firstClient, this`queue, (set c | c in queue)`next
      ensures queue == old(queue)[..k] + old(queue)[k + 1..] && Linked(firstClient, queue)
    {
      hide NoRepeats;
      ghost var q := queue;
      OneBefore(q, k);
      assert q[k] == client;
      if prev != null { prev.next := client.next; } else { firstClient := client.next; }
      queue := q[..k] + q[k + 1..];
      Unchained(firstClient, q, k);
    }

    method Splice(prev: Client?, client: Client, current: Client?, ghost k: nat)
      requires Linked(firstClient, queue) && NoRepeats(queue) && k <= |queue| && At(k, prev, current)
      requires client !in queue
      modifies this`firstClient, this`queue, (set c | c in queue)`next, client`next
      ensures queue == old(queue)[..k] + [client] + old(queue)[k..] && Linked(firstClient, queue)
    {
      hide NoRepeats;
      ghost var q := queue;
      WithOne(q, k, client);
      OneBefore(q, k);
      if prev != null { prev.next := client; } else { firstClient := client; }
      client.next := current;
      queue := q[..k] + [client] + q[k..];
      Chained(firstClient, q, k, client);
    }

    lemma EntriesWithout(q: seq<Client>, k: nat)
      requires Known(q) && k < |q|
      ensures Entries(q[..k] + q[k + 1..]) == Remove(Entries(q), q[k].id)
    {
      hide Entries, Remove, NoRepeats;
      forall i | 0 <= i < k ensures Entries(q)[i].client != q[k].id {
        SameNumber(q, i, k);
      }
      RemoveAt(Entries(q), q[k].id, k);
      EntriesCut(q, k);
    }

    lemma SameNumber(q: seq<Client>, i: nat, k: nat)
      requires Known(q) && i < k < |q|
      ensures q[i].id != q[k].id
    {
      assert Registered(q[i]) && Registered(q[k]);
    }

    /** `dequeue`, for a client that is in the list. */
    method Unlink(client: Client)
      requires Valid() && client in queue
      modifies this`firstClient, this`queue, registry.Values`next, client`isEnqueued
      ensures Valid() && !client.isEnqueued && client !in queue
      ensures Waiters() == Remove(old(Waiters()), client.id)
    {
      hide Linked, NoRepeats, Entries;
      var prev, k := FindClient(client);
      EntriesWithout(queue, k);
      WithoutOne(queue, k);
      client.isEnqueued := false;
      Cut(prev, client, k);
    }

    /** The client goes in front of the first one not earlier, searched from position `from` on. */
    method Link(client: Client, at: int, before: Client?, start: Client?, ghost from: nat)
      requires Valid() && Registered(client) && client !in queue && At(from, before, start)
      requires forall i :: 0 <= i < from ==> queue[i].nextEventTime < at
      modifies this`firstClient, this`queue, registry.Values`next, client`isEnqueued, client`nextEventTime
      ensures Valid() && client.isEnqueued && client in queue
      ensures Waiters() == Insert(old(Waiters()), Entry(client.id, at))
    {
      hide Linked, NoRepeats, Entries, Insert, At;
      var prev, current, k := FindTime(before, start, from, at);
      ghost var q := queue;
      ghost var entries := Entries(q);
      InsertAt(entries, Entry(client.id, at), k);
      WithOne(q, k, client);
      client.isEnqueued := true;
      client.nextEventTime := at;
      Splice(prev, client, current, k);
      EntriesSpliced(q, k, client, entries);
    }

    lemma HeadAt()
      requires Linked(firstClient, queue)
      ensures At(0, null, firstClient)
    {
    }

    lemma FindEnqueued(client: Client)
      requires Valid() && Registered(client)
      ensures client.isEnqueued ==> Find(Waiters(), client.id) == [Entry(client.id, client.nextEventTime)]
      ensures !client.isEnqueued ==> Find(Waiters(), client.id) == [] && Remove(Waiters(), client.id) == Waiters()
    {
      hide Entries, NoRepeats;
      if client.isEnqueued {
        var k :| 0 <= k < |queue| && queue[k] == client;
        FirstOccurrence(k);
      } else {
        forall i | 0 <= i < |queue| ensures Waiters()[i].client != client.id { assert Registered(queue[i]); }
        RemoveNone(Waiters(), client.id);
      }
    }

    lemma FirstOccurrence(k: nat)
      requires Valid() && k < |queue|
      ensures Find(Waiters(), queue[k].id) == [Waiters()[k]]
    {
      hide Entries;
      forall i | 0 <= i < k ensures Waiters()[i].client != queue[k].id {
        assert Registered(queue[i]) && Registered(queue[k]);
      }
      RemoveAt(Waiters(), queue[k].id, k);
    }

    method Dequeue(client: Client) returns (done: bool)
      requires Valid() && Registered(client)
      modifies this`firstClient, this`queue, registry.Values`next, registry.Values`isEnqueued
      ensures Valid() && !client.isEnqueued && done == old(client.isEnqueued)
      ensures Waiters() == Remove(old(Waiters()), client.id)
    {
      hide Linked, NoRepeats, Entries;
      FindEnqueued(client);
      done := client.isEnqueued;
      if done { Unlink(client); }
    }

    /** Exactly the client `running` runs. */
    ghost predicate Runs(running: nat)
      reads registry.Values`running
    {
      forall id :: id in registry ==> (registry[id].running <==> id == running)
    }

    method Enqueue(client: Client, delay: nat, ghost running: nat) returns (done: bool)
      requires Valid() && Registered(client) && Runs(running)
      modifies this`firstClient, this`queue, registry.Values`next, registry.Values`isEnqueued,
        registry.Values`nextEventTime
      ensures Valid()
      ensures Waiters() == Apply(old(Waiters()), time, running, TimeQueue.Enqueue(client.id, delay))
    {
      hide Linked, NoRepeats, Entries, Insert, Remove, Find;
      var fullTime := time + delay;
      FindEnqueued(client);
      assert client.running <==> client.id == running;
      done := false;
      if client.running { return; }
      if client.isEnqueued {
        if client.nextEventTime <= fullTime { return; }
        Unlink(client);
      }
      HeadAt();
      Link(client, fullTime, null, firstClient, 0);
      done := true;
    }

    /** The calls a callback makes, one after the other. */
    method Perform(ops: seq<Op>, ghost running: nat)
      requires Valid() && Runs(running) && forall i :: 0 <= i < |ops| ==> ops[i].client in registry
      modifies this`firstClient, this`queue, registry.Values`next, registry.Values`isEnqueued,
        registry.Values`nextEventTime
      ensures Valid()
      ensures Waiters() == ApplyAll(old(Waiters()), time, running, ops)
    {
      hide Linked, NoRepeats, Entries;
      ghost var before := Waiters();
      for i := 0 to |ops|
        invariant Valid() && Waiters() == ApplyAll(before, time, running, ops[..i])
      {
        assert ops[..i + 1][..i] == ops[..i];
        var client := registry[ops[i].client];
        match ops[i] {
          case Enqueue(_, delay) => var _ := Enqueue(client, delay, running);
          case Dequeue(_) => var _ := Dequeue(client);
        }
      }
      assert ops[..|ops|] == ops;
    }

    /** Takes the first client off the list. */
    method Pop() returns (client: Client)
      requires Valid() && queue != []
      modifies this`firstClient, this`queue, registry.Values`isEnqueued
      ensures Valid() && client == old(queue)[0] && Registered(client) && client !in queue
      ensures old(Waiters()) == [Entry(client.id, client.nextEventTime)] + Waiters()
    {
      client := firstClient;
      ghost var q := queue;
      assert client == q[0] && Registered(client) && registry[client.id] in registry.Values;
      firstClient := client.next;
      client.isEnqueued := false;
      queue := queue[1..];
    }

    /** Callbacks only ever refer to clients of this engine. */
    ghost predicate Tame(o: Oracle) {
      forall trace: seq<Entry>, i: nat :: i < |o(trace).ops| ==> o(trace).ops[i].client in registry
    }

    ghost predicate Idle()
      reads registry.Values`running
    {
      forall id :: id in registry ==> !registry[id].running
    }

    ghost predicate OnlyRuns(running: nat)
      reads registry.Values`running
    {
      forall id :: id in registry && id != running ==> !registry[id].running
    }

    lemma OutOfQueue(client: Client)
      requires Valid() && Registered(client) && forall x :: x in Waiters() ==> x.client != client.id
      ensures client !in queue
    {
      hide Linked, NoRepeats, Entries;
      forall k | 0 <= k < |queue| ensures queue[k] != client {
        assert Waiters()[k] in Waiters();
      }
    }

    /** One execution of a client: its callback and the calls it makes. */
    method Execute(client: Client, o: Oracle, past: seq<Entry>) returns (executed: seq<Entry>, delta: int)
      requires Valid() && Registered(client) && OnlyRuns(client.id) && Tame(o)
      requires Waiting(Waiters(), time, client.id)
      modifies this`firstClient, this`queue, registry.Values
      ensures Valid() && Runs(client.id) && client !in queue && Waiting(Waiters(), time, client.id)
      ensures executed == past + [Entry(client.id, time)] && delta == o(executed).delta
      ensures Waiters() == ApplyAll(old(Waiters()), time, client.id, o(executed).ops)
    {
      hide Linked, NoRepeats, Entries, Sorted, Distinct, NotBefore;
      assert registry[client.id] in registry.Values;
      client.running := true;
      executed := past + [Entry(client.id, time)];
      var r := o(executed);
      assert forall i :: 0 <= i < |r.ops| ==> r.ops[i].client in registry by {
        forall i: nat | i < |r.ops|
          ensures r.ops[i].client in registry { assert o(executed).ops[i].client in registry; }
      }
      ApplyAllKeeps(Waiters(), time, client.id, r.ops);
      Perform(r.ops, client.id);
      OutOfQueue(client);
      delta := r.delta;
    }

    lemma Head()
      requires Linked(firstClient, queue)
      ensures At(0, null, firstClient) && (firstClient == null <==> queue == [])
      ensures queue != [] ==> At(1, firstClient, firstClient.next)
      ensures queue != [] ==> firstClient == queue[0] && Entries(queue)[0].time == firstClient.nextEventTime
    {
    }

    /** The client has finished; the loop takes the next one, if it is to run on and there is one. */
    method TakeNext(current: Client, run: bool) returns (next: Client?)
      requires Valid() && Registered(current) && Runs(current.id)
      modifies this`firstClient, this`queue, this`time, registry.Values`running, registry.Values`isEnqueued
      ensures Valid() && (next != null ==> run)
      ensures next == null ==> Waiters() == old(Waiters()) && time == old(time) && Idle() && (!run || queue == [])
      ensures next != null ==> Registered(next) && next !in queue && OnlyRuns(next.id)
      ensures next != null ==> old(Waiters()) == [Entry(next.id, time)] + Waiters()
    {
      hide Linked, NoRepeats, Entries;
      assert registry[current.id] in registry.Values;
      current.running := false;
      Head();
      next := null;
      if run && firstClient != null {
        var c := Pop();
        time := c.nextEventTime;
        next := c;
      }
    }

    /**
     What the loop does after an execution: go on with the same client, put it back and stop, or put
     it back behind the next one and take that. `next` is the client to go on with, if any.
     */
    method Settle(current: Client, delta: int, run: bool) returns (next: Client?)
      requires Valid() && Registered(current) && current !in queue && Runs(current.id)
      modifies this`firstClient, this`queue, this`time, registry.Values
      ensures Valid() && (next != null ==> run)
      ensures var q := if delta > 0 then Insert(old(Waiters()), Entry(current.id, old(time) + delta))
        else old(Waiters());
        && (next == null ==> Waiters() == q && time == old(time) && Idle() && (!run || queue == []))
        && (next != null ==>
             Registered(next) && next !in queue && OnlyRuns(next.id) && q == [Entry(next.id, time)] + Waiters())
    {
      hide Linked, NoRepeats, Entries;
      assert registry[current.id] in registry.Values;
      Head();
      var at := time + delta;
      if delta > 0 {
        if firstClient == null || firstClient.nextEventTime >= at {
          if run {
            time := at;
            return current;
          }
          Link(current, at, null, firstClient, 0);
          current.running := false;
          return null;
        }
        Link(current, at, firstClient, firstClient.next, 1);
      }
      next := TakeNext(current, run);
    }

    /** The client that is executed makes way for the plain scheduler's next state. */
    method Step(current: Client, o: Oracle, run: bool, past: seq<Entry>, ghost p: Scheduler)
      returns (executed: seq<Entry>, next: Client?)
      requires Valid() && Registered(current) && current !in queue && OnlyRuns(current.id) && Tame(o)
      requires Good(p) && p.queue == [Entry(current.id, time)] + Waiters() && p.trace == past
      modifies this`firstClient, this`queue, this`time, registry.Values
      ensures Valid() && executed == PlainStep(p, o).trace
      ensures next != null ==> run
      ensures next == null ==>
        Scheduler(Waiters(), time, executed) == PlainStep(p, o) && Idle() && (!run || queue == [])
      ensures next != null ==> Registered(next) && next !in queue && OnlyRuns(next.id)
      ensures next != null ==> PlainStep(p, o).queue == [Entry(next.id, time)] + Waiters()
    {
      hide Linked, NoRepeats, Entries, Sorted, Distinct, NotBefore, Good, Waiting,
        Insert, ApplyAll, Known, Flagged, Tame, PlainStep, OnlyRuns, Runs, Idle, Waiters;
      PopLeavesWaiting(p);
      assert p.queue[1..] == Waiters();
      PlainStepIs(p, o, Entry(current.id, time), Waiters());
      var delta;
      executed, delta := Execute(current, o, past);
      next := Settle(current, delta, run);
    }

    /**
     The main loop, entered once. `runReq[k]` tells whether the loop is still asked to run after its
     `k`-th execution; it leaves when it is not, or when no client is left.
     */
    method RunLoop(o: Oracle, runReq: seq<bool>, past: seq<Entry>) returns (executed: seq<Entry>, n: nat)
      requires Valid() && Idle() && Tame(o) && Good(Scheduler(Waiters(), time, past))
      modifies this`firstClient, this`queue, this`time, registry.Values
      ensures Valid() && Idle()
      ensures Scheduler(Waiters(), time, executed) == Plain(Scheduler(old(Waiters()), old(time), past), o, n)
      ensures queue == [] || (n > 0 && (n > |runReq| || !runReq[n - 1]))
    {
      hide Linked, NoRepeats, Entries, Sorted, Distinct, NotBefore, Good, PlainStep, Insert, ApplyAll, Flagged, Tame;
      ghost var s0 := Scheduler(Waiters(), time, past);
      executed, n := past, 0;
      Head();
      if firstClient == null { return; }
      var current: Client := Pop();
      time := current.nextEventTime;
      while true
        invariant Valid() && Registered(current) && OnlyRuns(current.id) && current !in queue
        invariant Plain(s0, o, n).queue == [Entry(current.id, time)] + Waiters() && Plain(s0, o, n).trace == executed
        invariant n <= |runReq|
        decreases |runReq| - n
      {
        var run := n < |runReq| && runReq[n];
        PlainKeepsGood(s0, o, n);
        var next: Client?;
        executed, next := Step(current, o, run, executed, Plain(s0, o, n));
        n := n + 1;
        if next == null { break; }
        current := next;
      }
    }

    /**
     The loop stopped and started again any number of times, each time with its own pattern of
     `run_req`: together the entries dispatch what one uninterrupted plain loop dispatches.
     */
    method RunRepeatedly(o: Oracle, entries: seq<seq<bool>>, past: seq<Entry>) returns (executed: seq<Entry>, n: nat)
      requires Valid() && Idle() && Tame(o) && Good(Scheduler(Waiters(), time, past))
      modifies this`firstClient, this`queue, this`time, registry.Values
      ensures Valid() && Idle()
      ensures Scheduler(Waiters(), time, executed) == Plain(Scheduler(old(Waiters()), old(time), past), o, n)
    {
      hide Linked, NoRepeats, Entries, Sorted, Distinct, NotBefore, Good, Flagged, Known, Tame, Plain;
      ghost var s0 := Scheduler(Waiters(), time, past);
      executed, n := past, 0;
      PlainNone(s0, o);
      for i := 0 to |entries|
        invariant Valid() && Idle() && Scheduler(Waiters(), time, executed) == Plain(s0, o, n)
      {
        PlainKeepsGood(s0, o, n);
        var m;
        executed, m := RunLoop(o, entries[i], executed);
        PlainSplits(s0, o, n, m);
        n := n + m;
      }
    }
  }
}
