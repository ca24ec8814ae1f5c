/**
 Pulses: an event whose end is dumped later. The ends that are still to come wait in a doubly linked
 list ordered by time, and are dumped before the first event that is not earlier.
 */
module TracePending {
  import TraceCodec

  /** `none` stands for a null value. */
  datatype Value = Value(none: bool, data: seq<TraceCodec.Byte>)

  datatype Entry = Entry(trace: nat, time: int, value: Value)

  /** `waiting` holds the pulse ends to come, `stream` what has been packed for the dumping thread. */
  datatype Pulses = Pulses(waiting: seq<Entry>, stream: seq<Entry>)

  // ---------------------------------------------------------------- as values

  /** Dumps the ends due by `time`, or all of them for -1. */
  function Check(p: Pulses, time: int): Pulses
    decreases |p.waiting|
  {
    if p.waiting != [] && (time == -1 || p.waiting[0].time <= time) then
      Check(Pulses(p.waiting[1..], p.stream + [p.waiting[0]]), time)
    else p
  }

  function Insert(q: seq<Entry>, e: Entry): seq<Entry> {
    if q == [] || e.time <= q[0].time then [e] + q else [q[0]] + Insert(q[1..], e)
  }

  function Remove(q: seq<Entry>, trace: nat): seq<Entry> {
    if q == [] then [] else if q[0].trace == trace then q[1..] else [q[0]] + Remove(q[1..], trace)
  }

  function DumpEvent(p: Pulses, e: Entry): Pulses {
    var c := Check(p, e.time);
    c.(stream := c.stream + [e])
  }

  /** A pulse replaces what the trace still had waiting. */
  function DumpPulse(p: Pulses, e: Entry, end: int, value: Value): Pulses {
    var c := Check(p, e.time);
    Pulses(Insert(Remove(c.waiting, e.trace), Entry(e.trace, end, value)), c.stream + [e])
  }

  predicate Sorted(q: seq<Entry>) {
    forall i, j :: 0 <= i < j < |q| ==> q[i].time <= q[j].time
  }

  predicate NoneBefore(q: seq<Entry>, time: int) {
    forall i :: 0 <= i < |q| ==> time <= q[i].time
  }

  predicate NoneAfter(q: seq<Entry>, time: int) {
    forall i :: 0 <= i < |q| ==> q[i].time <= time
  }

  predicate OnePerTrace(q: seq<Entry>) {
    forall i, j :: 0 <= i < j < |q| ==> q[i].trace != q[j].trace
  }

  /** Up to `now` everything has been dumped in order of time, and what waits is still to come. */
  predicate Good(p: Pulses, now: int) {
    Sorted(p.stream) && NoneAfter(p.stream, now) && Sorted(p.waiting) && NoneBefore(p.waiting, now) &&
      OnePerTrace(p.waiting)
  }

  lemma SortedCons(e: Entry, q: seq<Entry>)
    ensures Sorted([e] + q) <==> Sorted(q) && NoneBefore(q, e.time)
  {
    var r := [e] + q;
    forall i | 0 <= i < |q| ensures r[i + 1] == q[i] {}
    if Sorted(r) {
      forall i | 0 <= i < |q| ensures e.time <= q[i].time { assert r[0].time <= r[i + 1].time; }
      forall i, j | 0 <= i < j < |q| ensures q[i].time <= q[j].time { assert r[i + 1].time <= r[j + 1].time; }
    }
  }

  lemma OnePerTraceCons(e: Entry, q: seq<Entry>)
    ensures OnePerTrace([e] + q) <==> OnePerTrace(q) && forall x :: x in q ==> x.trace != e.trace
  {
    var r := [e] + q;
    forall i | 0 <= i < |q| ensures r[i + 1] == q[i] {}
    if OnePerTrace(r) {
      forall x | x in q ensures x.trace != e.trace {
        var i :| 0 <= i < |q| && q[i] == x;
        assert r[0].trace != r[i + 1].trace;
      }
      forall i, j | 0 <= i < j < |q| ensures q[i].trace != q[j].trace { assert r[i + 1].trace != r[j + 1].trace; }
    }
  }

  lemma Cons(e: Entry, q: seq<Entry>)
    ensures Sorted([e] + q) <==> Sorted(q) && NoneBefore(q, e.time)
    ensures OnePerTrace([e] + q) <==> OnePerTrace(q) && forall x :: x in q ==> x.trace != e.trace
  {
    hide Sorted, NoneBefore, OnePerTrace;
    SortedCons(e, q);
    OnePerTraceCons(e, q);
  }

  lemma Snoc(q: seq<Entry>, e: Entry)
    requires Sorted(q) && NoneAfter(q, e.time)
    ensures Sorted(q + [e]) && NoneAfter(q + [e], e.time)
  {
  }

  lemma Later(q: seq<Entry>, time: int, later: int)
    requires NoneAfter(q, time) && time <= later
    ensures NoneAfter(q, later)
  {
  }

  lemma Front(q: seq<Entry>, time: int)
    requires Sorted(q) && q != []
    ensures NoneBefore(q, time) <==> time <= q[0].time
  {
  }

  lemma Nothing(time: int)
    ensures Sorted([]) && NoneBefore([], time) && OnePerTrace([])
  {
  }

  lemma Earlier(q: seq<Entry>, time: int, earlier: int)
    requires NoneBefore(q, time) && earlier <= time
    ensures NoneBefore(q, earlier)
  {
  }

  /** After a check nothing that waits is due, and what was dumped came in order. */
  lemma {:induction false} CheckKeeps(p: Pulses, now: int, time: int)
    requires Good(p, now) && now <= time && time != -1
    ensures Good(Check(p, time), time) && NoneBefore(Check(p, time).waiting, time + 1)
    decreases |p.waiting|
  {
    hide Sorted, NoneBefore, NoneAfter, OnePerTrace;
    if p.waiting == [] {
      Later(p.stream, now, time);
      Nothing(time);
      Nothing(time + 1);
    } else {
      var e := p.waiting[0];
      assert p.waiting == [e] + p.waiting[1..];
      Cons(e, p.waiting[1..]);
      Front(p.waiting, now);
      Front(p.waiting, time + 1);
      if e.time <= time {
        Later(p.stream, now, e.time);
        Snoc(p.stream, e);
        CheckKeeps(Pulses(p.waiting[1..], p.stream + [e]), e.time, time);
      } else {
        Later(p.stream, now, time);
        Earlier(p.waiting, time + 1, time);
      }
    }
  }

  /** The stream grows by the ends that were due, in order, and by nothing else. */
  lemma {:induction false} CheckMoves(p: Pulses, time: int)
    ensures p.stream + p.waiting == Check(p, time).stream + Check(p, time).waiting
    ensures time == -1 ==> Check(p, time).waiting == []
    decreases |p.waiting|
  {
    if p.waiting != [] && (time == -1 || p.waiting[0].time <= time) {
      var p' := Pulses(p.waiting[1..], p.stream + [p.waiting[0]]);
      assert p'.stream + p'.waiting == p.stream + p.waiting;
      CheckMoves(p', time);
    }
  }

  lemma {:induction false} RemoveKeeps(q: seq<Entry>, trace: nat, time: int)
    requires Sorted(q) && NoneBefore(q, time) && OnePerTrace(q)
    ensures Sorted(Remove(q, trace)) && NoneBefore(Remove(q, trace), time) && OnePerTrace(Remove(q, trace))
    ensures forall x :: x in Remove(q, trace) <==> x in q && x.trace != trace
  {
    hide Sorted, NoneBefore, OnePerTrace;
    if q != [] {
      assert q == [q[0]] + q[1..];
      Cons(q[0], q[1..]);
      Front(q, time);
      Earlier(q[1..], q[0].time, time);
      if q[0].trace != trace {
        RemoveKeeps(q[1..], trace, q[0].time);
        Cons(q[0], Remove(q[1..], trace));
        Front([q[0]] + Remove(q[1..], trace), time);
      }
    }
  }

  lemma {:induction false} InsertKeeps(q: seq<Entry>, e: Entry, time: int)
    requires Sorted(q) && NoneBefore(q, time) && time <= e.time
    ensures Sorted(Insert(q, e)) && NoneBefore(Insert(q, e), time)
    ensures forall x :: x in Insert(q, e) <==> x in q || x == e
  {
    hide Sorted, NoneBefore;
    if q == [] {
      Cons(e, q);
      Nothing(e.time);
      Front([e] + q, time);
    } else {
      assert q == [q[0]] + q[1..];
      Cons(q[0], q[1..]);
      Front(q, time);
      if e.time <= q[0].time {
        Front(q, e.time);
        Cons(e, q);
        Front([e] + q, time);
      } else {
        InsertKeeps(q[1..], e, q[0].time);
        Cons(q[0], Insert(q[1..], e));
        Front([q[0]] + Insert(q[1..], e), time);
      }
    }
  }

  lemma {:induction false} InsertOnePerTrace(q: seq<Entry>, e: Entry)
    requires OnePerTrace(q) && forall x :: x in q ==> x.trace != e.trace
    ensures OnePerTrace(Insert(q, e)) && forall x :: x in Insert(q, e) <==> x in q || x == e
  {
    hide OnePerTrace;
    if q == [] || e.time <= q[0].time {
      Cons(e, q);
    } else {
      assert q == [q[0]] + q[1..];
      Cons(q[0], q[1..]);
      InsertOnePerTrace(q[1..], e);
      Cons(q[0], Insert(q[1..], e));
    }
  }

  lemma EventKeeps(p: Pulses, now: int, e: Entry)
    requires Good(p, now) && now <= e.time && e.time != -1
    ensures Good(DumpEvent(p, e), e.time)
  {
    CheckKeeps(p, now, e.time);
    hide Sorted, NoneBefore, NoneAfter, OnePerTrace;
    Snoc(Check(p, e.time).stream, e);
  }

  lemma PulseKeeps(p: Pulses, now: int, e: Entry, end: int, value: Value)
    requires Good(p, now) && now <= e.time <= end && e.time != -1
    ensures Good(DumpPulse(p, e, end, value), e.time)
  {
    CheckKeeps(p, now, e.time);
    hide Sorted, NoneBefore, NoneAfter, OnePerTrace;
    var c := Check(p, e.time);
    Snoc(c.stream, e);
    RemoveKeeps(c.waiting, e.trace, e.time);
    InsertKeeps(Remove(c.waiting, e.trace), Entry(e.trace, end, value), e.time);
    InsertOnePerTrace(Remove(c.waiting, e.trace), Entry(e.trace, end, value));
  }

  // ---- whole runs

  datatype Call = Event(e: Entry) | Pulse(e: Entry, end: int, value: Value) | CheckAt(time: int)

  predicate Allowed(now: int, c: Call) {
    match c
    case Event(e) => 0 <= now <= e.time
    case Pulse(e, end, _) => 0 <= now <= e.time <= end
    case CheckAt(time) => 0 <= now <= time
  }

  function TimeOf(c: Call): int {
    match c case Event(e) => e.time case Pulse(e, _, _) => e.time case CheckAt(time) => time
  }

  function Apply(p: Pulses, c: Call): Pulses {
    match c
    case Event(e) => DumpEvent(p, e)
    case Pulse(e, end, value) => DumpPulse(p, e, end, value)
    case CheckAt(time) => Check(p, time)
  }

  predicate IsRun(now: int, calls: seq<Call>)
    decreases |calls|
  {
    calls == [] || (Allowed(now, calls[0]) && IsRun(TimeOf(calls[0]), calls[1..]))
  }

  function Run(p: Pulses, calls: seq<Call>): Pulses
    decreases |calls|
  {
    if calls == [] then p else Run(Apply(p, calls[0]), calls[1..])
  }

  /** Runs keep everything in order, up to the time of the last call. */
  lemma {:induction false} RunStaysGood(p: Pulses, now: int, calls: seq<Call>) returns (last: int)
    requires Good(p, now) && IsRun(now, calls)
    ensures Good(Run(p, calls), last)
    decreases |calls|
  {
    hide Sorted, NoneBefore, NoneAfter, OnePerTrace;
    last := now;
    if calls != [] {
      match calls[0] {
        case Event(e) => EventKeeps(p, now, e);
        case Pulse(e, end, value) => PulseKeeps(p, now, e, end, value);
        case CheckAt(time) => CheckKeeps(p, now, time);
      }
      last := RunStaysGood(Apply(p, calls[0]), TimeOf(calls[0]), calls[1..]);
    }
  }

  /**
   Main result: if event times never decrease and pulses end no earlier than they start, the packed
   stream, pulse ends included, never goes back in time, and the waiting ends stay sorted.
   */
  lemma StreamNeverGoesBack(p: Pulses, now: int, calls: seq<Call>)
    requires Good(p, now) && IsRun(now, calls)
    ensures Sorted(Run(p, calls).stream) && Sorted(Run(p, calls).waiting) && OnePerTrace(Run(p, calls).waiting)
  {
    var last := RunStaysGood(p, now, calls);
  }

  /** Stopping dumps all ends that wait, and the stream stays in order. */
  lemma StopDumpsAll(p: Pulses, now: int)
    requires Good(p, now)
    ensures Check(p, -1) == Pulses([], p.stream + p.waiting) && Sorted(p.stream + p.waiting)
  {
    CheckMoves(p, -1);
  }
}
