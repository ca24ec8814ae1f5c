/**
 The trace engine from the call that reports an event to the trace file: pulses and their pending
 ends, the packed buffers that two threads hand to each other, and the merge of values.
 */
module TraceEndToEnd {
  import TraceCodec
  import Merge = TraceMerge
  import Pending = TracePending
  import opened TraceReports
  import opened Wrappers
  import Stream = TraceStream

  /** An entry of the stream as it is packed. */
  function AsRecord(e: Pending.Entry): TraceCodec.Record {
    TraceCodec.Record(e.trace, e.value.none, if e.time < 0 then 0 else e.time, e.value.data)
  }

  function Records(q: seq<Pending.Entry>): (rs: seq<TraceCodec.Record>)
    ensures |rs| == |q| && forall i :: 0 <= i < |q| ==> rs[i] == AsRecord(q[i])
  {
    seq(|q|, i requires 0 <= i < |q| => AsRecord(q[i]))
  }

  lemma PackedInOrder(calls: seq<Pending.Call>)
    requires Pending.IsRun(0, calls)
    ensures Pending.Sorted(Packed(calls)) && Merge.InOrder(Records(Packed(calls)))
  {
    var p := Pending.Pulses([], []);
    assert Pending.Good(p, 0);
    var last := Pending.RunStaysGood(p, 0, calls);
    Pending.StopDumpsAll(Pending.Run(p, calls), last);
  }

  /**
   What the file holds for a stream of entries: the last value of each trace at each time, and nothing
   else, in order of time.
   */
  ghost predicate Holds(file: seq<Merge.Dump>, stream: seq<Pending.Entry>) {
    var rs := Records(stream);
    && Merge.OncePerSlot(file)
    && (forall i: nat :: Merge.IsLast(rs, i) ==> Merge.AsDump(rs[i]) in file)
    && (forall d :: d in file ==> exists i: nat :: Merge.IsLast(rs, i) && Merge.AsDump(rs[i]) == d)
  }

  /** No report is at a negative time. */
  predicate NonNegative(q: seq<Pending.Entry>) {
    forall i :: 0 <= i < |q| ==> q[i].time >= 0
  }

  lemma {:induction false} ReportsNonNegative(now: int, calls: seq<Pending.Call>)
    requires Pending.IsRun(now, calls) && 0 <= now
    ensures forall e :: e in Reported(calls) || e in Ends(calls) ==> e.time >= 0
    decreases |calls|
  {
    hide Replaced;
    if calls != [] {
      var c := calls[0];
      ReportsNonNegative(Pending.TimeOf(c), calls[1..]);
      if c.Pulse? { assert Surviving([EndOf(c)], calls[1..]) <= [EndOf(c)] by { assert [EndOf(c)][1..] == []; } }
    }
  }

  lemma PackedNonNegative(calls: seq<Pending.Call>)
    requires Pending.IsRun(0, calls)
    ensures NonNegative(Packed(calls))
  {
    hide Packed, Ends;
    PackedIsReported(calls);
    ReportsNonNegative(0, calls);
    forall i | 0 <= i < |Packed(calls)| ensures Packed(calls)[i].time >= 0 {
      var e := Packed(calls)[i];
      assert e in multiset(Packed(calls));
      assert e in multiset(Reported(calls)) || e in multiset(Ends(calls));
    }
  }

  function DumpOf(e: Pending.Entry): Merge.Dump {
    Merge.AsDump(AsRecord(e))
  }

  /**
   What the file must hold for these calls: for every trace and time the value that the trace on its own
   dumps last at that time, once, and nothing else, in order of time.
   */
  ghost predicate Shows(file: seq<Merge.Dump>, calls: seq<Pending.Call>) {
    && Merge.OncePerSlot(file)
    && (forall x: nat, time: int :: LastAt(Seen(calls, x), x, time).Some? ==>
          DumpOf(LastAt(Seen(calls, x), x, time).value) in file)
    && (forall d :: d in file ==>
          exists e :: LastAt(Seen(calls, d.trace), d.trace, d.timestamp) == Some(e) && DumpOf(e) == d)
  }

  lemma LastIsLast(q: seq<Pending.Entry>, i: nat)
    requires NonNegative(q)
    ensures Merge.IsLast(Records(q), i) <==> IsLast(q, i)
  {
  }

  lemma {:induction false} LastAtIs(q: seq<Pending.Entry>, x: nat, time: int)
    ensures LastAt(q, x, time).Some? ==> LastAt(q, x, time).value.trace == x && LastAt(q, x, time).value.time == time
  {
    if q != [] { LastAtIs(q[..|q| - 1], x, time); }
  }

  lemma HoldsShows(file: seq<Merge.Dump>, calls: seq<Pending.Call>)
    requires Pending.IsRun(0, calls) && Holds(file, Packed(calls))
    ensures Shows(file, calls)
  {
    hide Packed, Seen, LastAt, Merge.OncePerSlot, Merge.SameSlot;
    var q := Packed(calls);
    PackedNonNegative(calls);
    forall x: nat, time: int | LastAt(Seen(calls, x), x, time).Some?
      ensures DumpOf(LastAt(Seen(calls, x), x, time).value) in file
    {
      PackedTraceByTrace(calls, x);
      LastAtOfTrace(q, x, time);
      LastAtIs(q, x, time);
      var e := LastAt(q, x, time).value;
      LastAtIff(q, e);
      var i: nat :| IsLast(q, i) && q[i] == e;
      LastIsLast(q, i);
      IsIndex(q, i);
      assert Records(q)[i] == AsRecord(e);
    }
    forall d | d in file
      ensures exists e :: LastAt(Seen(calls, d.trace), d.trace, d.timestamp) == Some(e) && DumpOf(e) == d
    {
      var i: nat :| Merge.IsLast(Records(q), i) && Merge.AsDump(Records(q)[i]) == d;
      LastIsLast(q, i);
      IsIndex(q, i);
      LastAtIff(q, q[i]);
      PackedTraceByTrace(calls, d.trace);
      LastAtOfTrace(q, d.trace, d.timestamp);
      assert DumpOf(q[i]) == d;
    }
  }

  lemma IsIndex(q: seq<Pending.Entry>, i: nat)
    ensures IsLast(q, i) ==> i < |q|
  {
  }

  /**
   Main result: whatever pulses and events are reported at non-decreasing times, and however the two
   threads take turns on whatever number and size of buffers, once the engine has been stopped and the
   buffers are drained the trace file shows for every trace exactly what it reported last at every time,
   the ends of its pulses included.
   */
  lemma EventsReachTheFile(
      calls: seq<Pending.Call>, count: nat, bytes: nat, kinds: TraceCodec.Kinds, steps: seq<Stream.Step>)
    requires Pending.IsRun(0, calls) && Stream.IsRun(Stream.Start(count, bytes), steps, bytes, kinds)
    requires var s := Stream.Run(Stream.Start(count, bytes), steps, bytes, kinds);
      s.packed == Records(Packed(calls)) && s.ready == [] && s.busy.None? && s.current.None?
    ensures var s := Stream.Run(Stream.Start(count, bytes), steps, bytes, kinds);
      var file := Merge.FlushTraces(Merge.AcceptAll(Merge.Start(), s.unpacked)).out;
      Holds(file, Packed(calls)) && Shows(file, calls)
  {
    hide Packed, Shows, Merge.InOrder, Merge.IsLast, Merge.OncePerSlot, Merge.AcceptAll;
    Stream.NothingIsLost(count, bytes, steps, kinds);
    PackedInOrder(calls);
    Merge.LastValueWins(Records(Packed(calls)));
    var s := Stream.Run(Stream.Start(count, bytes), steps, bytes, kinds);
    HoldsShows(Merge.FlushTraces(Merge.AcceptAll(Merge.Start(), s.unpacked)).out, calls);
  }
}
