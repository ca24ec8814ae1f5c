/**
 What has to be in the stream of packed events, told from the calls alone: every event and every pulse
 that was reported, and the end of every pulse that no later pulse of its trace came to replace.
 */
module TraceReports {
  import opened Wrappers
  import opened TracePending

  // ---------------------------------------------------------------- all of them, as a multiset

  /** A later pulse of the trace begins before the end is due. */
  ghost predicate Replaced(calls: seq<Call>, end: Entry) {
    exists m :: 0 <= m < |calls| && Replaces(calls[m], end)
  }

  predicate Replaces(c: Call, end: Entry) {
    c.Pulse? && c.e.trace == end.trace && c.e.time < end.time
  }

  /** The events and the beginnings of the pulses, in the order of the calls. */
  function Reported(calls: seq<Call>): seq<Entry> {
    if calls == [] then []
    else (if calls[0].CheckAt? then [] else [calls[0].e]) + Reported(calls[1..])
  }

  /** The pulses' ends, each with the background value, but for those replaced. */
  ghost function Ends(calls: seq<Call>): seq<Entry> {
    if calls == [] then []
    else (if calls[0].Pulse? then Surviving([EndOf(calls[0])], calls[1..]) else []) + Ends(calls[1..])
  }

  function EndOf(c: Call): Entry
    requires c.Pulse?
  {
    Entry(c.e.trace, c.end, c.value)
  }

  ghost function Surviving(q: seq<Entry>, calls: seq<Call>): seq<Entry> {
    if q == [] then [] else (if Replaced(calls, q[0]) then [] else [q[0]]) + Surviving(q[1..], calls)
  }

  lemma {:induction false} SurvivingJoins(a: seq<Entry>, b: seq<Entry>, calls: seq<Call>)
    ensures Surviving(a + b, calls) == Surviving(a, calls) + Surviving(b, calls)
  {
    hide Replaced;
    if a == [] {
      assert a + b == b;
    } else {
      SurvivingJoins(a[1..], b, calls);
      assert (a + b)[1..] == a[1..] + b && (a + b)[0] == a[0];
      hide Surviving;
      assert forall x: seq<Entry>, y: seq<Entry>, z: seq<Entry> :: x + (y + z) == (x + y) + z;
    }
  }

  lemma {:induction false} NoneReplaced(q: seq<Entry>, calls: seq<Call>)
    requires forall x :: x in q ==> !Replaced(calls, x)
    ensures Surviving(q, calls) == q
  {
    hide Replaced;
    if q != [] {
      NoneReplaced(q[1..], calls);
      assert q == [q[0]] + q[1..];
    }
  }

  /** Calls come at no earlier times. */
  lemma {:induction false} CallsAreLater(now: int, calls: seq<Call>, m: nat)
    requires IsRun(now, calls) && m < |calls|
    ensures now <= TimeOf(calls[m])
    decreases |calls|
  {
    if m > 0 { CallsAreLater(TimeOf(calls[0]), calls[1..], m - 1); }
  }

  lemma DueIsSafe(now: int, calls: seq<Call>, x: Entry)
    requires IsRun(now, calls) && x.time <= now
    ensures !Replaced(calls, x)
  {
    forall m | 0 <= m < |calls| ensures !Replaces(calls[m], x) { CallsAreLater(now, calls, m); }
  }

  lemma ReplacedCons(calls: seq<Call>, x: Entry)
    requires calls != []
    ensures Replaced(calls, x) <==> Replaces(calls[0], x) || Replaced(calls[1..], x)
  {
    if m :| 0 <= m < |calls| && Replaces(calls[m], x) {
      if m > 0 { assert calls[1..][m - 1] == calls[m]; }
    }
    if m :| 0 <= m < |calls[1..]| && Replaces(calls[1..][m], x) { assert calls[m + 1] == calls[1..][m]; }
  }

  lemma {:induction false} SameSurvive(q: seq<Entry>, calls: seq<Call>, later: seq<Call>)
    requires forall x :: x in q ==> (Replaced(calls, x) <==> Replaced(later, x))
    ensures Surviving(q, calls) == Surviving(q, later)
  {
    hide Replaced;
    if q != [] { SameSurvive(q[1..], calls, later); }
  }

  /** A check takes the ends that are due off the front. */
  lemma {:induction false} CheckSplits(p: Pulses, time: int) returns (k: nat)
    requires time != -1
    ensures k <= |p.waiting| && Check(p, time) == Pulses(p.waiting[k..], p.stream + p.waiting[..k])
    ensures forall i :: 0 <= i < k ==> p.waiting[i].time <= time
    decreases |p.waiting|
  {
    k := 0;
    if p.waiting != [] && p.waiting[0].time <= time {
      var p' := Pulses(p.waiting[1..], p.stream + [p.waiting[0]]);
      var k' := CheckSplits(p', time);
      k := k' + 1;
      assert p.stream + p.waiting[..k] == p'.stream + p'.waiting[..k'];
    }
  }

  /** Everything that is in the stream, or waits and will not be replaced. */
  ghost function All(p: Pulses, calls: seq<Call>): multiset<Entry> {
    multiset(p.stream) + multiset(Surviving(p.waiting, calls))
  }

  lemma CheckKeepsAll(p: Pulses, time: int, calls: seq<Call>)
    requires IsRun(time, calls) && time != -1
    ensures All(Check(p, time), calls) == All(p, calls)
  {
    hide Replaced, Check;
    var k := CheckSplits(p, time);
    var due, later := p.waiting[..k], p.waiting[k..];
    assert p.waiting == due + later;
    forall x | x in due ensures !Replaced(calls, x) { DueIsSafe(time, calls, x); }
    NoneReplaced(due, calls);
    SurvivingJoins(due, later, calls);
    assert multiset(p.stream + due) == multiset(p.stream) + multiset(due);
  }

  /** Only a pulse can replace an end. */
  lemma AllForLater(p: Pulses, calls: seq<Call>)
    requires calls != [] && !calls[0].Pulse?
    ensures All(p, calls) == All(p, calls[1..])
  {
    hide Replaced;
    forall x | x in p.waiting ensures Replaced(calls, x) <==> Replaced(calls[1..], x) { ReplacedCons(calls, x); }
    SameSurvive(p.waiting, calls, calls[1..]);
  }

  /** What a pulse leaves waiting of the other traces, and it replaces the end of its own, which is not due yet. */
  lemma {:induction false} PulseReplaces(q: seq<Entry>, calls: seq<Call>)
    requires calls != [] && calls[0].Pulse? && OnePerTrace(q) && NoneBefore(q, calls[0].e.time + 1)
    ensures Surviving(q, calls) == Surviving(Remove(q, calls[0].e.trace), calls[1..])
  {
    hide Replaced, OnePerTrace, NoneBefore;
    if q != [] {
      assert q == [q[0]] + q[1..];
      Cons(q[0], q[1..]);
      Behind(q, calls[0].e.time + 1);
      ReplacedCons(calls, q[0]);
      if q[0].trace == calls[0].e.trace {
        forall x | x in q[1..] ensures Replaced(calls, x) <==> Replaced(calls[1..], x) { ReplacedCons(calls, x); }
        SameSurvive(q[1..], calls, calls[1..]);
      } else {
        PulseReplaces(q[1..], calls);
        assert ([q[0]] + Remove(q[1..], calls[0].e.trace))[1..] == Remove(q[1..], calls[0].e.trace);
      }
    }
  }

  lemma Behind(q: seq<Entry>, time: int)
    requires NoneBefore(q, time) && q != []
    ensures time <= q[0].time && NoneBefore(q[1..], time)
  {
  }

  lemma {:induction false} InsertSurvives(q: seq<Entry>, e: Entry, calls: seq<Call>)
    ensures multiset(Surviving(Insert(q, e), calls)) ==
      multiset(Surviving(q, calls)) + multiset(Surviving([e], calls))
  {
    hide Replaced, Surviving;
    SurvivingJoins([e], q, calls);
    if q == [] || e.time <= q[0].time {
    } else {
      InsertSurvives(q[1..], e, calls);
      SurvivingJoins([q[0]], Insert(q[1..], e), calls);
      SurvivingJoins([q[0]], q[1..], calls);
      assert q == [q[0]] + q[1..];
    }
  }

  lemma EventAll(p: Pulses, e: Entry, calls: seq<Call>)
    requires IsRun(e.time, calls) && e.time != -1
    ensures All(DumpEvent(p, e), calls) == All(p, calls) + multiset{e}
  {
    hide Replaced, Check;
    CheckKeepsAll(p, e.time, calls);
    var c := Check(p, e.time);
    assert multiset(c.stream + [e]) == multiset(c.stream) + multiset{e};
  }

  lemma PulseAll(p: Pulses, now: int, calls: seq<Call>)
    requires calls != [] && calls[0].Pulse? && IsRun(now, calls) && Good(p, now)
    ensures var c := calls[0];
      All(Apply(p, c), calls[1..]) == All(p, calls) + multiset{c.e} + multiset(Surviving([EndOf(c)], calls[1..]))
  {
    var c, rest := calls[0], calls[1..];
    CheckKeeps(p, now, c.e.time);
    hide Replaced, Check, Sorted, NoneBefore, NoneAfter, OnePerTrace;
    var d := Check(p, c.e.time);
    assert IsRun(c.e.time, calls);
    CheckKeepsAll(p, c.e.time, calls);
    PulseReplaces(d.waiting, calls);
    InsertSurvives(Remove(d.waiting, c.e.trace), EndOf(c), rest);
    assert multiset(d.stream + [c.e]) == multiset(d.stream) + multiset{c.e};
  }

  /** Whatever was there before, a run adds what is reported, and the ends that are not replaced. */
  lemma {:induction false} RunAddsReports(p: Pulses, now: int, calls: seq<Call>)
    requires Good(p, now) && IsRun(now, calls)
    ensures All(Run(p, calls), []) == All(p, calls) + multiset(Reported(calls)) + multiset(Ends(calls))
    decreases |calls|
  {
    hide Replaced, Good, Apply, All, Surviving;
    if calls != [] {
      var c, rest := calls[0], calls[1..];
      ApplyKeeps(p, now, c);
      RunAddsReports(Apply(p, c), TimeOf(c), rest);
      StepAll(p, now, calls);
      CallsSplit(calls);
    }
  }

  lemma CallsSplit(calls: seq<Call>)
    requires calls != []
    ensures var c, rest := calls[0], calls[1..];
      && multiset(Reported(calls)) == (if c.CheckAt? then multiset{} else multiset{c.e}) + multiset(Reported(rest))
      && multiset(Ends(calls)) ==
        (if c.Pulse? then multiset(Surviving([EndOf(c)], rest)) else multiset{}) + multiset(Ends(rest))
  {
    hide Replaced, Surviving;
  }

  lemma ApplyKeeps(p: Pulses, now: int, c: Call)
    requires Good(p, now) && Allowed(now, c)
    ensures Good(Apply(p, c), TimeOf(c))
  {
    match c
    case Event(e) => EventKeeps(p, now, e);
    case Pulse(e, end, value) => PulseKeeps(p, now, e, end, value);
    case CheckAt(time) => CheckKeeps(p, now, time);
  }

  lemma StepAll(p: Pulses, now: int, calls: seq<Call>)
    requires Good(p, now) && IsRun(now, calls) && calls != []
    ensures var c := calls[0];
      All(Apply(p, c), calls[1..]) == All(p, calls)
        + (if c.CheckAt? then multiset{} else multiset{c.e})
        + (if c.Pulse? then multiset(Surviving([EndOf(c)], calls[1..])) else multiset{})
  {
    hide Replaced, Good, All, Check, DumpEvent, DumpPulse, Surviving;
    var c, rest := calls[0], calls[1..];
    match c
    case Event(e) =>
      AllForLater(p, calls);
      EventAll(p, e, rest);
    case Pulse(_, _, _) => PulseAll(p, now, calls);
    case CheckAt(time) =>
      AllForLater(p, calls);
      CheckKeepsAll(p, time, rest);
  }

  /**
   Main result: after any calls at non-decreasing times the stream and the ends that wait are together
   exactly what was reported and, of each pulse, its end, but for the ends replaced by a later pulse of
   the same trace that began before they were due.
   */
  lemma StreamHoldsReports(calls: seq<Call>)
    requires IsRun(0, calls)
    ensures var p := Run(Pulses([], []), calls);
      multiset(p.stream) + multiset(p.waiting) == multiset(Reported(calls)) + multiset(Ends(calls))
  {
    assert Good(Pulses([], []), 0);
    RunAddsReports(Pulses([], []), 0, calls);
    var p := Run(Pulses([], []), calls);
    NoneReplaced(p.waiting, []);
  }

  /** An end goes in front of those at the same time, and behind the earlier ones. */
  lemma {:induction false} InsertedAt(q: seq<Entry>, e: Entry) returns (k: nat)
    ensures k <= |q| && Insert(q, e) == q[..k] + [e] + q[k..]
    ensures (forall i :: 0 <= i < k ==> q[i].time < e.time) && (k < |q| ==> e.time <= q[k].time)
  {
    k := 0;
    if q != [] && q[0].time < e.time {
      var j := InsertedAt(q[1..], e);
      k := j + 1;
      assert q == [q[0]] + q[1..] && q[..k] == [q[0]] + q[1..][..j] && q[k..] == q[1..][j..];
      assert Insert(q, e) == [q[0]] + (q[1..][..j] + [e] + q[1..][j..]);
    }
  }

  // ---------------------------------------------------------------- trace by trace, in order

  function OfTrace(q: seq<Entry>, x: nat): seq<Entry> {
    if q == [] then []
    else OfTrace(q[..|q| - 1], x) + (if q[|q| - 1].trace == x then [q[|q| - 1]] else [])
  }

  lemma {:induction false} OfTraceJoins(a: seq<Entry>, b: seq<Entry>, x: nat)
    ensures OfTrace(a + b, x) == OfTrace(a, x) + OfTrace(b, x)
    decreases |b|
  {
    if b == [] {
      assert a + b == a;
    } else {
      var n := |b| - 1;
      OfTraceJoins(a, b[..n], x);
      assert (a + b)[..|a| + n] == a + b[..n];
    }
  }

  lemma OfOne(e: Entry, x: nat)
    ensures OfTrace([e], x) == if e.trace == x then [e] else []
  {
    assert [e][..0] == [];
  }

  /** One trace on its own: what it has dumped, and the end that is still to come. */
  datatype Alone = Alone(seen: seq<Entry>, end: Option<Entry>)

  function Pending(a: Alone): seq<Entry> {
    if a.end.Some? then [a.end.value] else []
  }

  /** An end comes before whatever the trace reports at its time or later. */
  function Ended(a: Alone, time: int): Alone {
    if a.end.Some? && a.end.value.time <= time then Alone(a.seen + [a.end.value], None) else a
  }

  function Report(a: Alone, c: Call, x: nat): Alone {
    if c.CheckAt? || c.e.trace != x then a
    else
      var b := Ended(a, c.e.time);
      Alone(b.seen + [c.e], if c.Pulse? then Some(EndOf(c)) else b.end)
  }

  function Follow(a: Alone, calls: seq<Call>, x: nat): Alone
    decreases |calls|
  {
    if calls == [] then a else Follow(Report(a, calls[0], x), calls[1..], x)
  }

  /** All that one trace dumps for these calls, in order, once the engine has been stopped. */
  function Seen(calls: seq<Call>, x: nat): seq<Entry> {
    var a := Follow(Alone([], None), calls, x);
    a.seen + Pending(a)
  }

  /** The trace on its own has dumped what the stream holds of it, but perhaps for an end that is past. */
  ghost predicate Follows(p: Pulses, a: Alone, x: nat, now: int) {
    InStep(OfTrace(p.stream, x), OfTrace(p.waiting, x), a, now)
  }

  ghost predicate InStep(stream: seq<Entry>, waiting: seq<Entry>, a: Alone, now: int) {
    && stream + waiting == a.seen + Pending(a)
    && (waiting == [] || waiting == Pending(a))
    && (a.end.Some? && waiting == [] ==> a.end.value.time <= now)
  }

  /** Of what waits, `due` goes to the stream. */
  lemma StaysInStep(stream: seq<Entry>, due: seq<Entry>, later: seq<Entry>, a: Alone, now: int, time: int)
    requires InStep(stream, due + later, a, now) && now <= time
    requires NoneAfter(due, time) && NoneBefore(later, time + 1)
    ensures InStep(stream + due, later, a, time)
    ensures later == (if a.end.Some? && a.end.value.time > time then Pending(a) else [])
  {
    assert (stream + due) + later == stream + (due + later);
    if due != [] {
      assert due[0] == (due + later)[0] && due + later == Pending(a);
      assert later == [];
    } else {
      assert due + later == later;
      if later != [] { assert later[0] == a.end.value; }
    }
  }

  /** A new entry goes to the stream, in front of the end if that still waits. */
  lemma ReportsInStep(stream: seq<Entry>, waiting: seq<Entry>, a: Alone, e: Entry)
    requires InStep(stream, waiting, a, e.time)
    requires waiting == if a.end.Some? && a.end.value.time > e.time then Pending(a) else []
    ensures var b := Ended(a, e.time);
      InStep(stream + [e], waiting, Alone(b.seen + [e], b.end), e.time) && stream == b.seen
  {
    if waiting == [] {
      assert stream + [] == stream && (stream + [e]) + [] == stream + [e];
      assert a.seen + [] == a.seen;
    } else {
      SameFront(stream, a.seen, Pending(a));
    }
  }

  lemma EndInStep(stream: seq<Entry>, end: Entry, now: int)
    ensures InStep(stream, [end], Alone(stream, Some(end)), now)
  {
  }

  lemma {:induction false} OfLater(q: seq<Entry>, x: nat, time: int)
    requires NoneBefore(q, time)
    ensures NoneBefore(OfTrace(q, x), time)
  {
    if q != [] { OfLater(q[..|q| - 1], x, time); }
  }

  lemma {:induction false} OfEarlier(q: seq<Entry>, x: nat, time: int)
    requires NoneAfter(q, time)
    ensures NoneAfter(OfTrace(q, x), time)
  {
    if q != [] { OfEarlier(q[..|q| - 1], x, time); }
  }

  /** After a check the end of a trace waits exactly if it is not due. */
  lemma CheckFollows(p: Pulses, a: Alone, x: nat, now: int, time: int)
    requires Follows(p, a, x, now) && Good(p, now) && now <= time && time != -1
    ensures Follows(Check(p, time), a, x, time)
    ensures var c := Check(p, time);
      OfTrace(c.waiting, x) == (if a.end.Some? && a.end.value.time > time then Pending(a) else [])
  {
    CheckKeeps(p, now, time);
    hide Check, Sorted, OnePerTrace;
    var c := Check(p, time);
    var k := CheckSplits(p, time);
    var due := p.waiting[..k];
    assert p.waiting == due + c.waiting;
    OfTraceJoins(due, c.waiting, x);
    OfTraceJoins(p.stream, due, x);
    OfLater(c.waiting, x, time + 1);
    OfEarlier(due, x, time);
    hide OfTrace, InStep, NoneAfter, NoneBefore;
    StaysInStep(OfTrace(p.stream, x), OfTrace(due, x), OfTrace(c.waiting, x), a, now, time);
  }

  lemma {:induction false} RemoveOf(q: seq<Entry>, y: nat, x: nat)
    requires OnePerTrace(q)
    ensures OfTrace(Remove(q, y), x) == if x == y then [] else OfTrace(q, x)
  {
    hide OnePerTrace;
    if q != [] {
      assert q == [q[0]] + q[1..];
      Cons(q[0], q[1..]);
      OfTraceJoins([q[0]], q[1..], x);
      OfOne(q[0], x);
      if q[0].trace != y {
        RemoveOf(q[1..], y, x);
        OfTraceJoins([q[0]], Remove(q[1..], y), x);
      } else if x == y {
        NoneOf(q[1..], x);
      }
    }
  }

  lemma {:induction false} NoneOf(q: seq<Entry>, x: nat)
    requires forall e :: e in q ==> e.trace != x
    ensures OfTrace(q, x) == []
  {
    if q != [] { NoneOf(q[..|q| - 1], x); }
  }

  lemma {:induction false} InsertOf(q: seq<Entry>, e: Entry, x: nat)
    requires e.trace == x ==> OfTrace(q, x) == []
    ensures OfTrace(Insert(q, e), x) == if e.trace == x then [e] else OfTrace(q, x)
  {
    OfOne(e, x);
    if q == [] || e.time <= q[0].time {
      OfTraceJoins([e], q, x);
    } else {
      assert q == [q[0]] + q[1..];
      OfTraceJoins([q[0]], q[1..], x);
      InsertOf(q[1..], e, x);
      OfTraceJoins([q[0]], Insert(q[1..], e), x);
      OfOne(q[0], x);
    }
  }

  lemma EventFollows(p: Pulses, a: Alone, x: nat, now: int, e: Entry)
    requires Follows(p, a, x, now) && Good(p, now) && 0 <= now <= e.time
    ensures Follows(DumpEvent(p, e), Report(a, Event(e), x), x, e.time)
  {
    CheckFollows(p, a, x, now, e.time);
    hide Check, OfTrace, InStep, Good;
    var c := Check(p, e.time);
    OfTraceJoins(c.stream, [e], x);
    OfOne(e, x);
    assert OfTrace(c.stream, x) + [] == OfTrace(c.stream, x);
    if e.trace == x { ReportsInStep(OfTrace(c.stream, x), OfTrace(c.waiting, x), a, e); }
  }

  lemma SameFront(a: seq<Entry>, b: seq<Entry>, c: seq<Entry>)
    requires a + c == b + c
    ensures a == b
  {
    assert a == (a + c)[..|a|] && b == (b + c)[..|b|];
  }

  lemma PulseFollows(p: Pulses, a: Alone, x: nat, now: int, c: Call)
    requires Follows(p, a, x, now) && Good(p, now) && c.Pulse? && 0 <= now <= c.e.time <= c.end
    ensures Follows(Apply(p, c), Report(a, c, x), x, c.e.time)
  {
    CheckKeeps(p, now, c.e.time);
    CheckFollows(p, a, x, now, c.e.time);
    hide Check, OfTrace, Sorted, NoneBefore, NoneAfter, OnePerTrace;
    var d := Check(p, c.e.time);
    OfTraceJoins(d.stream, [c.e], x);
    OfOne(c.e, x);
    RemoveOf(d.waiting, c.e.trace, x);
    InsertOf(Remove(d.waiting, c.e.trace), EndOf(c), x);
    assert OfTrace(d.stream, x) + [] == OfTrace(d.stream, x);
    hide InStep, Good;
    if c.e.trace == x {
      ReportsInStep(OfTrace(d.stream, x), OfTrace(d.waiting, x), a, c.e);
      EndInStep(OfTrace(d.stream, x) + [c.e], EndOf(c), c.e.time);
    }
  }

  lemma {:induction false} RunFollows(p: Pulses, a: Alone, x: nat, now: int, calls: seq<Call>)
    requires Follows(p, a, x, now) && Good(p, now) && IsRun(now, calls)
    ensures var q := Run(p, calls); var b := Follow(a, calls, x);
      OfTrace(q.stream, x) + OfTrace(q.waiting, x) == b.seen + Pending(b)
    decreases |calls|
  {
    hide Good, OfTrace, Check, DumpPulse, DumpEvent, Report;
    if calls != [] {
      var c := calls[0];
      ApplyKeeps(p, now, c);
      match c {
        case Event(e) => EventFollows(p, a, x, now, e);
        case Pulse(_, _, _) => PulseFollows(p, a, x, now, c);
        case CheckAt(time) => CheckOnlyFollows(p, a, x, now, time);
      }
      RunFollows(Apply(p, c), Report(a, c, x), x, TimeOf(c), calls[1..]);
    }
  }

  lemma CheckOnlyFollows(p: Pulses, a: Alone, x: nat, now: int, time: int)
    requires Follows(p, a, x, now) && Good(p, now) && 0 <= now <= time
    ensures Follows(Check(p, time), Report(a, CheckAt(time), x), x, time)
  {
    CheckFollows(p, a, x, now, time);
  }

  /** All that is packed for these calls, once the engine has been stopped. */
  function Packed(calls: seq<Call>): seq<Entry> {
    Check(Run(Pulses([], []), calls), -1).stream
  }

  /**
   Main result: the traces do not get in each other's way. The stream holds of each trace, in this order,
   what it reports on its own: its events and pulses in the order of the calls, and each end in front of
   the first that is not earlier.
   */
  lemma PackedTraceByTrace(calls: seq<Call>, x: nat)
    requires IsRun(0, calls)
    ensures OfTrace(Packed(calls), x) == Seen(calls, x)
  {
    var p := Pulses([], []);
    assert Good(p, 0) && Follows(p, Alone([], None), x, 0);
    RunFollows(p, Alone([], None), x, 0, calls);
    var last := RunStaysGood(p, 0, calls);
    hide OfTrace, Run, Good;
    var q := Run(p, calls);
    StopDumpsAll(q, last);
    OfTraceJoins(q.stream, q.waiting, x);
  }

  /** What is reported last of a trace at a time. */
  function LastAt(q: seq<Entry>, x: nat, time: int): Option<Entry> {
    if q == [] then None
    else
      var e := q[|q| - 1];
      if e.trace == x && e.time == time then Some(e) else LastAt(q[..|q| - 1], x, time)
  }

  lemma {:induction false} LastAtOfTrace(q: seq<Entry>, x: nat, time: int)
    ensures LastAt(OfTrace(q, x), x, time) == LastAt(q, x, time)
  {
    if q != [] {
      var n := |q| - 1;
      LastAtOfTrace(q[..n], x, time);
      if q[n].trace == x {
        assert OfTrace(q, x)[..|OfTrace(q, x)| - 1] == OfTrace(q[..n], x);
      } else {
        assert OfTrace(q, x) == OfTrace(q[..n], x);
      }
    }
  }

  /** No later entry has the same trace and time. */
  predicate IsLast(q: seq<Entry>, i: nat) {
    i < |q| && forall j :: i < j < |q| ==> !(q[j].trace == q[i].trace && q[j].time == q[i].time)
  }

  lemma {:induction false} LastAtIff(q: seq<Entry>, e: Entry)
    ensures LastAt(q, e.trace, e.time) == Some(e) <==> exists i: nat :: IsLast(q, i) && q[i] == e
  {
    if q != [] {
      var n := |q| - 1;
      var front := q[..n];
      LastAtIff(front, e);
      if q[n].trace == e.trace && q[n].time == e.time {
        assert IsLast(q, n);
        forall i: nat | IsLast(q, i) && q[i] == e ensures i == n { }
      } else {
        forall i: nat | i < n ensures (IsLast(q, i) && q[i] == e) <==> (IsLast(front, i) && front[i] == e) {
          LastInFront(q, i, e);
        }
        if i: nat :| IsLast(q, i) && q[i] == e { assert IsLast(front, i) && front[i] == e; }
        if i: nat :| IsLast(front, i) && front[i] == e { assert IsLast(q, i) && q[i] == e; }
      }
    }
  }

  lemma LastInFront(q: seq<Entry>, i: nat, e: Entry)
    requires i < |q| - 1 && !(q[|q| - 1].trace == e.trace && q[|q| - 1].time == e.time)
    ensures (IsLast(q, i) && q[i] == e) <==> (IsLast(q[..|q| - 1], i) && q[..|q| - 1][i] == e)
  {
    var front := q[..|q| - 1];
    assert forall j :: 0 <= j < |front| ==> front[j] == q[j];
  }

  /** And nothing else: it is exactly what was reported, with the ends that were not replaced. */
  lemma PackedIsReported(calls: seq<Call>)
    requires IsRun(0, calls)
    ensures multiset(Packed(calls)) == multiset(Reported(calls)) + multiset(Ends(calls)) && Sorted(Packed(calls))
  {
    assert Good(Pulses([], []), 0);
    var last := RunStaysGood(Pulses([], []), 0, calls);
    StreamHoldsReports(calls);
    var p := Run(Pulses([], []), calls);
    StopDumpsAll(p, last);
  }
}
