/**
 The dumping thread's merge: several values of one trace at one timestamp are dumped as the last of
 them, when the next timestamp shows up.
 */
module TraceMerge {
  import opened Wrappers
  import opened TraceCodec

  /** One value written to the trace file. */
  datatype Dump = Dump(timestamp: nat, trace: nat, none: bool, data: seq<Byte>)

  function AsDump(r: Record): Dump {
    Dump(r.timestamp, r.trace, r.none, r.data)
  }

  /**
   `last` is the timestamp being collected, `listed` the traces to be dumped at it, latest first, and
   `latest` what was registered last for each trace.
   */
  datatype Merge = Merge(last: Option<nat>, listed: seq<nat>, latest: map<nat, Record>, out: seq<Dump>)

  function Start(): Merge {
    Merge(None, [], map[], [])
  }

  /** Dumps the listed traces, in list order. */
  function DumpAll(listed: seq<nat>, latest: map<nat, Record>, timestamp: nat): seq<Dump> {
    if listed == [] then []
    else
      (if listed[0] in latest then [AsDump(latest[listed[0]]).(timestamp := timestamp)] else [])
      + DumpAll(listed[1..], latest, timestamp)
  }

  function FlushTraces(m: Merge): Merge {
    if m.last.None? then m.(listed := [])
    else m.(out := m.out + DumpAll(m.listed, m.latest, m.last.value), listed := [])
  }

  function Register(m: Merge, r: Record): Merge {
    m.(latest := m.latest[r.trace := r], listed := if r.trace in m.listed then m.listed else [r.trace] + m.listed)
  }

  /** What the loop does with one unpacked event. */
  function Accept(m: Merge, r: Record): Merge {
    var m0 := if m.last.None? then m.(last := Some(r.timestamp)) else m;
    var m1 := if m0.last.value < r.timestamp then FlushTraces(m0).(last := Some(r.timestamp)) else m0;
    Register(m1, r)
  }

  function AcceptAll(m: Merge, rs: seq<Record>): Merge {
    if rs == [] then m else Accept(AcceptAll(m, rs[..|rs| - 1]), rs[|rs| - 1])
  }

  // ---------------------------------------------------------------- what the file must hold

  predicate InOrder(rs: seq<Record>) {
    forall i, j :: 0 <= i < j < |rs| ==> rs[i].timestamp <= rs[j].timestamp
  }

  predicate SameSlot(a: Record, b: Record) {
    a.trace == b.trace && a.timestamp == b.timestamp
  }

  /** No later event has the same trace and timestamp. */
  predicate IsLast(rs: seq<Record>, i: nat) {
    i < |rs| && forall j :: i < j < |rs| ==> !SameSlot(rs[i], rs[j])
  }

  /** The dumps of the events before `limit`: each last value, and nothing else. */
  ghost predicate Exactly(out: seq<Dump>, rs: seq<Record>, limit: nat) {
    && (forall i: nat :: IsLast(rs, i) && rs[i].timestamp < limit ==> AsDump(rs[i]) in out)
    && (forall d :: d in out ==> exists i: nat :: IsLast(rs, i) && rs[i].timestamp < limit && AsDump(rs[i]) == d)
  }

  /** One dump per trace and timestamp, at non-decreasing times. */
  predicate OncePerSlot(out: seq<Dump>) {
    forall i, j :: 0 <= i < j < |out| ==>
      out[i].timestamp <= out[j].timestamp && !(out[i].timestamp == out[j].timestamp && out[i].trace == out[j].trace)
  }

  /** The list holds the traces with a value at the timestamp being collected, each once, with its last value. */
  ghost predicate Collects(m: Merge, rs: seq<Record>, t: nat) {
    && (forall i, j :: 0 <= i < j < |m.listed| ==> m.listed[i] != m.listed[j])
    && (forall i: nat :: IsLast(rs, i) && rs[i].timestamp == t ==>
          rs[i].trace in m.listed && rs[i].trace in m.latest && m.latest[rs[i].trace] == rs[i])
    && (forall c :: c in m.listed ==>
          c in m.latest && exists i: nat ::
            IsLast(rs, i) && rs[i].timestamp == t && rs[i].trace == c && m.latest[c] == rs[i])
  }

  ghost predicate Inv(m: Merge, rs: seq<Record>) {
    if rs == [] then m == Start()
    else
      && m.last == Some(rs[|rs| - 1].timestamp)
      && Exactly(m.out, rs, m.last.value) && OncePerSlot(m.out) && Collects(m, rs, m.last.value)
  }

  // ---- one more event

  lemma LastAfter(rs: seq<Record>, r: Record, i: nat)
    ensures IsLast(rs + [r], i) <==> i == |rs| || (IsLast(rs, i) && !SameSlot(rs[i], r))
  {
    var s := rs + [r];
    if i < |rs| {
      assert s[i] == rs[i] && s[|rs|] == r;
      if IsLast(s, i) {
        forall j | i < j < |rs| ensures !SameSlot(rs[i], rs[j]) { assert s[j] == rs[j]; }
      }
    }
  }

  lemma {:induction false} DumpAllHolds(listed: seq<nat>, latest: map<nat, Record>, t: nat)
    requires forall c :: c in listed ==> c in latest
    ensures |DumpAll(listed, latest, t)| == |listed|
    ensures forall k :: 0 <= k < |listed| ==>
      DumpAll(listed, latest, t)[k] == AsDump(latest[listed[k]]).(timestamp := t)
  {
    if listed != [] { DumpAllHolds(listed[1..], latest, t); }
  }

  /** Dumping the collected traces completes their timestamp. */
  lemma FlushCompletes(m: Merge, rs: seq<Record>, t: nat, limit: nat)
    requires Exactly(m.out, rs, t) && Collects(m, rs, t) && t < limit
    requires forall i :: 0 <= i < |rs| ==> rs[i].timestamp <= t
    ensures Exactly(m.out + DumpAll(m.listed, m.latest, t), rs, limit)
  {
    var more := DumpAll(m.listed, m.latest, t);
    DumpAllHolds(m.listed, m.latest, t);
    forall i: nat | IsLast(rs, i) && rs[i].timestamp < limit ensures AsDump(rs[i]) in m.out + more {
      if rs[i].timestamp == t {
        var k :| 0 <= k < |m.listed| && m.listed[k] == rs[i].trace;
        assert more[k] == AsDump(rs[i]);
      }
    }
    forall d | d in m.out + more
      ensures exists i: nat :: IsLast(rs, i) && rs[i].timestamp < limit && AsDump(rs[i]) == d {
      if d in more {
        var k :| 0 <= k < |more| && more[k] == d;
        var i: nat :| IsLast(rs, i) && rs[i].timestamp == t && rs[i].trace == m.listed[k] &&
          m.latest[m.listed[k]] == rs[i];
        assert AsDump(rs[i]) == d;
      } else {
        var i: nat :| IsLast(rs, i) && rs[i].timestamp < t && AsDump(rs[i]) == d;
      }
    }
  }

  lemma FlushOnce(m: Merge, rs: seq<Record>, t: nat)
    requires Exactly(m.out, rs, t) && Collects(m, rs, t) && OncePerSlot(m.out)
    ensures OncePerSlot(m.out + DumpAll(m.listed, m.latest, t))
  {
    DumpAllHolds(m.listed, m.latest, t);
    var out := m.out + DumpAll(m.listed, m.latest, t);
    forall k | 0 <= k < |m.listed| ensures m.latest[m.listed[k]].trace == m.listed[k] {}
    forall i, j | 0 <= i < j < |out|
      ensures out[i].timestamp <= out[j].timestamp
      ensures !(out[i].timestamp == out[j].timestamp && out[i].trace == out[j].trace)
    {
      if i < |m.out| <= j {
        assert m.out[i] in m.out;
      } else if |m.out| <= i {
        assert m.listed[i - |m.out|] != m.listed[j - |m.out|];
      }
    }
  }

  /** An event at the timestamp being collected, or a first one after a flush. */
  lemma RegisterCollects(m: Merge, rs: seq<Record>, r: Record)
    requires Collects(m, rs, r.timestamp)
    ensures Collects(Register(m, r), rs + [r], r.timestamp)
  {
    var m' := Register(m, r);
    var s := rs + [r];
    var t := r.timestamp;
    forall i: nat | IsLast(s, i) && s[i].timestamp == t
      ensures s[i].trace in m'.listed && s[i].trace in m'.latest && m'.latest[s[i].trace] == s[i]
    {
      LastAfter(rs, r, i);
      if i < |rs| { assert s[i] == rs[i]; }
    }
    forall c | c in m'.listed
      ensures c in m'.latest && exists i: nat ::
        IsLast(s, i) && s[i].timestamp == t && s[i].trace == c && m'.latest[c] == s[i]
    {
      if c == r.trace {
        LastAfter(rs, r, |rs|);
        assert s[|rs|] == r;
      } else {
        assert c in m.listed;
        var i: nat :| IsLast(rs, i) && rs[i].timestamp == t && rs[i].trace == c && m.latest[c] == rs[i];
        LastAfter(rs, r, i);
        assert s[i] == rs[i];
      }
    }
  }

  lemma ExactlyAfter(out: seq<Dump>, rs: seq<Record>, r: Record, limit: nat)
    requires Exactly(out, rs, limit) && limit <= r.timestamp
    ensures Exactly(out, rs + [r], limit)
  {
    var s := rs + [r];
    forall i: nat | IsLast(s, i) && s[i].timestamp < limit ensures AsDump(s[i]) in out {
      LastAfter(rs, r, i);
      assert s[i] == rs[i];
    }
    forall d | d in out ensures exists i: nat :: IsLast(s, i) && s[i].timestamp < limit && AsDump(s[i]) == d {
      var i: nat :| IsLast(rs, i) && rs[i].timestamp < limit && AsDump(rs[i]) == d;
      LastAfter(rs, r, i);
      assert s[i] == rs[i];
    }
  }

  lemma NothingCollected(m: Merge, rs: seq<Record>, t: nat)
    requires m.listed == [] && forall i :: 0 <= i < |rs| ==> rs[i].timestamp < t
    ensures Collects(m, rs, t)
  {
  }

  lemma AcceptInv(m: Merge, rs: seq<Record>, r: Record)
    requires Inv(m, rs) && InOrder(rs + [r])
    ensures Inv(Accept(m, r), rs + [r])
  {
    hide IsLast, OncePerSlot;
    var s := rs + [r];
    assert s[|rs|] == r;
    if rs == [] {
      NothingCollected(m.(last := Some(r.timestamp)), rs, r.timestamp);
      RegisterCollects(m.(last := Some(r.timestamp)), rs, r);
      ExactlyNone(s, r.timestamp);
      assert rs + [r] == [r];
      assert Accept(m, r) == Register(m.(last := Some(r.timestamp)), r);
    } else {
      var t := m.last.value;
      assert s[|rs| - 1] == rs[|rs| - 1];
      forall i | 0 <= i < |rs| ensures rs[i].timestamp <= t { assert s[i] == rs[i]; }
      if t < r.timestamp {
        FlushCompletes(m, rs, t, r.timestamp);
        FlushOnce(m, rs, t);
        var f := FlushTraces(m).(last := Some(r.timestamp));
        ExactlyAfter(f.out, rs, r, r.timestamp);
        NothingCollected(f, rs, r.timestamp);
        RegisterCollects(f, rs, r);
      } else {
        ExactlyAfter(m.out, rs, r, t);
        RegisterCollects(m, rs, r);
      }
    }
  }

  lemma ExactlyNone(rs: seq<Record>, limit: nat)
    requires forall i :: 0 <= i < |rs| ==> rs[i].timestamp >= limit
    ensures Exactly([], rs, limit) && OncePerSlot([])
  {
  }

  lemma {:induction false} AcceptAllInv(rs: seq<Record>)
    requires InOrder(rs)
    ensures Inv(AcceptAll(Start(), rs), rs)
  {
    if rs != [] {
      var n := |rs| - 1;
      AcceptAllInv(rs[..n]);
      assert rs == rs[..n] + [rs[n]];
      AcceptInv(AcceptAll(Start(), rs[..n]), rs[..n], rs[n]);
    }
  }

  /**
   Main result: if event times never decrease, the file ends up with exactly one value for each trace
   and timestamp that had any, the last one, and in order of time.
   */
  lemma LastValueWins(rs: seq<Record>)
    requires InOrder(rs)
    ensures var out := FlushTraces(AcceptAll(Start(), rs)).out;
      && OncePerSlot(out)
      && (forall i: nat :: IsLast(rs, i) ==> AsDump(rs[i]) in out)
      && (forall d :: d in out ==> exists i: nat :: IsLast(rs, i) && AsDump(rs[i]) == d)
  {
    AcceptAllInv(rs);
    var m := AcceptAll(Start(), rs);
    if rs != [] {
      var t := m.last.value;
      assert forall i :: 0 <= i < |rs| ==> rs[i].timestamp <= t;
      FlushCompletes(m, rs, t, t + 1);
      FlushOnce(m, rs, t);
    }
  }

  // ---------------------------------------------------------------- the order within a timestamp

  /** The first event of a trace. */
  predicate FirstOf(rs: seq<Record>, c: nat, i: nat) {
    i < |rs| && rs[i].trace == c && forall j :: 0 <= j < i ==> rs[j].trace != c
  }

  ghost predicate LaterFirst(rs: seq<Record>, a: nat, b: nat) {
    forall i: nat, j: nat :: FirstOf(rs, a, i) && FirstOf(rs, b, j) ==> i > j
  }

  lemma FirstStays(rs: seq<Record>, r: Record, c: nat, i: nat)
    ensures FirstOf(rs, c, i) ==> FirstOf(rs + [r], c, i)
    ensures FirstOf(rs + [r], c, i) ==> FirstOf(rs, c, i) || (i == |rs| && r.trace == c)
  {
    var s := rs + [r];
    assert forall j :: 0 <= j < |rs| ==> s[j] == rs[j];
  }

  /**
   As long as the timestamp stays the same, the traces that have had an event are listed, and so will be
   dumped, in the opposite order of their first events.
   */
  lemma {:induction false} ListedLatestFirst(rs: seq<Record>)
    requires forall i :: 0 <= i < |rs| ==> rs[i].timestamp == rs[0].timestamp
    ensures var m := AcceptAll(Start(), rs);
      && m.out == [] && (rs != [] ==> m.last == Some(rs[0].timestamp)) && (rs == [] ==> m == Start())
      && (forall c :: c in m.listed <==> exists i: nat :: FirstOf(rs, c, i))
      && (forall x, y :: 0 <= x < y < |m.listed| ==> LaterFirst(rs, m.listed[x], m.listed[y]))
  {
    if rs != [] {
      var n := |rs| - 1;
      var front, r := rs[..n], rs[n];
      assert rs == front + [r];
      ListedLatestFirst(front);
      var m, m' := AcceptAll(Start(), front), AcceptAll(Start(), rs);
      hide AcceptAll;
      forall c, i: nat ensures FirstOf(front, c, i) ==> FirstOf(rs, c, i) { FirstStays(front, r, c, i); }
      forall c, i: nat ensures FirstOf(rs, c, i) ==> FirstOf(front, c, i) || (i == n && r.trace == c) {
        FirstStays(front, r, c, i);
      }
      if r.trace !in m.listed {
        forall j | 0 <= j < n ensures rs[j].trace != r.trace {
          if front[j].trace == r.trace { var i := HasFirst(front, r.trace, j); }
        }
        assert FirstOf(rs, r.trace, n);
      }
      forall x, y | 0 <= x < y < |m'.listed| ensures LaterFirst(rs, m'.listed[x], m'.listed[y]) {
        ListedStays(front, r, m.listed, m'.listed, x, y);
      }
    }
  }

  lemma {:induction false} HasFirst(rs: seq<Record>, c: nat, j: nat) returns (i: nat)
    requires j < |rs| && rs[j].trace == c
    ensures FirstOf(rs, c, i)
  {
    i := j;
    if k :| 0 <= k < j && rs[k].trace == c { i := HasFirst(rs, c, k); }
  }

  lemma ListedStays(front: seq<Record>, r: Record, old_: seq<nat>, new_: seq<nat>, x: nat, y: nat)
    requires forall c :: c in old_ <==> exists i: nat :: FirstOf(front, c, i)
    requires forall u, v :: 0 <= u < v < |old_| ==> LaterFirst(front, old_[u], old_[v])
    requires new_ == (if r.trace in old_ then old_ else [r.trace] + old_) && x < y < |new_|
    ensures LaterFirst(front + [r], new_[x], new_[y])
  {
    var rs := front + [r];
    var a, b := new_[x], new_[y];
    assert b in old_;
    var j0: nat :| FirstOf(front, b, j0);
    forall i: nat, j: nat | FirstOf(rs, a, i) && FirstOf(rs, b, j) ensures i > j {
      FirstStays(front, r, a, i);
      FirstStays(front, r, b, j0);
      assert j == j0 < |front|;
      if i < |front| {
        assert FirstOf(front, a, i) && a in old_;
        var shift := if r.trace in old_ then 0 else 1;
        assert LaterFirst(front, old_[x - shift], old_[y - shift]);
      }
    }
  }

  // ---------------------------------------------------------------- when times go back

  /** The latest timestamp of all. */
  function Latest(rs: seq<Record>): nat
    requires rs != []
  {
    var n := |rs| - 1;
    if n == 0 || Latest(rs[..n]) < rs[n].timestamp then rs[n].timestamp else Latest(rs[..n])
  }

  /** Every event at the latest timestamp there has been so far. */
  function Lifted(rs: seq<Record>): (r: seq<Record>)
    ensures |r| == |rs|
  {
    if rs == [] then [] else Lifted(rs[..|rs| - 1]) + [rs[|rs| - 1].(timestamp := Latest(rs))]
  }

  lemma {:induction false} LatestIs(rs: seq<Record>)
    requires rs != []
    ensures forall i :: 0 <= i < |rs| ==> rs[i].timestamp <= Latest(rs)
    ensures exists i :: 0 <= i < |rs| && rs[i].timestamp == Latest(rs)
  {
    var n := |rs| - 1;
    if n > 0 {
      LatestIs(rs[..n]);
      assert forall i :: 0 <= i < n ==> rs[..n][i] == rs[i];
      var k :| 0 <= k < n && rs[..n][k].timestamp == Latest(rs[..n]);
      assert rs[k].timestamp == Latest(rs[..n]);
    }
    assert rs[n].timestamp == Latest(rs) || Latest(rs) == Latest(rs[..n]);
  }

  lemma {:induction false} LiftedIs(rs: seq<Record>)
    ensures forall i :: 0 <= i < |rs| ==> Lifted(rs)[i] == rs[i].(timestamp := Latest(rs[..i + 1]))
    ensures InOrder(Lifted(rs)) && (rs != [] ==> Lifted(rs)[|rs| - 1].timestamp == Latest(rs))
  {
    if rs != [] {
      var n := |rs| - 1;
      LiftedIs(rs[..n]);
      forall i | 0 <= i < |rs| ensures Lifted(rs)[i] == rs[i].(timestamp := Latest(rs[..i + 1])) {
        if i < n { assert rs[..n][..i + 1] == rs[..i + 1]; } else { assert rs[..i + 1] == rs; }
      }
      forall i, j | 0 <= i < j < |rs| ensures Lifted(rs)[i].timestamp <= Lifted(rs)[j].timestamp {
        if j == n { assert Lifted(rs[..n])[i].timestamp <= Lifted(rs[..n])[n - 1].timestamp == Latest(rs[..n]); }
      }
    }
  }

  /** An event keeps its own time exactly if no earlier one has a later time. */
  lemma KeepsItsTimeIff(rs: seq<Record>, i: nat)
    requires i < |rs|
    ensures Lifted(rs)[i] == rs[i] <==> forall j :: 0 <= j < i ==> rs[j].timestamp <= rs[i].timestamp
  {
    hide Latest, Lifted, InOrder;
    LiftedIs(rs);
    var first := rs[..i + 1];
    LatestIs(first);
    assert forall j :: 0 <= j <= i ==> first[j] == rs[j];
    var k :| 0 <= k < |first| && first[k].timestamp == Latest(first);
    assert first[i].timestamp <= Latest(first);
    assert rs[i].(timestamp := Latest(first)) == rs[i] <==> Latest(first) == rs[i].timestamp;
  }

  /** The same but for the timestamps of the registered values, which are not looked at. */
  ghost predicate Alike(m: Merge, m': Merge) {
    && m'.last == m.last && m'.listed == m.listed && m'.out == m.out && m'.latest.Keys == m.latest.Keys
    && forall c :: c in m.latest ==> m'.latest[c] == m.latest[c].(timestamp := m'.latest[c].timestamp)
  }

  lemma {:induction false} DumpsAlike(listed: seq<nat>, m: Merge, m': Merge, t: nat)
    requires Alike(m, m')
    ensures DumpAll(listed, m'.latest, t) == DumpAll(listed, m.latest, t)
  {
    if listed != [] { DumpsAlike(listed[1..], m, m', t); }
  }

  /** Accepting an event, at its own time or at a time between that and the one being collected. */
  lemma AcceptsAlike(m: Merge, m': Merge, r: Record, t: nat)
    requires Alike(m, m') && t == if m.last.Some? && r.timestamp < m.last.value then m.last.value else r.timestamp
    ensures Alike(Accept(m, r), Accept(m', r.(timestamp := t))) && Accept(m, r).last == Some(t)
  {
    if m.last.Some? { DumpsAlike(m.listed, m, m', m.last.value); }
  }

  lemma {:induction false} LiftedAlike(rs: seq<Record>)
    ensures Alike(AcceptAll(Start(), rs), AcceptAll(Start(), Lifted(rs)))
    ensures AcceptAll(Start(), rs).last == if rs == [] then None else Some(Latest(rs))
  {
    if rs != [] {
      var n := |rs| - 1;
      LiftedAlike(rs[..n]);
      assert Lifted(rs)[..n] == Lifted(rs[..n]);
      AcceptsAlike(AcceptAll(Start(), rs[..n]), AcceptAll(Start(), Lifted(rs[..n])), rs[n], Latest(rs));
    }
  }

  /**
   Main result for events in any order: the file holds exactly what it would hold had every event come
   at the latest time so far. For each trace and each such time that is the last value, and it carries
   the event's own time exactly if no earlier event has a later one.
   */
  lemma EveryEventIsLifted(rs: seq<Record>)
    ensures var out := FlushTraces(AcceptAll(Start(), rs)).out; var lifted := Lifted(rs);
      && OncePerSlot(out)
      && (forall i: nat :: IsLast(lifted, i) ==> AsDump(lifted[i]) in out)
      && (forall d :: d in out ==> exists i: nat :: IsLast(lifted, i) && AsDump(lifted[i]) == d)
    ensures forall i: nat :: i < |rs| ==>
      (Lifted(rs)[i] == rs[i] <==> forall j :: 0 <= j < i ==> rs[j].timestamp <= rs[i].timestamp)
  {
    hide OncePerSlot, IsLast, AcceptAll, Lifted;
    LiftedIs(rs);
    LiftedAlike(rs);
    var m, m' := AcceptAll(Start(), rs), AcceptAll(Start(), Lifted(rs));
    if m.last.Some? { DumpsAlike(m.listed, m, m', m.last.value); }
    LastValueWins(Lifted(rs));
    forall i: nat | i < |rs|
      ensures Lifted(rs)[i] == rs[i] <==> forall j :: 0 <= j < i ==> rs[j].timestamp <= rs[i].timestamp
    {
      KeepsItsTimeIff(rs, i);
    }
  }

  // ---------------------------------------------------------------- the loop

  class Dumper {
    var lastTimestamp: Option<nat>
    var firstTraceToDump: seq<nat>
    var buffers: map<nat, Record>
    var file: seq<Dump>

    ghost function View(): Merge
      reads this
    {
      Merge(lastTimestamp, firstTraceToDump, buffers, file)
    }

    constructor ()
      ensures View() == Start()
    {
      lastTimestamp, firstTraceToDump, buffers, file := None, [], map[], [];
    }

    method FlushEventTraces(timestamp: nat)
      modifies this
      ensures View() == old(View()).(out := old(file) + DumpAll(old(firstTraceToDump), buffers, timestamp),
        listed := [])
    {
      ghost var before := file;
      var rest := firstTraceToDump;
      while rest != []
        invariant lastTimestamp == old(lastTimestamp) && buffers == old(buffers)
        invariant firstTraceToDump == old(firstTraceToDump)
        invariant file + DumpAll(rest, buffers, timestamp) == before + DumpAll(firstTraceToDump, buffers, timestamp)
        decreases |rest|
      {
        if rest[0] in buffers { file := file + [AsDump(buffers[rest[0]]).(timestamp := timestamp)]; }
        rest := rest[1..];
      }
      firstTraceToDump := [];
    }

    /** The part of the loop that handles one unpacked event. */
    method HandleEvent(r: Record)
      modifies this
      ensures View() == Accept(old(View()), r)
    {
      if lastTimestamp.None? { lastTimestamp := Some(r.timestamp); }
      if lastTimestamp.value < r.timestamp {
        FlushEventTraces(lastTimestamp.value);
        lastTimestamp := Some(r.timestamp);
      }
      buffers := buffers[r.trace := r];
      if r.trace !in firstTraceToDump { firstTraceToDump := [r.trace] + firstTraceToDump; }
    }

    /** All events of a buffer, after those of `past`. */
    method HandleBuffer(rs: seq<Record>, ghost past: seq<Record>)
      requires View() == AcceptAll(Start(), past)
      modifies this
      ensures View() == AcceptAll(Start(), past + rs)
    {
      assert past + rs[..0] == past;
      for i := 0 to |rs|
        invariant View() == AcceptAll(Start(), past + rs[..i])
      {
        HandleEvent(rs[i]);
        assert (past + rs[..i + 1])[..|past| + i] == past + rs[..i];
      }
      assert rs[..|rs|] == rs;
    }
  }
}
