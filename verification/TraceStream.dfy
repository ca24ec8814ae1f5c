/**
 The hand-off of event buffers between the engine's thread and the dumping thread, as atomic steps
 at the mutex, for any number and size of buffers.
 */
module TraceStream {
  import opened Sequences
  import opened Wrappers
  import opened TraceCodec

  /**
   `free`, `ready`, `current` and `busy` are the places a buffer can be in. `held` remembers which
   events were packed into each buffer, `packed` and `unpacked` all events so far. `overrun` tells
   that something was written past a buffer.
   */
  datatype Engine = Engine(
    mem: seq<seq<Byte>>, free: seq<nat>, current: Option<nat>, size: nat, ready: seq<nat>, busy: Option<nat>,
    held: seq<seq<Record>>, packed: seq<Record>, unpacked: seq<Record>, overrun: bool)

  function Start(count: nat, bytes: nat): Engine {
    Engine(seq(count, _ => Repeat(0, bytes)), seq(count, i => i), None, 0, [], None, seq(count, _ => []), [], [], false)
  }

  datatype Step =
    | HandOff(bytes: nat)   // no room for an event of that size: the current buffer becomes ready
    | Acquire               // a free buffer becomes the current one
    | Write(r: Record)      // an event is packed into the current buffer
    | Flush                 // the current buffer becomes ready although there is room
    | Take                  // the dumping thread pops a ready buffer
    | Return                // it has unpacked all its events and gives it back

  function Poke(buf: seq<Byte>, off: nat, bytes: seq<Byte>): seq<Byte> {
    if off + |bytes| <= |buf| then buf[..off] + bytes + buf[off + |bytes|..] else buf
  }

  function Room(s: Engine): int {
    if s.current.Some? && s.current.value < |s.mem| then |s.mem[s.current.value]| - s.size else 0
  }

  predicate CanStep(s: Engine, x: Step, kinds: Kinds) {
    match x
    case HandOff(bytes) => s.current.Some? && s.current.value < |s.mem| && bytes > Room(s)
    case Acquire => s.current.None? && s.free != []
    case Write(r) =>
      s.current.Some? && s.current.value < |s.mem| == |s.held| && Packable(r, kinds) && |Pack(r, kinds)| <= Room(s)
    case Flush => s.size > 0 && s.current.Some? && s.current.value < |s.mem|
    case Take => s.busy.None? && s.ready != []
    case Return => s.busy.Some? && s.busy.value < |s.mem|
  }

  function Next(s: Engine, x: Step, kinds: Kinds): Engine
    requires CanStep(s, x, kinds)
  {
    match x
    case HandOff(_) =>
      var c := s.current.value;
      var mem := if Room(s) > PTR_BYTES then s.mem[c := Poke(s.mem[c], s.size, Little(0, PTR_BYTES))] else s.mem;
      s.(mem := mem, ready := s.ready + [c], current := None)
    case Acquire => s.(current := Some(s.free[0]), free := s.free[1..], size := 0,
                       held := if s.free[0] < |s.held| then s.held[s.free[0] := []] else s.held)
    case Write(r) =>
      var c := s.current.value;
      s.(mem := s.mem[c := Poke(s.mem[c], s.size, Pack(r, kinds))], size := s.size + |Pack(r, kinds)|,
         held := s.held[c := s.held[c] + [r]], packed := s.packed + [r])
    case Flush =>
      var c := s.current.value;
      s.(mem := s.mem[c := Poke(s.mem[c], s.size, Little(0, PTR_BYTES))], ready := s.ready + [c], current := None,
         overrun := s.overrun || s.size + PTR_BYTES > |s.mem[c]|)
    case Take => s.(busy := Some(s.ready[0]), ready := s.ready[1..])
    case Return =>
      var b := s.busy.value;
      match UnpackFrom(s.mem[b], 0, kinds)
      case None => s.(busy := None, free := s.free + [b], overrun := true)
      case Some(rs) => s.(busy := None, free := s.free + [b], unpacked := s.unpacked + rs)
  }

  // ---------------------------------------------------------------- the invariant

  function Ids(o: Option<nat>): seq<nat> {
    match o case None => [] case Some(b) => [b]
  }

  /** All places a buffer can be in, one after the other. */
  function Places(s: Engine): multiset<nat> {
    multiset(s.free) + multiset(s.ready) + multiset(Ids(s.current)) + multiset(Ids(s.busy))
  }

  ghost predicate Shape(s: Engine, bytes: nat) {
    && |s.held| == |s.mem| && (forall b :: 0 <= b < |s.mem| ==> |s.mem[b]| == bytes)
    && (forall b :: b in s.free || b in s.ready || b in Ids(s.current) || b in Ids(s.busy) ==> b < |s.mem|)
  }

  ghost predicate EachOnce(s: Engine) {
    forall b: nat :: Places(s)[b] == if b < |s.mem| then 1 else 0
  }

  /** A buffer that waits for the dumping thread, or is with it, holds its events and is closed behind them. */
  predicate Sealed(s: Engine, b: nat, kinds: Kinds) {
    && b < |s.mem| == |s.held| && AllPackable(s.held[b], kinds) && Holds(s.mem[b], s.held[b], kinds)
    && Closed(s.mem[b], |PackAll(s.held[b], kinds)|)
  }

  predicate Open(s: Engine, b: nat, kinds: Kinds) {
    && b < |s.mem| == |s.held| && AllPackable(s.held[b], kinds) && Holds(s.mem[b], s.held[b], kinds)
    && s.size == |PackAll(s.held[b], kinds)|
  }

  /** The events of a row of buffers, in order. */
  function Events(held: seq<seq<Record>>, row: seq<nat>): seq<Record> {
    if row == [] then []
    else Events(held, row[..|row| - 1]) + (var b := row[|row| - 1]; if b < |held| then held[b] else [])
  }

  /** The buffers on their way, oldest first. */
  function Under(s: Engine): seq<nat> {
    Ids(s.busy) + s.ready + Ids(s.current)
  }

  ghost predicate Inv(s: Engine, bytes: nat, kinds: Kinds) {
    && !s.overrun && Shape(s, bytes) && EachOnce(s)
    && (forall b :: b in s.ready || b in Ids(s.busy) ==> Sealed(s, b, kinds))
    && (forall b :: b in Ids(s.current) ==> Open(s, b, kinds))
    && s.packed == s.unpacked + Events(s.held, Under(s))
  }

  lemma StartInv(count: nat, bytes: nat, kinds: Kinds)
    ensures Inv(Start(count, bytes), bytes, kinds)
  {
    var s := Start(count, bytes);
    forall b: nat ensures Places(s)[b] == if b < |s.mem| then 1 else 0 { Counting(count, b); }
  }

  lemma {:induction false} Counting(count: nat, b: nat)
    ensures multiset(seq(count, i => i))[b] == if b < count then 1 else 0
  {
    if count > 0 {
      Counting(count - 1, b);
      assert seq(count, i => i) == seq(count - 1, i => i) + [count - 1];
    }
  }

  // ---- facts about places and rows

  /** A buffer that is in one place is in no other, and only once there. */
  lemma OnePlace(s: Engine, b: nat)
    requires EachOnce(s)
    ensures b in s.free ==> b !in s.ready && b !in Ids(s.current) && b !in Ids(s.busy)
    ensures b in s.ready ==> b !in Ids(s.current) && b !in Ids(s.busy)
    ensures b in Ids(s.current) ==> b !in Ids(s.busy)
    ensures s.free != [] && s.free[0] == b ==> b !in s.free[1..]
    ensures s.ready != [] && s.ready[0] == b ==> b !in s.ready[1..]
  {
    assert Places(s)[b] <= 1;
    if s.free != [] { assert s.free == [s.free[0]] + s.free[1..]; }
    if s.ready != [] { assert s.ready == [s.ready[0]] + s.ready[1..]; }
  }

  lemma {:induction false} EventsSplit(held: seq<seq<Record>>, a: seq<nat>, b: seq<nat>)
    ensures Events(held, a + b) == Events(held, a) + Events(held, b)
  {
    if b == [] {
      assert a + b == a;
    } else {
      var n := |b| - 1;
      EventsSplit(held, a, b[..n]);
      assert (a + b)[..|a + b| - 1] == a + b[..n];
    }
  }

  lemma {:induction false} EventsElsewhere(held: seq<seq<Record>>, row: seq<nat>, b: nat, rs: seq<Record>)
    requires b < |held| && b !in row
    ensures Events(held[b := rs], row) == Events(held, row)
  {
    if row != [] {
      var n := |row| - 1;
      assert row[n] in row;
      EventsElsewhere(held, row[..n], b, rs);
    }
  }

  lemma EventsOne(held: seq<seq<Record>>, b: nat)
    requires b < |held|
    ensures Events(held, [b]) == held[b]
  {
    assert [b][..0] == [];
  }

  // ---- writing into a buffer

  lemma PokeKeeps(buf: seq<Byte>, off: nat, bytes: seq<Byte>)
    requires off + |bytes| <= |buf|
    ensures |Poke(buf, off, bytes)| == |buf| && Poke(buf, off, bytes)[..off] == buf[..off]
    ensures Poke(buf, off, bytes)[off..off + |bytes|] == bytes
    ensures Poke(buf, off, bytes)[..off + |bytes|] == buf[..off] + bytes
  {
  }

  lemma NullIsZero()
    ensures FromLittle(Little(0, PTR_BYTES)) == 0 && |Little(0, PTR_BYTES)| == PTR_BYTES
  {
    LittleRoundTrip(0, PTR_BYTES);
  }

  /** Writing the null pointer, where there is room for it, closes a buffer and keeps its events. */
  lemma TerminatorCloses(buf: seq<Byte>, rs: seq<Record>, size: nat, kinds: Kinds)
    requires Holds(buf, rs, kinds) && size == |PackAll(rs, kinds)| && size + PTR_BYTES <= |buf|
    ensures var buf' := Poke(buf, size, Little(0, PTR_BYTES));
      Holds(buf', rs, kinds) && Closed(buf', size) && |buf'| == |buf|
  {
    hide PackAll, Little, FromLittle;
    NullIsZero();
    PokeKeeps(buf, size, Little(0, PTR_BYTES));
  }

  lemma AppendHolds(buf: seq<Byte>, rs: seq<Record>, size: nat, r: Record, kinds: Kinds)
    requires AllPackable(rs, kinds) && Packable(r, kinds)
    requires Holds(buf, rs, kinds) && size == |PackAll(rs, kinds)| && size + |Pack(r, kinds)| <= |buf|
    ensures var buf' := Poke(buf, size, Pack(r, kinds));
      |buf'| == |buf| && Holds(buf', rs + [r], kinds) && |PackAll(rs + [r], kinds)| == size + |Pack(r, kinds)|
      && AllPackable(rs + [r], kinds)
  {
    hide Pack, Packable;
    PokeKeeps(buf, size, Pack(r, kinds));
    assert (rs + [r])[..|rs|] == rs;
  }

  // ---- every step keeps the invariant

  lemma SealPlaces(s: Engine, s': Engine, c: nat)
    requires EachOnce(s) && s.current == Some(c) && |s'.mem| == |s.mem|
    requires s'.free == s.free && s'.busy == s.busy && s'.current == None && s'.ready == s.ready + [c]
    ensures EachOnce(s') && Under(s') == Under(s)
  {
    forall b: nat ensures Places(s')[b] == if b < |s'.mem| then 1 else 0 {
      assert Places(s)[b] == if b < |s.mem| then 1 else 0;
    }
  }

  lemma Seals(s: Engine, bytes: nat, kinds: Kinds, buf: seq<Byte>)
    requires Inv(s, bytes, kinds) && s.current.Some? && |buf| == bytes
    requires var c := s.current.value;
      c < |s.mem| && Holds(buf, s.held[c], kinds) && Closed(buf, |PackAll(s.held[c], kinds)|)
    ensures var c := s.current.value;
      Inv(s.(mem := s.mem[c := buf], ready := s.ready + [c], current := None), bytes, kinds)
  {
    hide Holds, Closed, AllPackable, PackAll, Events;
    var c := s.current.value;
    var s' := s.(mem := s.mem[c := buf], ready := s.ready + [c], current := None);
    SealPlaces(s, s', c);
    forall b | b in s'.ready || b in Ids(s'.busy) ensures Sealed(s', b, kinds) {
      OnePlace(s, c);
      if b == c { assert Open(s, c, kinds); } else { assert Sealed(s, b, kinds); }
    }
  }

  lemma HandOffInv(s: Engine, bytes: nat, kinds: Kinds, n: nat)
    requires Inv(s, bytes, kinds) && CanStep(s, HandOff(n), kinds)
    ensures Inv(Next(s, HandOff(n), kinds), bytes, kinds)
  {
    hide Holds, Closed, AllPackable, PackAll, Events, Poke, FromLittle, Little, Pack;
    var c := s.current.value;
    assert Open(s, c, kinds);
    if Room(s) > PTR_BYTES {
      TerminatorCloses(s.mem[c], s.held[c], s.size, kinds);
      Seals(s, bytes, kinds, Poke(s.mem[c], s.size, Little(0, PTR_BYTES)));
    } else {
      ClosedByRoom(s.mem[c], s.size, s.held[c], kinds);
      Seals(s, bytes, kinds, s.mem[c]);
      assert s.mem[c := s.mem[c]] == s.mem;
    }
  }

  lemma ClosedByRoom(buf: seq<Byte>, size: nat, rs: seq<Record>, kinds: Kinds)
    requires Holds(buf, rs, kinds) && size == |PackAll(rs, kinds)| && |buf| - size <= PTR_BYTES
    ensures Closed(buf, size)
  {
  }

  /** Flushing is harmless exactly if the buffer still has room for the null pointer. */
  lemma FlushInvIff(s: Engine, bytes: nat, kinds: Kinds)
    requires Inv(s, bytes, kinds) && CanStep(s, Flush, kinds)
    ensures Inv(Next(s, Flush, kinds), bytes, kinds) <==> s.size + PTR_BYTES <= bytes
  {
    hide Holds, Closed, AllPackable, PackAll, Events, Poke, FromLittle, Little, Pack;
    var c := s.current.value;
    assert Open(s, c, kinds);
    if s.size + PTR_BYTES <= bytes {
      TerminatorCloses(s.mem[c], s.held[c], s.size, kinds);
      Seals(s, bytes, kinds, Poke(s.mem[c], s.size, Little(0, PTR_BYTES)));
    }
  }

  lemma AcquirePlaces(s: Engine, s': Engine)
    requires EachOnce(s) && s.free != [] && s.current == None && |s'.mem| == |s.mem|
    requires s'.ready == s.ready && s'.busy == s.busy && s'.free == s.free[1..] && s'.current == Some(s.free[0])
    ensures EachOnce(s') && Under(s') == Under(s) + [s.free[0]] && s.free[0] !in Under(s)
    ensures forall b :: b in s'.free ==> b in s.free
  {
    HeadOff(s.free);
    OnePlace(s, s.free[0]);
    assert Places(s') == Places(s);
  }

  lemma HeadOff(q: seq<nat>)
    requires q != []
    ensures q == [q[0]] + q[1..] && multiset(q) == multiset(q[1..]) + multiset([q[0]])
  {
    assert q == [q[0]] + q[1..];
  }

  lemma AcquireInv(s: Engine, bytes: nat, kinds: Kinds)
    requires Inv(s, bytes, kinds) && CanStep(s, Acquire, kinds)
    ensures Inv(Next(s, Acquire, kinds), bytes, kinds)
  {
    hide Holds, Closed, AllPackable, Events, EachOnce, Under;
    var b0 := s.free[0];
    var s' := Next(s, Acquire, kinds);
    AcquirePlaces(s, s');
    assert b0 in s.free;
    OpenEmpty(s'.mem[b0], kinds);
    forall b | b in s'.ready || b in Ids(s'.busy) ensures Sealed(s', b, kinds) {
      UnderHas(s, b);
      assert Sealed(s, b, kinds);
    }
    EventsElsewhere(s.held, Under(s), b0, []);
    EventsSplit(s'.held, Under(s), [b0]);
    EventsOne(s'.held, b0);
  }

  lemma UnderHas(s: Engine, b: nat)
    ensures b in s.ready || b in Ids(s.busy) ==> b in Under(s)
  {
  }

  lemma OpenEmpty(buf: seq<Byte>, kinds: Kinds)
    ensures AllPackable([], kinds) && Holds(buf, [], kinds) && |PackAll([], kinds)| == 0
  {
  }

  lemma WriteInv(s: Engine, bytes: nat, kinds: Kinds, r: Record)
    requires Inv(s, bytes, kinds) && CanStep(s, Write(r), kinds)
    ensures Inv(Next(s, Write(r), kinds), bytes, kinds)
  {
    hide Holds, Closed, AllPackable, PackAll, Events, Poke, Pack, Packable, Under;
    var c := s.current.value;
    var s' := Next(s, Write(r), kinds);
    assert Open(s, c, kinds);
    AppendHolds(s.mem[c], s.held[c], s.size, r, kinds);
    OnePlace(s, c);
    WriteEvents(s, r, c, s');
    assert Places(s') == Places(s);
    hide Places, PackAll, Next;
    forall b | b in s'.ready || b in Ids(s'.busy) ensures Sealed(s', b, kinds) { SealedElsewhere(s, s', c, b, kinds); }
  }

  lemma SealedElsewhere(s: Engine, s': Engine, c: nat, b: nat, kinds: Kinds)
    requires Sealed(s, b, kinds) && b != c < |s.mem| == |s.held| == |s'.mem| == |s'.held|
    requires s'.mem == s.mem[c := s'.mem[c]] && s'.held == s.held[c := s'.held[c]]
    ensures Sealed(s', b, kinds)
  {
    hide Holds, Closed, AllPackable, PackAll;
  }

  /** The event written is the last of those under way. */
  lemma WriteEvents(s: Engine, r: Record, c: nat, s': Engine)
    requires c < |s.held| && c !in s.ready && c !in Ids(s.busy) && s.current == Some(c)
    requires s'.held == s.held[c := s.held[c] + [r]]
    requires s'.ready == s.ready && s'.busy == s.busy && s'.current == s.current
    ensures s.unpacked + Events(s'.held, Under(s')) == (s.unpacked + Events(s.held, Under(s))) + [r]
  {
    hide Events;
    var row := Ids(s.busy) + s.ready;
    EventsSplit(s.held, row, [c]);
    EventsSplit(s'.held, row, [c]);
    EventsOne(s.held, c);
    EventsOne(s'.held, c);
    EventsElsewhere(s.held, row, c, s.held[c] + [r]);
    Regroup(s.unpacked, Events(s.held, row), s.held[c], r);
  }

  lemma Regroup(a: seq<Record>, b: seq<Record>, c: seq<Record>, r: Record)
    ensures (a + (b + c)) + [r] == a + (b + (c + [r]))
  {
  }

  /** Buffers that only change places keep their events. */
  lemma SealedStill(s: Engine, s': Engine, b: nat, kinds: Kinds)
    requires s'.mem == s.mem && s'.held == s.held && s'.size == s.size
    ensures Sealed(s', b, kinds) == Sealed(s, b, kinds) && Open(s', b, kinds) == Open(s, b, kinds)
  {
    hide Holds, Closed, AllPackable, PackAll;
  }

  lemma TakePlaces(s: Engine, s': Engine)
    requires EachOnce(s) && s.ready != [] && s.busy == None && s'.mem == s.mem
    requires s'.free == s.free && s'.current == s.current && s'.ready == s.ready[1..] && s'.busy == Some(s.ready[0])
    ensures EachOnce(s') && Under(s') == Under(s) && forall b :: b in s'.ready || b in Ids(s'.busy) ==> b in s.ready
  {
    HeadOff(s.ready);
    hide Under;
    assert Places(s') == Places(s);
    TakeUnder(s, s');
  }

  lemma TakeUnder(s: Engine, s': Engine)
    requires s.ready != [] && s.busy == None
    requires s'.current == s.current && s'.ready == s.ready[1..] && s'.busy == Some(s.ready[0])
    ensures Under(s') == Under(s)
  {
    assert s.ready == [s.ready[0]] + s.ready[1..];
  }

  lemma ReturnPlaces(s: Engine, s': Engine)
    requires EachOnce(s) && s.busy.Some? && s'.mem == s.mem
    requires s'.free == s.free + [s.busy.value] && s'.current == s.current && s'.ready == s.ready && s'.busy == None
    ensures EachOnce(s') && Under(s) == [s.busy.value] + Under(s')
  {
    assert Places(s') == Places(s);
  }

  lemma TakeInv(s: Engine, bytes: nat, kinds: Kinds)
    requires Inv(s, bytes, kinds) && CanStep(s, Take, kinds)
    ensures Inv(Next(s, Take, kinds), bytes, kinds)
  {
    hide Sealed, Open, EachOnce, Events, Under;
    var s' := Next(s, Take, kinds);
    TakePlaces(s, s');
    assert Shape(s', bytes);
    forall b | b in s'.ready || b in Ids(s'.busy)
      ensures Sealed(s', b, kinds) { assert b in s.ready; SealedStill(s, s', b, kinds); }
    forall b | b in Ids(s'.current) ensures Open(s', b, kinds) { SealedStill(s, s', b, kinds); }
  }

  lemma ReturnGives(s: Engine, bytes: nat, kinds: Kinds)
    requires Inv(s, bytes, kinds) && CanStep(s, Return, kinds)
    ensures s.busy.value < |s.held| == |s.mem|
    ensures UnpackFrom(s.mem[s.busy.value], 0, kinds) == Some(s.held[s.busy.value])
  {
    hide Holds, Closed, AllPackable, PackAll, Events, UnpackFrom;
    var b0 := s.busy.value;
    assert Sealed(s, b0, kinds);
    BufferRoundTrip(s.mem[b0], s.held[b0], kinds);
  }

  lemma ReturnInv(s: Engine, bytes: nat, kinds: Kinds)
    requires Inv(s, bytes, kinds) && CanStep(s, Return, kinds)
    ensures Inv(Next(s, Return, kinds), bytes, kinds)
  {
    hide Sealed, Open, EachOnce, Events, Under, UnpackFrom;
    ReturnGives(s, bytes, kinds);
    var b0 := s.busy.value;
    var s' := Next(s, Return, kinds);
    ReturnPlaces(s, s');
    forall b | b in s'.ready || b in Ids(s'.busy) ensures Sealed(s', b, kinds) { SealedStill(s, s', b, kinds); }
    forall b | b in Ids(s'.current) ensures Open(s', b, kinds) { SealedStill(s, s', b, kinds); }
    EventsSplit(s.held, [b0], Under(s'));
    EventsOne(s.held, b0);
    Associate(s.unpacked, s.held[b0], Events(s.held, Under(s')));
  }

  // ---------------------------------------------------------------- every run

  /** A flush that leaves room for the null pointer. */
  predicate Safe(s: Engine, x: Step, bytes: nat) {
    x.Flush? ==> s.size + PTR_BYTES <= bytes
  }

  predicate IsRun(s: Engine, steps: seq<Step>, bytes: nat, kinds: Kinds)
    decreases |steps|
  {
    steps == [] ||
    (CanStep(s, steps[0], kinds) && Safe(s, steps[0], bytes) &&
      IsRun(Next(s, steps[0], kinds), steps[1..], bytes, kinds))
  }

  function Run(s: Engine, steps: seq<Step>, bytes: nat, kinds: Kinds): Engine
    requires IsRun(s, steps, bytes, kinds)
    decreases |steps|
  {
    if steps == [] then s else Run(Next(s, steps[0], kinds), steps[1..], bytes, kinds)
  }

  lemma StepInv(s: Engine, x: Step, bytes: nat, kinds: Kinds)
    requires Inv(s, bytes, kinds) && CanStep(s, x, kinds) && Safe(s, x, bytes)
    ensures Inv(Next(s, x, kinds), bytes, kinds)
  {
    hide Inv, Next, CanStep;
    match x
    case HandOff(n) => HandOffInv(s, bytes, kinds, n);
    case Acquire => AcquireInv(s, bytes, kinds);
    case Write(r) => WriteInv(s, bytes, kinds, r);
    case Flush => FlushInvIff(s, bytes, kinds);
    case Take => TakeInv(s, bytes, kinds);
    case Return => ReturnInv(s, bytes, kinds);
  }

  lemma {:induction false} RunInv(s: Engine, steps: seq<Step>, bytes: nat, kinds: Kinds)
    requires Inv(s, bytes, kinds) && IsRun(s, steps, bytes, kinds)
    ensures Inv(Run(s, steps, bytes, kinds), bytes, kinds)
    decreases |steps|
  {
    hide Inv, Next, CanStep;
    if steps != [] {
      StepInv(s, steps[0], bytes, kinds);
      RunInv(Next(s, steps[0], kinds), steps[1..], bytes, kinds);
    }
  }

  /**
   Main result: in every interleaving of the two threads, whatever the number and size of the
   buffers, the events unpacked so far are the first of those packed, in order; none is missing once
   no buffer is on its way; every buffer is in exactly one place; nothing is read or written past one.
   */
  lemma NothingIsLost(count: nat, bytes: nat, steps: seq<Step>, kinds: Kinds)
    requires IsRun(Start(count, bytes), steps, bytes, kinds)
    ensures var s := Run(Start(count, bytes), steps, bytes, kinds);
      && s.unpacked <= s.packed && !s.overrun && EachOnce(s)
      && (s.ready == [] && s.busy.None? && s.current.None? ==> s.unpacked == s.packed)
  {
    StartInv(count, bytes, kinds);
    RunInv(Start(count, bytes), steps, bytes, kinds);
  }

  /** The producer never waits for ever: when it has no buffer, either one is free or the dumping thread has work. */
  lemma NobodyStarves(s: Engine, bytes: nat, kinds: Kinds)
    requires Inv(s, bytes, kinds) && |s.mem| > 0 && s.current.None?
    ensures CanStep(s, Acquire, kinds) || CanStep(s, Take, kinds) || CanStep(s, Return, kinds)
  {
    assert Places(s)[0] == 1;
    if s.busy.Some? { assert s.busy.value in Ids(s.busy); }
  }

  /** A buffer taken fresh has room for every event that fits a buffer at all, so one hand-off is enough. */
  lemma FreshHasRoom(s: Engine, bytes: nat, kinds: Kinds, r: Record)
    requires Inv(s, bytes, kinds) && CanStep(s, Acquire, kinds) && Packable(r, kinds) && |Pack(r, kinds)| <= bytes
    ensures CanStep(Next(s, Acquire, kinds), Write(r), kinds)
  {
    hide Pack;
    AcquireInv(s, bytes, kinds);
    assert s.free[0] in s.free;
  }

  /**
   From the start: an event that leaves fewer than eight bytes of its buffer, and then a flush, writes
   past the buffer.
   */
  lemma FlushCanOverrun(count: nat, bytes: nat, kinds: Kinds, r: Record)
    requires count > 0 && Packable(r, kinds) && |Pack(r, kinds)| <= bytes < |Pack(r, kinds)| + PTR_BYTES
    ensures IsRun(Start(count, bytes), [Acquire, Write(r)], bytes, kinds)
    ensures var s := Run(Start(count, bytes), [Acquire, Write(r)], bytes, kinds);
      CanStep(s, Flush, kinds) && Next(s, Flush, kinds).overrun
  {
    hide Pack, Packable, Little;
    PackIsLong(r, kinds);
    assert |Little(0, PTR_BYTES)| == PTR_BYTES;
    assert [Acquire, Write(r)][1..] == [Write(r)] && [Write(r)][1..] == [];
    var s0 := Start(count, bytes);
    var s1 := Next(s0, Acquire, kinds);
    var s2 := Next(s1, Write(r), kinds);
    assert IsRun(s2, [], bytes, kinds) && IsRun(s1, [Write(r)], bytes, kinds);
    assert Run(s1, [Write(r)], bytes, kinds) == s2;
  }

  lemma PackIsLong(r: Record, kinds: Kinds)
    ensures |Pack(r, kinds)| > 0
  {
  }
}
