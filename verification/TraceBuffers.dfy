/**
 The buffer hand-off as the program does it, on byte arrays. Each method is one atomic step of
 `TraceStream`; a wait on the condition variable is a precondition.
 */
module TraceBuffers {
  import opened Wrappers
  import opened TraceCodec
  import TraceStream

  class EventBuffers {
    const mem: array2<Byte>
    var eventBuffers: seq<nat>
    var readyEventBuffers: seq<nat>
    var currentBuffer: Option<nat>
    var currentBufferSize: nat
    var busy: Option<nat>
    var overrun: bool
    ghost var held: seq<seq<Record>>
    ghost var packed: seq<Record>
    var unpacked: seq<Record>

    function Row(b: nat): (r: seq<Byte>)
      reads mem
      requires b < mem.Length0
      ensures |r| == mem.Length1 && forall j :: 0 <= j < mem.Length1 ==> r[j] == mem[b, j]
    {
      seq(mem.Length1, j requires 0 <= j < mem.Length1 reads mem => mem[b, j])
    }

    ghost function Rows(): (r: seq<seq<Byte>>)
      reads mem
      ensures |r| == mem.Length0 && forall b :: 0 <= b < mem.Length0 ==> r[b] == Row(b)
    {
      seq(mem.Length0, b requires 0 <= b < mem.Length0 reads mem => Row(b))
    }

    ghost function View(): TraceStream.Engine
      reads this, mem
    {
      TraceStream.Engine(Rows(), eventBuffers, currentBuffer, currentBufferSize, readyEventBuffers, busy, held, packed,
                         unpacked, overrun)
    }

    constructor (count: nat, bytes: nat)
      ensures fresh(mem) && View() == TraceStream.Start(count, bytes)
    {
      mem := new Byte[count, bytes]((_, _) => 0);
      eventBuffers, readyEventBuffers, currentBuffer, currentBufferSize := seq(count, i => i), [], None, 0;
      busy, overrun, packed, unpacked := None, false, [], [];
      held := seq(count, _ => []);
      new;
      assert Rows() == TraceStream.Start(count, bytes).mem by {
        forall b | 0 <= b < count ensures Row(b) == Repeat(0, bytes) {}
      }
    }

    /** Writes bytes into one buffer. */
    method Write(b: nat, off: nat, bytes: seq<Byte>)
      requires b < mem.Length0 && off + |bytes| <= mem.Length1
      modifies mem
      ensures Rows() == old(Rows())[b := TraceStream.Poke(old(Row(b)), off, bytes)]
    {
      for i := 0 to |bytes|
        invariant forall c, j :: 0 <= c < mem.Length0 && 0 <= j < mem.Length1 ==>
          mem[c, j] == if c == b && off <= j < off + i then bytes[j - off] else old(mem[c, j])
      {
        mem[b, off + i] := bytes[i];
      }
      var want := TraceStream.Poke(old(Row(b)), off, bytes);
      assert Row(b) == want;
      forall c | 0 <= c < mem.Length0 && c != b ensures Row(c) == old(Row(c)) {}
    }

    /** The first half of `get_event_buffer`: the current buffer has no room left. */
    method HandOff(bytes: nat, kinds: Kinds)
      requires TraceStream.CanStep(View(), TraceStream.HandOff(bytes), kinds)
      modifies this`readyEventBuffers, this`currentBuffer, mem
      ensures View() == TraceStream.Next(old(View()), TraceStream.HandOff(bytes), kinds)
    {
      hide TraceStream.Poke, Little, FromLittle, Pack, UnpackFrom;
      assert |Rows()[currentBuffer.value]| == mem.Length1;
      if mem.Length1 - currentBufferSize > PTR_BYTES {
        Write(currentBuffer.value, currentBufferSize, Little(0, PTR_BYTES));
      }
      readyEventBuffers := readyEventBuffers + [currentBuffer.value];
      currentBuffer := None;
    }

    /** The second half: once a buffer is free it becomes the current one. */
    method Acquire(kinds: Kinds)
      requires TraceStream.CanStep(View(), TraceStream.Acquire, kinds)
      modifies this`eventBuffers, this`currentBuffer, this`currentBufferSize, this`held
      ensures View() == TraceStream.Next(old(View()), TraceStream.Acquire, kinds)
    {
      ghost var b := eventBuffers[0];
      currentBuffer := Some(eventBuffers[0]);
      eventBuffers := eventBuffers[1..];
      currentBufferSize := 0;
      if b < |held| { held := held[b := []]; }
    }

    /** `dump_event_to_buffer`, once there is a current buffer with room. */
    method DumpEventToBuffer(r: Record, kinds: Kinds)
      requires TraceStream.CanStep(View(), TraceStream.Write(r), kinds)
      modifies this`currentBufferSize, this`held, this`packed, mem
      ensures View() == TraceStream.Next(old(View()), TraceStream.Write(r), kinds)
    {
      hide TraceStream.Poke, Little, FromLittle, UnpackFrom, Packable;
      ghost var c := currentBuffer.value;
      assert |Rows()[c]| == mem.Length1;
      var bytes := PackBytes(r, kinds);
      Write(currentBuffer.value, currentBufferSize, bytes);
      currentBufferSize := currentBufferSize + |bytes|;
      held := held[c := held[c] + [r]];
      packed := packed + [r];
    }

    /** The bytes of an event, field by field. */
    method PackBytes(r: Record, kinds: Kinds) returns (bytes: seq<Byte>)
      ensures bytes == Pack(r, kinds)
    {
      bytes := Little(r.trace + 1, PTR_BYTES) + [if r.none then 1 else 0];
      if r.none { bytes := bytes + Repeat(255, |r.data|); }
      bytes := bytes + Little(r.timestamp, 8);
      if kinds(r.trace).isString { bytes := bytes + Little(|r.data|, 4); }
      bytes := bytes + if r.none then Repeat(0, |r.data|) else r.data;
    }

    method Flush(kinds: Kinds)
      requires TraceStream.CanStep(View(), TraceStream.Flush, kinds)
      modifies this`readyEventBuffers, this`currentBuffer, this`overrun, mem
      ensures View() == TraceStream.Next(old(View()), TraceStream.Flush, kinds)
    {
      hide Little, FromLittle, Pack, UnpackFrom;
      assert |Rows()[currentBuffer.value]| == mem.Length1;
      assert |Little(0, PTR_BYTES)| == PTR_BYTES;
      if currentBufferSize + PTR_BYTES <= mem.Length1 {
        Write(currentBuffer.value, currentBufferSize, Little(0, PTR_BYTES));
      } else {
        overrun := true;
        assert Rows()[currentBuffer.value := Rows()[currentBuffer.value]] == Rows();
      }
      readyEventBuffers := readyEventBuffers + [currentBuffer.value];
      currentBuffer := None;
    }

    /** The dumping thread pops the first ready buffer. */
    method Take(kinds: Kinds)
      requires TraceStream.CanStep(View(), TraceStream.Take, kinds)
      modifies this`readyEventBuffers, this`busy
      ensures View() == TraceStream.Next(old(View()), TraceStream.Take, kinds)
    {
      busy := Some(readyEventBuffers[0]);
      readyEventBuffers := readyEventBuffers[1..];
    }

    lemma NextInside(buf: seq<Byte>, off: nat, kinds: Kinds)
      ensures UnpackOne(buf, off, kinds).Event? ==> UnpackOne(buf, off, kinds).next <= |buf|
    {
    }

    /** It unpacks the events one after the other. */
    method Unpack(b: nat, kinds: Kinds) returns (events: Option<seq<Record>>)
      requires b < mem.Length0
      ensures events == UnpackFrom(Row(b), 0, kinds)
    {
      hide UnpackOne;
      var buf := Row(b);
      var off := 0;
      var rs := [];
      ghost var all := UnpackFrom(buf, 0, kinds);
      assert all.Some? ==> [] + all.value == all.value;
      while true
        invariant off <= |buf|
        invariant UnpackFrom(buf, 0, kinds) ==
          match UnpackFrom(buf, off, kinds) case None => None case Some(rest) => Some(rs + rest)
        decreases |buf| - off
      {
        match UnpackOne(buf, off, kinds) {
          case End =>
            assert rs + [] == rs;
            return Some(rs);
          case Beyond => return None;
          case Event(r, next) =>
            if next <= off { return None; }
            NextInside(buf, off, kinds);
            ghost var rest := UnpackFrom(buf, next, kinds);
            assert rest.Some? ==> rs + ([r] + rest.value) == (rs + [r]) + rest.value;
            rs := rs + [r];
            off := next;
        }
      }
    }

    /** And gives the buffer back. */
    method Return(kinds: Kinds)
      requires TraceStream.CanStep(View(), TraceStream.Return, kinds)
      modifies this`eventBuffers, this`busy, this`overrun, this`unpacked
      ensures View() == TraceStream.Next(old(View()), TraceStream.Return, kinds)
    {
      hide UnpackFrom;
      var b := busy.value;
      var events := Unpack(b, kinds);
      match events {
        case None => overrun := true;
        case Some(rs) => unpacked := unpacked + rs;
      }
      busy := None;
      eventBuffers := eventBuffers + [b];
    }
  }
}
