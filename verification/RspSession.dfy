/**
 The packet decoder on its ring: characters arrive in the free block, and turns of the decoder take
 them from the front block, which is not all there is when the contents wrap around.
 */
module RspSession {
  import opened RspPacket
  import RingBuffer

  datatype Session = Session(d: Decoder, ring: RingBuffer.State)

  datatype Step = Arrive(bytes: seq<Byte>) | Advance

  predicate CanStep(s: Session, x: Step) {
    RingBuffer.Ok(s.ring) && (x.Arrive? ==> |x.bytes| <= RingBuffer.Room(RingBuffer.Ready(s.ring)))
  }

  function Block(s: Session): seq<Byte>
    requires RingBuffer.Ok(s.ring)
  {
    RingBuffer.Block(s.ring)
  }

  function TurnOf(s: Session): (t: RspPacket.Turn)
    requires RingBuffer.Ok(s.ring)
    ensures t.consumed <= |Block(s)|
  {
    TurnShrinks(s.d, Block(s));
    TakeTurn(s.d, Block(s))
  }

  function Next(s: Session, x: Step): Session
    requires CanStep(s, x)
  {
    match x
    case Arrive(bytes) => s.(ring := RingBuffer.Arrive(s.ring, bytes))
    case Advance => Session(TurnOf(s).d, RingBuffer.Taken(s.ring, TurnOf(s).consumed))
  }

  predicate IsRun(s: Session, steps: seq<Step>)
    decreases |steps|
  {
    steps == [] || (CanStep(s, steps[0]) && IsRun(Next(s, steps[0]), steps[1..]))
  }

  function Run(s: Session, steps: seq<Step>): Session
    requires IsRun(s, steps)
    decreases |steps|
  {
    if steps == [] then s else Run(Next(s, steps[0]), steps[1..])
  }

  /** What the turns of a run report. */
  function Reported(s: Session, steps: seq<Step>): seq<Event>
    requires IsRun(s, steps)
    decreases |steps|
  {
    if steps == [] then []
    else (if steps[0].Advance? then TurnOf(s).events else []) + Reported(Next(s, steps[0]), steps[1..])
  }

  function Start(size: nat): Session
    requires size > 0
  {
    Session(Fresh(LeadIn), RingBuffer.State(seq(size, _ => 0), 0, 0, false))
  }

  lemma StepOk(s: Session, x: Step)
    requires CanStep(s, x)
    ensures RingBuffer.Ok(Next(s, x).ring)
  {
    match x
    case Arrive(bytes) => RingBuffer.ArriveIs(s.ring, bytes);
    case Advance => RingBuffer.TakenIs(s.ring, TurnOf(s).consumed);
  }

  // ---------------------------------------------------------------- waiting for the checksum

  /** Waiting for the checksum, a turn makes progress exactly if two digits are at hand. */
  lemma CrcProgressIff(s: Session)
    requires RingBuffer.Ok(s.ring) && s.d.mode == Crc
    ensures (Next(s, Advance) != s <==> |Block(s)| >= 2) && (TurnOf(s).events != [] <==> |Block(s)| >= 2)
  {
  }

  /** The first digit of the checksum is in the last cell of the ring. */
  predicate Cut(s: Session) {
    RingBuffer.Ok(s.ring) && s.d.mode == Crc && !RingBuffer.Empty(s.ring) && s.ring.head + 1 == |s.ring.buf|
  }

  lemma CutStays(s: Session, x: Step)
    requires Cut(s) && CanStep(s, x)
    ensures Cut(Next(s, x)) && Next(s, x).d == s.d && Block(Next(s, x)) == Block(s) && |Block(s)| == 1
    ensures x.Advance? ==> Next(s, x) == s && TurnOf(s).events == []
  {
    if x.Arrive? { RingBuffer.ArriveIs(s.ring, x.bytes); }
  }

  /** Once cut, the checksum is never read, whatever arrives: no turn takes or reports anything any more. */
  lemma {:induction false} CutForever(s: Session, steps: seq<Step>)
    requires Cut(s) && IsRun(s, steps)
    ensures Cut(Run(s, steps)) && Run(s, steps).d == s.d && Block(Run(s, steps)) == Block(s) && Reported(s, steps) == []
    decreases |steps|
  {
    hide Cut, CanStep, Next, TurnOf, Block;
    if steps != [] {
      CutParts(s);
      CutStays(s, steps[0]);
      CutForever(Next(s, steps[0]), steps[1..]);
    }
  }

  lemma CutParts(s: Session)
    requires Cut(s)
    ensures RingBuffer.Ok(s.ring)
  {
  }

  /** Whatever is still needed of the checksum can arrive. */
  function Missing(s: Session): seq<Byte>
    requires RingBuffer.Ok(s.ring)
  {
    if |Block(s)| >= 2 then [] else seq(2 - |Block(s)|, _ => 0)
  }

  lemma MissingHelps(s: Session)
    requires RingBuffer.Ok(s.ring) && s.d.mode == Crc && !Cut(s) && |s.ring.buf| >= 2
    ensures CanStep(s, Arrive(Missing(s))) && |Block(Next(s, Arrive(Missing(s))))| >= 2
  {
    var r := s.ring;
    RingBuffer.ArriveIs(r, Missing(s));
    RingBuffer.BlockIsPrefix(r);
    RingBuffer.BlockIsPrefix(RingBuffer.Arrive(r, Missing(s)));
  }

  /**
   A checksum that is waited for can still be read, in some continuation, exactly if it is not cut by
   the end of the ring.
   */
  lemma ChecksumComesIff(s: Session)
    requires RingBuffer.Ok(s.ring) && s.d.mode == Crc && |s.ring.buf| >= 2
    ensures (exists steps: seq<Step> :: IsRun(s, steps) && Reported(s, steps) != []) <==> !Cut(s)
  {
    if Cut(s) {
      forall steps: seq<Step> | IsRun(s, steps) ensures Reported(s, steps) == [] { CutForever(s, steps); }
    } else {
      MissingHelps(s);
      var s' := Next(s, Arrive(Missing(s)));
      StepOk(s, Arrive(Missing(s)));
      CrcProgressIff(s');
      TwoSteps(s, Arrive(Missing(s)), Advance);
    }
  }

  lemma TwoSteps(s: Session, x: Step, y: Step)
    requires CanStep(s, x) && CanStep(Next(s, x), y)
    ensures IsRun(s, [x, y]) && Run(s, [x, y]) == Next(Next(s, x), y)
    ensures x.Arrive? && y.Advance? ==> Reported(s, [x, y]) == TurnOf(Next(s, x)).events
  {
    OneStep(s, x, [y]);
    OneStep(Next(s, x), y, []);
    assert [x] + [y] == [x, y] && [y] + [] == [y];
  }

  lemma OneStep(s: Session, x: Step, steps: seq<Step>)
    requires CanStep(s, x)
    ensures IsRun(s, [x] + steps) <==> IsRun(Next(s, x), steps)
    ensures IsRun(Next(s, x), steps) ==> Run(s, [x] + steps) == Run(Next(s, x), steps)
    ensures IsRun(Next(s, x), steps) ==>
      Reported(s, [x] + steps) == (if x.Advance? then TurnOf(s).events else []) + Reported(Next(s, x), steps)
  {
    assert ([x] + steps)[1..] == steps;
  }

  /** Noise, `$#` and one digit, as many characters as the ring holds: the second digit comes around to the start. */
  function FullOf(size: nat): seq<Byte>
    requires size >= 3
  {
    seq(size - 3, _ => 0) + [DOLLAR, HASH, HexDigit(0)]
  }

  function CutRun(size: nat): seq<Step>
    requires size >= 3
  {
    [Arrive(FullOf(size)), Advance, Advance]
  }

  lemma {:induction false} LeadAfterNoise(noise: seq<Byte>, more: seq<Byte>, k: nat)
    requires k <= |noise| && (forall i :: 0 <= i < |noise| ==> noise[i] == 0) && more != [] && more[0] == DOLLAR
    ensures FindLead(noise + more, k) == |noise|
    decreases |noise| - k
  {
    if k < |noise| { LeadAfterNoise(noise, more, k + 1); }
  }

  /** The arrival of the empty packet at the end of a full ring. */
  lemma CutBegins(size: nat)
    requires size >= 3
    ensures CanStep(Start(size), Arrive(FullOf(size)))
    ensures var s := Next(Start(size), Arrive(FullOf(size)));
      s == Session(Fresh(LeadIn), RingBuffer.State(FullOf(size), 0, 0, true)) && Block(s) == FullOf(size)
  {
    var s := Start(size);
    assert s.ring.buf[..0] + FullOf(size) + s.ring.buf[size..] == FullOf(size);
  }

  /** The first turn skips the noise and takes the `$`. */
  lemma CutLead(size: nat)
    requires size >= 3
    ensures var s := Session(Fresh(LeadIn), RingBuffer.State(FullOf(size), 0, 0, true));
      && CanStep(s, Advance)
      && Next(s, Advance) == Session(Fresh(Body), RingBuffer.State(FullOf(size), size - 2, 0, false))
      && TurnOf(s).events == []
  {
    var s := Session(Fresh(LeadIn), RingBuffer.State(FullOf(size), 0, 0, true));
    assert Block(s) == FullOf(size);
    LeadAfterNoise(seq(size - 3, _ => 0), [DOLLAR, HASH, HexDigit(0)], 0);
  }

  /** The second one takes the `#`; one digit is left at hand. */
  lemma CutBody(size: nat)
    requires size >= 3
    ensures var s := Session(Fresh(Body), RingBuffer.State(FullOf(size), size - 2, 0, false));
      CanStep(s, Advance) && Cut(Next(s, Advance)) && TurnOf(s).events == []
  {
    var s := Session(Fresh(Body), RingBuffer.State(FullOf(size), size - 2, 0, false));
    assert Block(s) == [HASH, HexDigit(0)];
    assert FindHash(Block(s), 0, false) == 0;
  }

  /** From the start, in a ring of any size: an arrival that fills the ring can cut a checksum. */
  lemma ChecksumCanBeCut(size: nat)
    requires size >= 3
    ensures IsRun(Start(size), CutRun(size)) && Cut(Run(Start(size), CutRun(size)))
    ensures Reported(Start(size), CutRun(size)) == []
  {
    hide Cut, CanStep, Next, TurnOf, FullOf, Start, IsRun, Run, Reported;
    CutBegins(size);
    CutLead(size);
    CutBody(size);
    var s0 := Start(size);
    var s1 := Next(s0, Arrive(FullOf(size)));
    var s2 := Next(s1, Advance);
    assert [Advance, Advance] == [Advance] + [Advance] && [Advance] == [Advance] + [];
    assert CutRun(size) == [Arrive(FullOf(size))] + [Advance, Advance];
    OneStep(s0, Arrive(FullOf(size)), [Advance, Advance]);
    OneStep(s1, Advance, [Advance]);
    OneStep(s2, Advance, []);
    NoSteps(Next(s2, Advance));
  }

  lemma NoSteps(s: Session)
    ensures IsRun(s, []) && Run(s, []) == s && Reported(s, []) == []
  {
  }

  // ---------------------------------------------------------------- overruns

  /** Some turn of a run overruns the packet buffer. */
  function Overran(s: Session, steps: seq<Step>): bool
    requires IsRun(s, steps)
    decreases |steps|
  {
    steps != [] && ((steps[0].Advance? && TurnOf(s).overrun) || Overran(Next(s, steps[0]), steps[1..]))
  }

  /** At step `i` of the run a turn finds more of the body at hand than the packet buffer has room for. */
  ghost predicate OverrunsAt(s: Session, steps: seq<Step>, i: nat) {
    && i < |steps| && steps[i].Advance? && IsRun(s, steps[..i])
    && RingBuffer.Ok(Run(s, steps[..i]).ring) && Overruns(Run(s, steps[..i]).d, Block(Run(s, steps[..i])))
  }

  lemma OverrunsNow(s: Session, steps: seq<Step>)
    requires IsRun(s, steps) && steps != []
    ensures OverrunsAt(s, steps, 0) <==> steps[0].Advance? && TurnOf(s).overrun
  {
    assert steps[..0] == [];
    TurnOverruns(s.d, Block(s));
  }

  lemma OverrunsLater(s: Session, steps: seq<Step>, i: nat)
    requires IsRun(s, steps) && steps != []
    ensures OverrunsAt(s, steps, i + 1) <==> OverrunsAt(Next(s, steps[0]), steps[1..], i)
  {
    if i + 1 < |steps| {
      assert steps[..i + 1] == [steps[0]] + steps[1..][..i];
      OneStep(s, steps[0], steps[1..][..i]);
    }
  }

  /**
   A run of arrivals and turns overruns the packet buffer exactly if one of its turns finds too much of
   the body at hand.
   */
  lemma {:induction false} RunOverrunsIff(s: Session, steps: seq<Step>)
    requires IsRun(s, steps)
    ensures Overran(s, steps) <==> exists i: nat :: OverrunsAt(s, steps, i)
    decreases |steps|
  {
    hide OverrunsAt, CanStep, TurnOf, Next, Run;
    if steps == [] {
      NoneAtAll(s);
    } else {
      var s', more := Next(s, steps[0]), steps[1..];
      RunOverrunsIff(s', more);
      OverrunsNow(s, steps);
      if i: nat :| OverrunsAt(s', more, i) { OverrunsLater(s, steps, i); }
      if i: nat :| OverrunsAt(s, steps, i) { if i > 0 { OverrunsLater(s, steps, i - 1); } }
    }
  }

  lemma NoneAtAll(s: Session)
    ensures forall i: nat :: !OverrunsAt(s, [], i)
  {
  }

  // ---------------------------------------------------------------- a whole call of the decoder

  /** What a call of the decoder leaves behind. */
  datatype Result = Result(d: Decoder, ring: RingBuffer.State, events: seq<Event>, overrun: bool)

  /** Turns are taken until one says to stop. */
  function DecodeRing(d: Decoder, r: RingBuffer.State): Result
    requires RingBuffer.Ok(r)
    decreases |RingBuffer.Contents(r)|, Rank(d)
  {
    var t := TurnOf(Session(d, r));
    TurnShrinks(d, RingBuffer.Block(r));
    RingBuffer.TakenIs(r, t.consumed);
    var r' := RingBuffer.Taken(r, t.consumed);
    if t.again then
      var o := DecodeRing(t.d, r');
      o.(events := t.events + o.events, overrun := t.overrun || o.overrun)
    else Result(t.d, r', t.events, t.overrun)
  }

  predicate AtHand(r: RingBuffer.State) {
    RingBuffer.Ok(r) && RingBuffer.Block(r) == RingBuffer.Contents(r)
  }

  /** As long as the contents are at hand, this is `Decode` of all of them. */
  lemma {:induction false} DecodeAtHand(d: Decoder, r: RingBuffer.State)
    requires AtHand(r)
    ensures var o := DecodeRing(d, r);
      && AtHand(o.ring) && o.ring.tail == r.tail && |o.ring.buf| == |r.buf|
      && |RingBuffer.Contents(o.ring)| <= |RingBuffer.Contents(r)|
      && Decode(d, RingBuffer.Contents(r)) == Outcome(o.d, RingBuffer.Contents(o.ring), o.events, o.overrun)
    decreases |RingBuffer.Contents(r)|, Rank(d)
  {
    hide TakeTurn, RingBuffer.Contents, RingBuffer.Block, Decode;
    var t := TurnOf(Session(d, r));
    TurnShrinks(d, RingBuffer.Block(r));
    RingBuffer.TakenIs(r, t.consumed);
    if t.again {
      DecodeGoesOn(d, RingBuffer.Contents(r));
      DecodeAtHand(t.d, RingBuffer.Taken(r, t.consumed));
    } else {
      DecodeStops(d, RingBuffer.Contents(r));
    }
  }

  // ---------------------------------------------------------------- a packet through the ring

  /** Portions arrive one after the other, each followed by a call of the decoder. */
  predicate CanReceive(s: Session, portions: seq<seq<Byte>>)
    decreases |portions|
  {
    RingBuffer.Ok(s.ring) &&
    (portions == [] || (CanStep(s, Arrive(portions[0])) && CanReceive(Received(s, portions[0]), portions[1..])))
  }

  function Received(s: Session, bytes: seq<Byte>): Session
    requires CanStep(s, Arrive(bytes))
  {
    RingBuffer.ArriveIs(s.ring, bytes);
    var o := DecodeRing(s.d, RingBuffer.Arrive(s.ring, bytes));
    Session(o.d, o.ring)
  }

  function EventsOf(s: Session, portions: seq<seq<Byte>>): seq<Event>
    requires CanReceive(s, portions)
    decreases |portions|
  {
    if portions == [] then []
    else
      RingBuffer.ArriveIs(s.ring, portions[0]);
      DecodeRing(s.d, RingBuffer.Arrive(s.ring, portions[0])).events + EventsOf(Received(s, portions[0]), portions[1..])
  }

  /** After `k` characters of a packet, none of which has come around to the start of the ring. */
  predicate Through(data: seq<Byte>, k: nat, s: Session) {
    && AtHand(s.ring) && |Encode(data)| <= |s.ring.buf| && StateAt(data, k, s.d, RingBuffer.Contents(s.ring))
    && (RingBuffer.Empty(s.ring) || s.ring.tail <= k)
  }

  lemma ArriveAtHand(r: RingBuffer.State, bytes: seq<Byte>, k: nat)
    requires AtHand(r) && (RingBuffer.Empty(r) || r.head < r.tail <= k) && k + |bytes| <= |r.buf|
    ensures |bytes| <= RingBuffer.Room(RingBuffer.Ready(r))
    ensures var r' := RingBuffer.Arrive(r, bytes);
      AtHand(r') && |r'.buf| == |r.buf|
      && (RingBuffer.Empty(r') || r'.head < r'.tail <= k + |bytes| || (r'.tail == 0 && k + |bytes| == |r.buf|))
      && RingBuffer.Contents(r') == RingBuffer.Contents(r) + bytes
  {
    RingBuffer.ArriveIs(r, bytes);
    RingBuffer.BlockIsPrefix(RingBuffer.Arrive(r, bytes));
  }

  /** Contents at hand before the end of the ring lie in front of the tail. */
  lemma InFront(r: RingBuffer.State)
    requires AtHand(r) && !RingBuffer.Empty(r)
    ensures r.head < r.tail || r.tail == 0
  {
    RingBuffer.BlockIsPrefix(r);
  }

  lemma {:induction false} ThroughFrom(data: seq<Byte>, k: nat, s: Session, portions: seq<seq<Byte>>)
    requires Fits(data) && k <= |Encode(data)| && Through(data, k, s) && Concat(portions) == Encode(data)[k..]
    requires RingBuffer.Empty(s.ring) || s.ring.tail > 0
    ensures CanReceive(s, portions) && EventsOf(s, portions) == if k < |Encode(data)| then [Packet(data)] else []
    decreases |portions|
  {
    hide Encode, Decode, StateAt, Fits, DecodeRing, RingBuffer.Contents, RingBuffer.Block, RingBuffer.Arrive;
    var e := Encode(data);
    if portions == [] {
      assert e[k..] == [];
    } else {
      var p := portions[0];
      var j := k + |p|;
      assert Concat(portions)[..|p|] == p && Concat(portions)[|p|..] == Concat(portions[1..]);
      assert p == e[k..j] && Concat(portions[1..]) == e[j..];
      if !RingBuffer.Empty(s.ring) { InFront(s.ring); }
      ArriveAtHand(s.ring, p, k);
      FeedOne(data, k, j, s.d, RingBuffer.Contents(s.ring));
      var r := RingBuffer.Arrive(s.ring, p);
      DecodeAtHand(s.d, r);
      var s' := Received(s, p);
      LeftBehind(s.d, r);
      EmptyAtEnd(data, j, s');
      ThroughFrom(data, j, s', portions[1..]);
    }
  }

  lemma EmptyAtEnd(data: seq<Byte>, k: nat, s: Session)
    requires RingBuffer.Ok(s.ring) && StateAt(data, k, s.d, RingBuffer.Contents(s.ring))
    ensures k == |Encode(data)| ==> RingBuffer.Empty(s.ring)
  {
    EncodeParts(data);
    RingBuffer.BlockIsPrefix(s.ring);
  }

  /** What a call leaves in the ring lies in front of the same tail. */
  lemma LeftBehind(d: Decoder, r: RingBuffer.State)
    requires AtHand(r)
    ensures var r' := DecodeRing(d, r).ring; RingBuffer.Empty(r') || (!RingBuffer.Empty(r) && r'.tail == r.tail)
  {
    hide DecodeRing, Decode;
    DecodeAtHand(d, r);
    RingBuffer.BlockIsPrefix(r);
    RingBuffer.BlockIsPrefix(DecodeRing(d, r).ring);
  }

  /**
   Main result: in a ring with as many cells as the packet has characters, every payload that fits,
   however its packet is cut into arrivals, is delivered exactly once and unchanged.
   */
  lemma PacketThroughRing(data: seq<Byte>, portions: seq<seq<Byte>>, size: nat)
    requires Fits(data) && Concat(portions) == Encode(data) && |Encode(data)| <= size && size > 0
    ensures CanReceive(Start(size), portions) && EventsOf(Start(size), portions) == [Packet(data)]
  {
    hide Encode;
    EncodeParts(data);
    assert Encode(data)[0..] == Encode(data);
    ThroughFrom(data, 0, Start(size), portions);
  }
}
