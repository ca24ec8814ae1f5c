/**
 The packet codec as the program runs it: loops over buffers changed in place, and a decoder that
 reads from the ring. It does what `RspPacket` says.
 */
module RspCodec {
  import opened RspPacket
  import opened RspSession
  import RingBuffer
  import RspWire

  // ---------------------------------------------------------------- in place

  /** Unescapes a buffer in place and returns the new length. */
  method DeescapeInPlace(buf: array<Byte>, len: nat) returns (cur: nat)
    requires len <= buf.Length
    modifies buf
    ensures cur <= len && buf[..cur] == Deescape(old(buf[..len])).data
    ensures forall k :: len <= k < buf.Length ==> buf[k] == old(buf[k])
  {
    hide Flip;
    ghost var raw := buf[..len];
    var i := 0;
    cur := 0;
    var escaped := false;
    while i < len
      invariant 0 <= cur <= i <= len
      invariant Deescape(raw[..i]) == Plain(buf[..cur], escaped)
      invariant forall k :: i <= k < buf.Length ==> buf[k] == old(buf[k])
    {
      assert raw[..i + 1] == raw[..i] + [raw[i]];
      DeescapeSnoc(raw[..i], raw[i]);
      ghost var done := buf[..cur];
      if escaped {
        escaped := false;
        buf[cur] := Flip(buf[i]);
        assert buf[..cur + 1] == done + [Flip(raw[i])];
        cur := cur + 1;
      } else if buf[i] == BRACE {
        escaped := true;
      } else {
        if i != cur { buf[cur] := buf[i]; }
        assert buf[..cur + 1] == done + [raw[i]];
        cur := cur + 1;
      }
      i := i + 1;
    }
    assert raw[..len] == raw;
  }

  /** Scans for a bare `#`, keeping the escape flag from one block to the next. */
  method ScanForHash(block: seq<Byte>, escaped: bool) returns (cur: nat, escaped': bool)
    ensures cur == FindHash(block, 0, escaped) && escaped' == EscapedAfter(block[..cur], escaped)
  {
    cur, escaped' := 0, escaped;
    while cur < |block| && (escaped' || block[cur] != HASH)
      invariant 0 <= cur <= |block| && escaped' == EscapedAfter(block[..cur], escaped)
      invariant FindHash(block, 0, escaped) == FindHash(block, cur, escaped')
    {
      assert block[..cur + 1] == block[..cur] + [block[cur]];
      EscapedSnoc(block[..cur], block[cur], escaped);
      escaped' := !escaped' && block[cur] == BRACE;
      cur := cur + 1;
    }
  }

  method ChecksumOf(raw: seq<Byte>) returns (crc: seq<Byte>)
    ensures crc == Checksum(raw)
  {
    var sum: nat := 0;
    for i := 0 to |raw|
      invariant sum == Sum(raw[..i])
    {
      assert raw[..i + 1][..i] == raw[..i];
      sum := sum + raw[i] as nat;
    }
    assert raw[..|raw|] == raw;
    var n := sum % 256;
    crc := [HexDigit(n / 16), HexDigit(n % 16)];
  }

  method VerifyChecksum(raw: seq<Byte>, crc: seq<Byte>) returns (ok: bool)
    requires |crc| == 2
    ensures ok <==> crc == Checksum(raw)
    ensures ok <==> RspWire.IsHexPair(crc) && RspWire.HexNumber(crc) == Sum(raw) % 256
  {
    hide RspWire.HexNumber, RspWire.IsHexPair;
    RspWire.ChecksumIff(raw, crc);
    var want := ChecksumOf(raw);
    ok := crc[0] == want[0] && crc[1] == want[1];
  }

  /** The escaped payload is at least as long as the payload and at most twice as long. */
  lemma {:induction false} EscapeLength(data: seq<Byte>)
    ensures |data| <= |Escape(data)| <= 2 * |data|
  {
    if data != [] { EscapeLength(data[..|data| - 1]); }
  }

  lemma {:induction false} EscapePrefix(data: seq<Byte>, i: nat)
    requires i <= |data|
    ensures |Escape(data[..i])| <= |Escape(data)|
    decreases |data|
  {
    if i < |data| {
      EscapePrefix(data[..|data| - 1], i);
      assert data[..|data| - 1][..i] == data[..i];
    } else {
      assert data[..i] == data;
    }
  }

  lemma EscapeNothing(data: seq<Byte>)
    ensures Escape(data[..0]) == []
  {
  }

  lemma EscapeSnoc(data: seq<Byte>, i: nat)
    requires i < |data|
    ensures Escape(data[..i + 1]) == Escape(data[..i]) + EscapeOne(data[i])
  {
    assert data[..i + 1][..i] == data[..i];
  }

  /** Appends the escaped payload to the output buffer. */
  method EscapeInto(data: seq<Byte>, raw: array<Byte>, start: nat) returns (len: nat)
    requires start + |Escape(data)| <= raw.Length
    modifies raw
    ensures len == start + |Escape(data)| && raw[start..len] == Escape(data) && raw[..start] == old(raw[..start])
  {
    hide Flip, Escape;
    len := start;
    EscapeNothing(data);
    for i := 0 to |data|
      invariant len == start + |Escape(data[..i])| <= raw.Length
      invariant raw[..start] == old(raw[..start]) && raw[start..len] == Escape(data[..i])
    {
      EscapeSnoc(data, i);
      EscapePrefix(data, i + 1);
      ghost var done := raw[start..len];
      var c := data[i];
      if Special(c) {
        raw[len] := BRACE;
        raw[len + 1] := Flip(c);
        assert raw[start..len + 2] == done + [BRACE, Flip(c)];
        len := len + 2;
      } else {
        raw[len] := c;
        assert raw[start..len + 1] == done + [c];
        len := len + 1;
      }
    }
    assert data[..|data|] == data;
  }

  /** Builds a packet in the output buffer, which must have room for it. */
  method EncodeInto(data: seq<Byte>, raw: array<Byte>) returns (len: nat)
    requires |Escape(data)| + 4 <= raw.Length
    modifies raw
    ensures len <= raw.Length && raw[..len] == Encode(data)
  {
    hide Checksum, Escape;
    raw[0] := DOLLAR;
    len := EscapeInto(data, raw, 1);
    ghost var body := raw[1..len];
    var crc := ChecksumOf(raw[1..len]);
    assert raw[0] == raw[..1][0];
    raw[len], raw[len + 1], raw[len + 2] := HASH, crc[0], crc[1];
    assert raw[1..len] == body;
    assert raw[..len + 3] == [DOLLAR] + body + [HASH] + crc;
    len := len + 3;
  }

  // ---------------------------------------------------------------- the decoder on the ring

  class Codec {
    var mode: Mode
    const pkt: array<Byte>
    var cur: nat
    var escaped: bool

    ghost predicate Valid()
      reads this
    {
      pkt.Length == MAX && cur <= MAX && (mode == LeadIn ==> cur == 0 && !escaped)
    }

    ghost function View(): Decoder
      reads this, pkt
      requires Valid()
    {
      if mode == Init then Fresh(Init) else Decoder(mode, pkt[..cur], escaped)
    }

    constructor ()
      ensures Valid() && fresh(pkt) && View() == Fresh(LeadIn)
    {
      mode, cur, escaped := LeadIn, 0, false;
      pkt := new Byte[MAX](_ => 0);
    }

    /** Appends to the packet buffer, which must reach far enough. */
    method Append(block: seq<Byte>)
      requires Valid() && mode == Body && cur + |block| <= MAX
      modifies this`cur, pkt
      ensures Valid() && cur == old(cur) + |block| && pkt[..cur] == old(pkt[..cur]) + block
    {
      ghost var before := pkt[..cur];
      for i := 0 to |block|
        invariant cur == old(cur) && pkt[..cur] == before
        invariant pkt[cur..cur + i] == block[..i]
      {
        pkt[cur + i] := block[i];
        assert pkt[cur..cur + i + 1] == block[..i] + [block[i]];
      }
      assert pkt[..cur + |block|] == before + block;
      cur := cur + |block|;
    }

    method FindLeadIn(block: seq<Byte>) returns (k: nat)
      ensures k == FindLead(block, 0)
    {
      k := 0;
      while k < |block| && block[k] != CTRLC && block[k] != PLUS && block[k] != DOLLAR
        invariant 0 <= k <= |block| && FindLead(block, 0) == FindLead(block, k)
      {
        k := k + 1;
      }
    }

    method TurnLeadIn(block: seq<Byte>) returns (consumed: nat, events: seq<Event>, again: bool)
      requires Valid() && mode == LeadIn
      modifies this`mode
      ensures Valid()
      ensures consumed <= |block|
      ensures TakeTurn(old(View()), block) == RspPacket.Turn(View(), consumed, events, again, false)
    {
      consumed, events, again := 0, [], false;
      if |block| > 0 {
        var k := FindLeadIn(block);
        again := true;
        if k == |block| {
          consumed := k;
        } else {
          consumed := k + 1;
          if block[k] == CTRLC {
            events := [CtrlC];
          } else if block[k] == PLUS {
            events := [Ack];
          } else {
            mode := Body;
          }
        }
      }
    }

    /**
     The part of the block that belongs to the body is copied before its length is looked at. Where it
     does not fit, `overrun` says so, and nothing is said about what the copy destroys.
     */
    method TurnBody(block: seq<Byte>) returns (consumed: nat, events: seq<Event>, again: bool, overrun: bool)
      requires Valid() && mode == Body
      modifies this`mode, this`cur, this`escaped, pkt
      ensures Valid() && consumed <= |block| && overrun == TakeTurn(old(View()), block).overrun
      ensures !overrun ==> TakeTurn(old(View()), block) == RspPacket.Turn(View(), consumed, events, again, false)
    {
      hide EscapedAfter;
      consumed, events, again := 0, [], false;
      var k, esc := ScanForHash(block, escaped);
      overrun := cur + k > MAX;
      if overrun { return; }
      Append(block[..k]);
      escaped := esc;
      if k < |block| {
        mode := Crc;
        consumed, again := k + 1, true;
      } else if cur >= MAX {
        mode := Init;
        consumed, events, again := k, [Error], true;
      } else {
        consumed, again := k, |block| > 0;
      }
    }

    method TurnCrc(block: seq<Byte>) returns (consumed: nat, events: seq<Event>)
      requires Valid() && mode == Crc
      modifies this`mode, pkt
      ensures Valid()
      ensures consumed <= |block|
      ensures TakeTurn(old(View()), block) == RspPacket.Turn(View(), consumed, events, false, false)
    {
      hide Checksum;
      consumed, events := 0, [];
      if |block| >= 2 {
        consumed := 2;
        var ok := VerifyChecksum(pkt[..cur], block[..2]);
        if ok {
          var len := DeescapeInPlace(pkt, cur);
          events := [Packet(pkt[..len])];
        } else {
          events := [Error];
        }
        mode := Init;
      }
    }

    /** One turn of the decoder with the block the ring offers. */
    method DecoderTurn(ring: RingBuffer.Ring) returns (events: seq<Event>, again: bool, overrun: bool)
      requires Valid() && ring.Valid() && ring.buf != pkt
      modifies this`mode, this`cur, this`escaped, pkt, ring`head, ring`full
      ensures Valid() && ring.Valid() && overrun == TurnOf(old(Session(View(), ring.View()))).overrun
      ensures !overrun ==>
        && Session(View(), ring.View()) == Next(old(Session(View(), ring.View())), Advance)
        && events == TurnOf(old(Session(View(), ring.View()))).events &&
           again == TurnOf(old(Session(View(), ring.View()))).again
    {
      hide TakeTurn, RingBuffer.Block, RingBuffer.Taken;
      ghost var s := Session(View(), ring.View());
      var at, len := ring.ReadBlock();
      var block := ring.buf[at..at + len];
      var consumed := 0;
      events, again, overrun := [], false, false;
      match mode {
        case Init =>
          InitTurn(View(), block);
          mode, cur, escaped, again := LeadIn, 0, false, true;
        case LeadIn => consumed, events, again := TurnLeadIn(block);
        case Body => consumed, events, again, overrun := TurnBody(block);
        case Crc => consumed, events := TurnCrc(block);
      }
      RingBuffer.TakenIs(ring.View(), consumed);
      ring.CommitRead(consumed);
    }

    lemma InitTurn(d: Decoder, block: seq<Byte>)
      requires d.mode == Init
      ensures TakeTurn(d, block) == RspPacket.Turn(Fresh(LeadIn), 0, [], true, false)
    {
    }

    /** Turns are taken until one says to stop, or runs over the packet buffer. */
    method DecodeAll(ring: RingBuffer.Ring) returns (events: seq<Event>, overrun: bool)
      requires Valid() && ring.Valid() && ring.buf != pkt
      modifies this`mode, this`cur, this`escaped, pkt, ring`head, ring`full
      ensures Valid() && ring.Valid() && overrun == DecodeRing(old(View()), old(ring.View())).overrun
      ensures !overrun ==> DecodeRing(old(View()), old(ring.View())) == Result(View(), ring.View(), events, false)
    {
      hide TakeTurn, DecodeRing, RingBuffer.Contents;
      events, overrun := [], false;
      ghost var o := DecodeRing(View(), ring.View());
      assert [] + o.events == o.events;
      var again := true;
      while again && !overrun
        invariant Valid() && ring.Valid()
        invariant overrun ==> o.overrun
        invariant again && !overrun ==>
          var o' := DecodeRing(View(), ring.View()); o == o'.(events := events + o'.events)
        invariant !again && !overrun ==> o == Result(View(), ring.View(), events, false)
        decreases !overrun, again, |RingBuffer.Contents(ring.View())|, Rank(View())
      {
        ghost var d, r, so := View(), ring.View(), events;
        TurnShrinks(d, RingBuffer.Block(r));
        RingBuffer.TakenIs(r, TurnOf(Session(d, r)).consumed);
        OneMoreTurn(d, r);
        var more;
        more, again, overrun := DecoderTurn(ring);
        events := events + more;
        if again && !overrun {
          ghost var o' := DecodeRing(View(), ring.View());
          assert (so + more) + o'.events == so + (more + o'.events);
        }
      }
    }

    lemma OneMoreTurn(d: Decoder, r: RingBuffer.State)
      requires RingBuffer.Ok(r)
      ensures var t := TurnOf(Session(d, r)); var r' := RingBuffer.Taken(r, t.consumed);
        && RingBuffer.Ok(r') && (t.overrun ==> DecodeRing(d, r).overrun)
        && (!t.again ==> DecodeRing(d, r) == Result(t.d, r', t.events, t.overrun))
        && (t.again ==> var o := DecodeRing(t.d, r');
            DecodeRing(d, r) == o.(events := t.events + o.events, overrun := t.overrun || o.overrun))
    {
      RingBuffer.TakenIs(r, TurnOf(Session(d, r)).consumed);
    }
  }
}
