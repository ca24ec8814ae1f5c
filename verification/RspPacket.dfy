/**
 The remote serial protocol's packets (GDB manual, Appendix E.1): `$`, the payload with four
 characters escaped, `#`, and two hexadecimal digits of checksum. Run-length encoding is not used.
 */
module RspPacket {

  type Byte = bv8

  const DOLLAR: Byte := 0x24
  const HASH: Byte := 0x23
  const PERCENT: Byte := 0x25
  const BRACE: Byte := 0x7d
  const STAR: Byte := 0x2a
  const PLUS: Byte := 0x2b
  const CTRLC: Byte := 0x03

  /** RSP_PACKET_MAX_LEN */
  const MAX: int := 16384

  // ---------------------------------------------------------------- escaping

  predicate Special(b: Byte) {
    b == HASH || b == PERCENT || b == BRACE || b == STAR
  }

  /** The bit that tells an escaped character from itself. */
  function Flip(b: Byte): Byte {
    b ^ 0x20
  }

  function EscapeOne(b: Byte): seq<Byte> {
    if Special(b) then [BRACE, Flip(b)] else [b]
  }

  function Escape(data: seq<Byte>): seq<Byte> {
    if data == [] then [] else Escape(data[..|data| - 1]) + EscapeOne(data[|data| - 1])
  }

  /** What unescaping has produced so far, and whether the last byte was an escape. */
  datatype Plain = Plain(data: seq<Byte>, escaped: bool)

  function Deescape(raw: seq<Byte>): Plain {
    if raw == [] then Plain([], false)
    else
      var p := Deescape(raw[..|raw| - 1]);
      var b := raw[|raw| - 1];
      if p.escaped then Plain(p.data + [Flip(b)], false)
      else if b == BRACE then Plain(p.data, true)
      else Plain(p.data + [b], false)
  }

  /** Whether the next byte is escaped, after these. */
  function EscapedAfter(raw: seq<Byte>, escaped: bool): bool {
    if raw == [] then escaped
    else !EscapedAfter(raw[..|raw| - 1], escaped) && raw[|raw| - 1] == BRACE
  }

  /** No `#` stands unescaped. */
  predicate HashFree(raw: seq<Byte>, escaped: bool) {
    forall k :: 0 <= k < |raw| && raw[k] == HASH ==> EscapedAfter(raw[..k], escaped)
  }

  lemma DeescapeSnoc(raw: seq<Byte>, b: Byte)
    ensures var p := Deescape(raw);
      Deescape(raw + [b]) ==
      if p.escaped then Plain(p.data + [Flip(b)], false)
      else if b == BRACE then Plain(p.data, true)
      else Plain(p.data + [b], false)
  {
    assert (raw + [b])[..|raw|] == raw;
  }

  lemma EscapedSnoc(raw: seq<Byte>, b: Byte, escaped: bool)
    ensures EscapedAfter(raw + [b], escaped) == (!EscapedAfter(raw, escaped) && b == BRACE)
  {
    assert (raw + [b])[..|raw|] == raw;
  }

  lemma FlipTwice(b: Byte)
    ensures Flip(Flip(b)) == b
    ensures if Special(b) then Flip(b) != HASH else b != BRACE && b != HASH
  {
  }

  /** Unescaping undoes escaping. */
  lemma {:induction false} EscapeRoundTrip(data: seq<Byte>)
    ensures Deescape(Escape(data)) == Plain(data, false)
  {
    hide Flip, Special;
    if data != [] {
      var n := |data| - 1;
      EscapeRoundTrip(data[..n]);
      var raw, b := Escape(data[..n]), data[n];
      FlipTwice(b);
      if Special(b) {
        DeescapeSnoc(raw, BRACE);
        DeescapeSnoc(raw + [BRACE], Flip(b));
        assert raw + [BRACE, Flip(b)] == (raw + [BRACE]) + [Flip(b)];
      } else {
        DeescapeSnoc(raw, b);
      }
      assert data == data[..n] + [b];
    }
  }

  lemma HashFreeSnoc(raw: seq<Byte>, b: Byte, escaped: bool)
    requires HashFree(raw, escaped) && (b == HASH ==> EscapedAfter(raw, escaped))
    ensures HashFree(raw + [b], escaped)
  {
    var whole := raw + [b];
    forall k | 0 <= k < |whole| && whole[k] == HASH ensures EscapedAfter(whole[..k], escaped) {
      assert whole[..k] == if k < |raw| then raw[..k] else raw;
    }
  }

  /** Escaped payloads contain no bare `#` and do not end in an escape. */
  lemma {:induction false} EscapeIsHashFree(data: seq<Byte>)
    ensures HashFree(Escape(data), false) && !EscapedAfter(Escape(data), false)
  {
    if data != [] {
      var n := |data| - 1;
      EscapeIsHashFree(data[..n]);
      var raw, b := Escape(data[..n]), data[n];
      FlipTwice(b);
      if Special(b) {
        HashFreeSnoc(raw, BRACE, false);
        EscapedSnoc(raw, BRACE, false);
        HashFreeSnoc(raw + [BRACE], Flip(b), false);
        EscapedSnoc(raw + [BRACE], Flip(b), false);
        assert raw + [BRACE, Flip(b)] == (raw + [BRACE]) + [Flip(b)];
      } else {
        HashFreeSnoc(raw, b, false);
        EscapedSnoc(raw, b, false);
      }
    }
  }

  // ---------------------------------------------------------------- checksum

  function Sum(raw: seq<Byte>): nat {
    if raw == [] then 0 else Sum(raw[..|raw| - 1]) + raw[|raw| - 1] as nat
  }

  function HexDigit(n: nat): Byte
    requires n < 16
  {
    if n < 10 then (0x30 + n) as Byte else (0x57 + n) as Byte
  }

  function Checksum(raw: seq<Byte>): (r: seq<Byte>)
    ensures |r| == 2
  {
    var n := Sum(raw) % 256;
    [HexDigit(n / 16), HexDigit(n % 16)]
  }

  /** The bytes of a packet. */
  function Encode(data: seq<Byte>): seq<Byte> {
    [DOLLAR] + Escape(data) + [HASH] + Checksum(Escape(data))
  }

  // ---------------------------------------------------------------- the decoder

  datatype Mode = Init | LeadIn | Body | Crc

  datatype Event = Packet(data: seq<Byte>) | Error | Ack | CtrlC

  /** `pkt` is the body received so far, `escaped` whether it ends in an escape. */
  datatype Decoder = Decoder(mode: Mode, pkt: seq<Byte>, escaped: bool)

  /**
   One turn: what is consumed of the bytes at hand, what is reported, and whether to go on. `overrun`
   tells that the body was copied past the end of the packet buffer.
   */
  datatype Turn = Turn(d: Decoder, consumed: nat, events: seq<Event>, again: bool, overrun: bool)

  function Fresh(mode: Mode): Decoder {
    Decoder(mode, [], false)
  }

  /** The position of the first byte the lead-in reacts to. */
  function FindLead(block: seq<Byte>, k: nat): (r: nat)
    requires k <= |block|
    ensures k <= r <= |block|
    decreases |block| - k
  {
    if k == |block| || block[k] == CTRLC || block[k] == PLUS || block[k] == DOLLAR then k else FindLead(block, k + 1)
  }

  /** The position of the first unescaped `#`. */
  function FindHash(block: seq<Byte>, k: nat, escaped: bool): (r: nat)
    requires k <= |block|
    ensures k <= r <= |block|
    decreases |block| - k
  {
    if k == |block| || (!escaped && block[k] == HASH) then k
    else FindHash(block, k + 1, !escaped && block[k] == BRACE)
  }

  function TakeTurn(d: Decoder, block: seq<Byte>): Turn {
    match d.mode
    case Init => Turn(Fresh(LeadIn), 0, [], true, false)
    case LeadIn =>
      if block == [] then Turn(d, 0, [], false, false)
      else
        var k := FindLead(block, 0);
        if k == |block| then Turn(d, k, [], true, false)
        else if block[k] == CTRLC then Turn(d, k + 1, [CtrlC], true, false)
        else if block[k] == PLUS then Turn(d, k + 1, [Ack], true, false)
        else Turn(d.(mode := Body), k + 1, [], true, false)
    case Body =>
      var k := FindHash(block, 0, d.escaped);
      var d' := d.(pkt := d.pkt + block[..k], escaped := EscapedAfter(block[..k], d.escaped));
      var overrun := |d'.pkt| > MAX;
      if k < |block| then Turn(d'.(mode := Crc), k + 1, [], true, overrun)
      else if |d'.pkt| >= MAX then Turn(Fresh(Init), k, [Error], true, overrun)
      else Turn(d', k, [], block != [], overrun)
    case Crc =>
      if |block| < 2 then Turn(d, 0, [], false, false)
      else if block[..2] == Checksum(d.pkt) then Turn(Fresh(Init), 2, [Packet(Deescape(d.pkt).data)], false, false)
      else Turn(Fresh(Init), 2, [Error], false, false)
  }

  /** What a call of the decoder leaves behind. */
  datatype Outcome = Outcome(d: Decoder, rest: seq<Byte>, events: seq<Event>, overrun: bool)

  function Rank(d: Decoder): nat {
    match d.mode case Body => 2 case Init => 1 case LeadIn => 0 case Crc => 0
  }

  lemma TurnShrinks(d: Decoder, block: seq<Byte>)
    ensures var t := TakeTurn(d, block);
      t.consumed <= |block| && (t.again ==> t.consumed > 0 || Rank(t.d) < Rank(d))
  {
  }

  /** Turns are taken until one says to stop. The bytes at hand are contiguous. */
  function Decode(d: Decoder, bytes: seq<Byte>): Outcome
    decreases |bytes|, Rank(d)
  {
    TurnShrinks(d, bytes);
    var t := TakeTurn(d, bytes);
    var rest := bytes[t.consumed..];
    if t.again then
      var o := Decode(t.d, rest);
      o.(events := t.events + o.events, overrun := t.overrun || o.overrun)
    else Outcome(t.d, rest, t.events, t.overrun)
  }

  /** Bytes arrive in portions; each is decoded together with what was left before. */
  function Feed(d: Decoder, rest: seq<Byte>, portions: seq<seq<Byte>>): Outcome
    decreases |portions|
  {
    if portions == [] then Outcome(d, rest, [], false)
    else
      var o := Decode(d, rest + portions[0]);
      var o' := Feed(o.d, o.rest, portions[1..]);
      o'.(events := o.events + o'.events, overrun := o.overrun || o'.overrun)
  }

  // ---------------------------------------------------------------- scanning

  lemma EscapedCons(b: Byte, raw: seq<Byte>, escaped: bool)
    ensures EscapedAfter([b] + raw, escaped) == EscapedAfter(raw, !escaped && b == BRACE)
    decreases |raw|
  {
    if raw == [] {
      assert ([b] + raw)[..0] == [];
    } else {
      EscapedCons(b, raw[..|raw| - 1], escaped);
      assert ([b] + raw)[..|raw|] == [b] + raw[..|raw| - 1];
    }
  }

  lemma {:induction false} EscapedSplit(a: seq<Byte>, b: seq<Byte>, escaped: bool)
    ensures EscapedAfter(a + b, escaped) == EscapedAfter(b, EscapedAfter(a, escaped))
  {
    if b == [] {
      assert a + b == a;
    } else {
      var n := |b| - 1;
      EscapedSplit(a, b[..n], escaped);
      assert (a + b)[..|a| + n] == a + b[..n];
    }
  }

  /** Scanning text without a bare `#` runs to its end; a bare `#` behind it is found. */
  lemma {:induction false} FindHashIs(raw: seq<Byte>, more: seq<Byte>, k: nat, escaped: bool)
    requires k <= |raw| && HashFree(raw, escaped)
    requires more != [] ==> more[0] == HASH && !EscapedAfter(raw, escaped)
    ensures FindHash(raw + more, k, EscapedAfter(raw[..k], escaped)) == |raw|
    decreases |raw| - k
  {
    if k < |raw| {
      EscapedSnoc(raw[..k], raw[k], escaped);
      assert raw[..k + 1] == raw[..k] + [raw[k]];
      FindHashIs(raw, more, k + 1, escaped);
    } else {
      assert raw[..k] == raw;
    }
  }

  lemma HashFreeSlice(raw: seq<Byte>, i: nat, j: nat)
    requires HashFree(raw, false) && i <= j <= |raw|
    ensures HashFree(raw[i..j], EscapedAfter(raw[..i], false))
    ensures EscapedAfter(raw[i..j], EscapedAfter(raw[..i], false)) == EscapedAfter(raw[..j], false)
  {
    var e := EscapedAfter(raw[..i], false);
    forall k | 0 <= k < j - i && raw[i..j][k] == HASH ensures EscapedAfter(raw[i..j][..k], e) {
      assert raw[..i + k] == raw[..i] + raw[i..j][..k];
      EscapedSplit(raw[..i], raw[i..j][..k], false);
    }
    assert raw[..j] == raw[..i] + raw[i..j];
    EscapedSplit(raw[..i], raw[i..j], false);
  }

  // ---------------------------------------------------------------- the round trip

  /** The payload fits the buffers: its packet has room in the encoder's. */
  predicate Fits(data: seq<Byte>) {
    |Escape(data)| + 4 <= MAX
  }

  /** What the decoder knows after the first `k` bytes of a packet. */
  predicate StateAt(data: seq<Byte>, k: nat, d: Decoder, rest: seq<Byte>) {
    var body := Escape(data);
    var n := |body|;
    if k == 0 || k == n + 4 then (d.mode == Init || d == Fresh(LeadIn)) && rest == []
    else if k <= n + 1 then d == Decoder(Body, body[..k - 1], EscapedAfter(body[..k - 1], false)) && rest == []
    else if k == n + 2 then d.mode == Crc && d.pkt == body && rest == []
    else k == n + 3 && d.mode == Crc && d.pkt == body && rest == Checksum(body)[..1]
  }

  lemma EncodeParts(data: seq<Byte>)
    ensures var e := Encode(data); var n := |Escape(data)|;
      |e| == n + 4 && e[0] == DOLLAR && e[n + 1] == HASH && e[1..n + 1] == Escape(data) &&
        e[n + 2..] == Checksum(Escape(data))
  {
  }

  lemma DecodeStops(d: Decoder, bytes: seq<Byte>)
    requires !TakeTurn(d, bytes).again
    ensures TakeTurn(d, bytes).consumed <= |bytes|
    ensures var t := TakeTurn(d, bytes); Decode(d, bytes) == Outcome(t.d, bytes[t.consumed..], t.events, t.overrun)
  {
    TurnShrinks(d, bytes);
  }

  lemma DecodeGoesOn(d: Decoder, bytes: seq<Byte>)
    requires TakeTurn(d, bytes).again
    ensures TakeTurn(d, bytes).consumed <= |bytes|
    ensures var t := TakeTurn(d, bytes); var o := Decode(t.d, bytes[t.consumed..]);
      Decode(d, bytes) == o.(events := t.events + o.events, overrun := t.overrun || o.overrun)
  {
    TurnShrinks(d, bytes);
  }

  /** The checksum's digits: nothing happens before both are there, then the packet is delivered. */
  lemma DecodeCrc(data: seq<Byte>, d: Decoder, bytes: seq<Byte>)
    requires d.mode == Crc && d.pkt == Escape(data) && |bytes| <= 2 && bytes == Checksum(Escape(data))[..|bytes|]
    ensures var o := Decode(d, bytes);
      !o.overrun && StateAt(data, |Escape(data)| + 2 + |bytes|, o.d, o.rest)
      && o.events == if |bytes| == 2 then [Packet(data)] else []
  {
    hide Escape, Checksum, Deescape;
    EscapeRoundTrip(data);
    DecodeStops(d, bytes);
    if |bytes| == 2 {
      assert bytes[..2] == bytes && bytes[2..] == [];
    } else {
      assert bytes[0..] == bytes;
    }
  }

  /** A body with nothing at hand waits. */
  lemma DecodeNothing(d: Decoder)
    requires d.mode == Body && |d.pkt| < MAX
    ensures Decode(d, []) == Outcome(d, [], [], false)
  {
    assert TakeTurn(d, []) == Turn(d, 0, [], false, false) by {
      assert d.pkt + [][..0] == d.pkt;
    }
    DecodeStops(d, []);
  }

  /** Part of the body, from its byte `i` to its byte `j`. */
  lemma DecodePart(data: seq<Byte>, i: nat, j: nat)
    requires Fits(data) && i <= j <= |Escape(data)|
    ensures var body := Escape(data);
      Decode(Decoder(Body, body[..i], EscapedAfter(body[..i], false)), body[i..j])
      == Outcome(Decoder(Body, body[..j], EscapedAfter(body[..j], false)), [], [], false)
  {
    hide Escape, FindHash, EscapedAfter, Decode, HashFree;
    var body := Escape(data);
    var block := body[i..j];
    var e := EscapedAfter(body[..i], false);
    var d, d' := Decoder(Body, body[..i], e), Decoder(Body, body[..j], EscapedAfter(body[..j], false));
    EscapeIsHashFree(data);
    HashFreeSlice(body, i, j);
    FindHashStart(block, [], e);
    assert block + [] == block && block[..|block|] == block && body[..i] + block == body[..j] && block[|block|..] == [];
    if block == [] {
      DecodeNothing(d);
    } else {
      DecodeGoesOn(d, block);
      DecodeNothing(d');
    }
  }

  lemma FindHashStart(raw: seq<Byte>, more: seq<Byte>, escaped: bool)
    requires HashFree(raw, escaped)
    requires more != [] ==> more[0] == HASH && !EscapedAfter(raw, escaped)
    ensures FindHash(raw + more, 0, escaped) == |raw|
  {
    assert raw[..0] == [];
    FindHashIs(raw, more, 0, escaped);
  }

  /** The rest of the body, the `#` and what there is of the checksum. */
  lemma DecodeTail(data: seq<Byte>, i: nat, crc: seq<Byte>)
    requires Fits(data) && i <= |Escape(data)| && |crc| <= 2 && crc == Checksum(Escape(data))[..|crc|]
    ensures var body := Escape(data);
      var o := Decode(Decoder(Body, body[..i], EscapedAfter(body[..i], false)), body[i..] + ([HASH] + crc));
      !o.overrun && StateAt(data, |body| + 2 + |crc|, o.d, o.rest)
      && o.events == if |crc| == 2 then [Packet(data)] else []
  {
    hide Escape, FindHash, EscapedAfter, Decode, HashFree, Checksum;
    var body := Escape(data);
    var n := |body|;
    var e := EscapedAfter(body[..i], false);
    var d := Decoder(Body, body[..i], e);
    var bytes := body[i..] + ([HASH] + crc);
    EscapeIsHashFree(data);
    HashFreeSlice(body, i, n);
    assert body[..n] == body && body[i..n] == body[i..];
    FindHashStart(body[i..], [HASH] + crc, e);
    assert bytes[..n - i] == body[i..] && body[..i] + body[i..] == body && bytes[n - i + 1..] == crc;
    DecodeGoesOn(d, bytes);
    DecodeCrc(data, Decoder(Crc, body, false), crc);
    assert TakeTurn(d, bytes).d == Decoder(Crc, body, false);
  }

  lemma DecodeIdle(d: Decoder)
    requires d.mode == Init || d == Fresh(LeadIn)
    ensures Decode(d, []) == Outcome(Fresh(LeadIn), [], [], false)
  {
    hide Decode;
    DecodeStops(Fresh(LeadIn), []);
    if d.mode == Init { DecodeGoesOn(d, []); }
  }

  /** The `$` that opens a packet. */
  lemma DecodeLead(d: Decoder, more: seq<Byte>)
    requires d.mode == Init || d == Fresh(LeadIn)
    ensures Decode(d, [DOLLAR] + more) == Decode(Fresh(Body), more)
  {
    hide Decode;
    var bytes := [DOLLAR] + more;
    assert bytes[1..] == more && bytes[0..] == bytes;
    assert TakeTurn(Fresh(LeadIn), bytes) == Turn(Fresh(Body), 1, [], true, false);
    DecodeGoesOn(Fresh(LeadIn), bytes);
    var o := Decode(Fresh(Body), more);
    assert [] + o.events == o.events;
    if d.mode == Init {
      DecodeGoesOn(d, bytes);
      var o' := Decode(Fresh(LeadIn), bytes);
      assert [] + o'.events == o'.events;
    }
  }

  /** From inside the body, or right before it, on to byte `j` of the packet. */
  lemma FeedBody(data: seq<Byte>, i: nat, j: nat)
    requires Fits(data) && i <= |Escape(data)| && i + 1 <= j <= |Encode(data)|
    ensures var body := Escape(data);
      var o := Decode(Decoder(Body, body[..i], EscapedAfter(body[..i], false)), Encode(data)[i + 1..j]);
      !o.overrun && StateAt(data, j, o.d, o.rest) && o.events == if j == |Encode(data)| then [Packet(data)] else []
  {
    hide Escape, EscapedAfter, Decode, Checksum;
    EncodeParts(data);
    var (e, body) := (Encode(data), Escape(data));
    var n := |body|;
    if j <= n + 1 {
      assert e[i + 1..j] == body[i..j - 1];
      DecodePart(data, i, j - 1);
    } else {
      var crc := Checksum(body)[..j - n - 2];
      assert e[i + 1..j] == body[i..] + ([HASH] + crc);
      DecodeTail(data, i, crc);
    }
  }

  /** One portion: from after `k` bytes of the packet to after `j`. */
  lemma FeedOne(data: seq<Byte>, k: nat, j: nat, d: Decoder, rest: seq<Byte>)
    requires Fits(data) && k <= j <= |Encode(data)| && StateAt(data, k, d, rest)
    ensures var o := Decode(d, rest + Encode(data)[k..j]);
      !o.overrun && StateAt(data, j, o.d, o.rest)
      && o.events == if k < j == |Encode(data)| then [Packet(data)] else []
  {
    hide Escape, EscapedAfter, Decode, Checksum;
    EncodeParts(data);
    var (e, body) := (Encode(data), Escape(data));
    var n := |body|;
    if j == k && (k == 0 || k == n + 4) {
      assert rest + e[k..j] == [];
      DecodeIdle(d);
    } else if k == 0 {
      assert rest + e[0..j] == [DOLLAR] + e[1..j];
      DecodeLead(d, e[1..j]);
      Prefix(body);
      FeedBody(data, 0, j);
    } else if k <= n + 1 {
      assert rest + e[k..j] == e[k..j];
      FeedBody(data, k - 1, j);
    } else {
      var bytes := Checksum(body)[..j - n - 2];
      assert rest + e[k..j] == bytes;
      DecodeCrc(data, d, bytes);
    }
  }

  lemma Prefix(body: seq<Byte>)
    ensures Decoder(Body, body[..0], EscapedAfter(body[..0], false)) == Fresh(Body)
  {
  }

  function Concat(portions: seq<seq<Byte>>): seq<Byte> {
    if portions == [] then [] else portions[0] + Concat(portions[1..])
  }

  lemma {:induction false} FeedFrom(data: seq<Byte>, k: nat, d: Decoder, rest: seq<Byte>, portions: seq<seq<Byte>>)
    requires Fits(data) && k <= |Encode(data)| && StateAt(data, k, d, rest) && Concat(portions) == Encode(data)[k..]
    ensures var o := Feed(d, rest, portions);
      !o.overrun && StateAt(data, |Encode(data)|, o.d, o.rest)
      && o.events == if k < |Encode(data)| then [Packet(data)] else []
    decreases |portions|
  {
    hide Encode, Decode, StateAt, Fits;
    var e := Encode(data);
    if portions == [] {
      assert e[k..] == [];
    } else {
      var j := k + |portions[0]|;
      assert Concat(portions)[..|portions[0]|] == portions[0] &&
        Concat(portions)[|portions[0]|..] == Concat(portions[1..]);
      assert portions[0] == e[k..j] && Concat(portions[1..]) == e[j..];
      FeedOne(data, k, j, d, rest);
      var o := Decode(d, rest + portions[0]);
      FeedFrom(data, j, o.d, o.rest, portions[1..]);
    }
  }

  /**
   Main result: every payload that fits, however its packet is cut into arrivals, is delivered exactly
   once and unchanged, and nothing else is reported.
   */
  lemma PacketRoundTrip(data: seq<Byte>, portions: seq<seq<Byte>>)
    requires Fits(data) && Concat(portions) == Encode(data)
    ensures var o := Feed(Fresh(LeadIn), [], portions); o.events == [Packet(data)] && o.rest == [] && !o.overrun
  {
    EncodeParts(data);
    assert Encode(data)[0..] == Encode(data);
    FeedFrom(data, 0, Fresh(LeadIn), [], portions);
  }

  /** A packet whose checksum does not match is reported as an error, whatever it carries. */
  lemma BadChecksumIsError(data: seq<Byte>, crc: seq<Byte>)
    requires Fits(data) && |crc| == 2
    ensures var o := Decode(Fresh(LeadIn), [DOLLAR] + (Escape(data) + ([HASH] + crc)));
      && o.events == (if crc == Checksum(Escape(data)) then [Packet(data)] else [Error])
      && o.d == Fresh(Init) && o.rest == [] && !o.overrun
  {
    hide Escape, FindHash, EscapedAfter, Decode, HashFree, Checksum, Deescape;
    var body := Escape(data);
    var bytes := body + ([HASH] + crc);
    DecodeLead(Fresh(LeadIn), bytes);
    EscapeIsHashFree(data);
    FindHashStart(body, [HASH] + crc, false);
    assert bytes[..|body|] == body && bytes[|body| + 1..] == crc && [] + body == body;
    EscapeRoundTrip(data);
    DecodeGoesOn(Fresh(Body), bytes);
    var d := Decoder(Crc, body, EscapedAfter(body, false));
    assert crc[..2] == crc && crc[2..] == [];
    DecodeStops(d, crc);
  }

  /** Decoding stops behind a packet: what follows it in the same arrival waits for the next one. */
  lemma NextPacketWaits(data: seq<Byte>, more: seq<Byte>)
    requires Fits(data)
    ensures Decode(Fresh(LeadIn), Encode(data) + more).events == [Packet(data)]
    ensures Decode(Fresh(LeadIn), Encode(data) + more).rest == more
  {
    hide Escape, FindHash, EscapedAfter, Decode, HashFree, Checksum, Deescape;
    var body, crc := Escape(data), Checksum(Escape(data));
    var bytes := body + ([HASH] + (crc + more));
    assert Encode(data) + more == [DOLLAR] + bytes;
    DecodeLead(Fresh(LeadIn), bytes);
    EscapeIsHashFree(data);
    FindHashStart(body, [HASH] + (crc + more), false);
    assert bytes[..|body|] == body && bytes[|body| + 1..] == crc + more && [] + body == body;
    EscapeRoundTrip(data);
    DecodeGoesOn(Fresh(Body), bytes);
    var d := Decoder(Crc, body, EscapedAfter(body, false));
    assert (crc + more)[..2] == crc && (crc + more)[2..] == more;
    DecodeStops(d, crc + more);
  }

  // ---------------------------------------------------------------- the packet buffer

  /** This turn copies more into the packet buffer than it has room for. */
  predicate Overruns(d: Decoder, block: seq<Byte>) {
    d.mode == Body && |d.pkt| + FindHash(block, 0, d.escaped) > MAX
  }

  lemma TurnOverruns(d: Decoder, block: seq<Byte>)
    ensures TakeTurn(d, block).overrun <==> Overruns(d, block)
  {
  }

  /** The decoder and the bytes at hand before each turn of a call. */
  function TurnsOf(d: Decoder, bytes: seq<Byte>): seq<(Decoder, seq<Byte>)>
    decreases |bytes|, Rank(d)
  {
    TurnShrinks(d, bytes);
    var t := TakeTurn(d, bytes);
    [(d, bytes)] + if t.again then TurnsOf(t.d, bytes[t.consumed..]) else []
  }

  /** ... and of all calls, as the portions arrive. */
  function FeedTurns(d: Decoder, rest: seq<Byte>, portions: seq<seq<Byte>>): seq<(Decoder, seq<Byte>)>
    decreases |portions|
  {
    if portions == [] then []
    else
      var o := Decode(d, rest + portions[0]);
      TurnsOf(d, rest + portions[0]) + FeedTurns(o.d, o.rest, portions[1..])
  }

  ghost predicate SomeOverruns(turns: seq<(Decoder, seq<Byte>)>) {
    exists i :: 0 <= i < |turns| && Overruns(turns[i].0, turns[i].1)
  }

  lemma SomeOfBoth(a: seq<(Decoder, seq<Byte>)>, b: seq<(Decoder, seq<Byte>)>)
    ensures SomeOverruns(a + b) <==> SomeOverruns(a) || SomeOverruns(b)
  {
    hide Overruns;
    if SomeOverruns(a) {
      var i :| 0 <= i < |a| && Overruns(a[i].0, a[i].1);
      assert (a + b)[i] == a[i];
    }
    if SomeOverruns(b) {
      var i :| 0 <= i < |b| && Overruns(b[i].0, b[i].1);
      assert (a + b)[|a| + i] == b[i];
    }
  }

  lemma {:induction false} DecodeOverrunsIff(d: Decoder, bytes: seq<Byte>)
    ensures Decode(d, bytes).overrun <==> SomeOverruns(TurnsOf(d, bytes))
    decreases |bytes|, Rank(d)
  {
    hide TakeTurn, Overruns, SomeOverruns;
    TurnShrinks(d, bytes);
    TurnOverruns(d, bytes);
    OneTurn(d, bytes);
    var t := TakeTurn(d, bytes);
    if t.again {
      DecodeOverrunsIff(t.d, bytes[t.consumed..]);
      SomeOfBoth([(d, bytes)], TurnsOf(t.d, bytes[t.consumed..]));
    } else {
      assert TurnsOf(d, bytes) == [(d, bytes)];
    }
  }

  lemma OneTurn(d: Decoder, bytes: seq<Byte>)
    ensures SomeOverruns([(d, bytes)]) <==> Overruns(d, bytes)
  {
    hide Overruns;
    if Overruns(d, bytes) { assert [(d, bytes)][0] == (d, bytes); }
  }

  /**
   However bytes arrive, the packet buffer is overrun exactly if some turn's part of the body does not
   fit behind what it holds.
   */
  lemma {:induction false} FeedOverrunsIff(d: Decoder, rest: seq<Byte>, portions: seq<seq<Byte>>)
    ensures Feed(d, rest, portions).overrun <==> SomeOverruns(FeedTurns(d, rest, portions))
    decreases |portions|
  {
    hide Decode, TurnsOf, SomeOverruns;
    if portions == [] {
      assert !SomeOverruns([]) by { NoTurns(); }
    } else {
      var o := Decode(d, rest + portions[0]);
      DecodeOverrunsIff(d, rest + portions[0]);
      FeedOverrunsIff(o.d, o.rest, portions[1..]);
      SomeOfBoth(TurnsOf(d, rest + portions[0]), FeedTurns(o.d, o.rest, portions[1..]));
    }
  }

  lemma NoTurns()
    ensures !SomeOverruns([])
  {
  }

  lemma EscapedNothing(escaped: bool)
    ensures EscapedAfter([], escaped) == escaped
  {
  }

  /** What a portion without a bare `#` does in the body. */
  lemma BodyPortion(d: Decoder, block: seq<Byte>)
    requires d.mode == Body && |d.pkt| < MAX && HashFree(block, d.escaped)
    ensures var o := Decode(d, block); var n := |d.pkt| + |block|;
      && (o.overrun <==> n > MAX)
      && (n < MAX ==> o == Outcome(Decoder(Body, d.pkt + block, EscapedAfter(block, d.escaped)), [], [], false))
      && (n >= MAX ==> o == Outcome(Fresh(LeadIn), [], [Error], n > MAX))
  {
    hide FindHash, EscapedAfter, Decode, HashFree;
    FindHashStart(block, [], d.escaped);
    assert block + [] == block && block[..|block|] == block && block[|block|..] == [];
    var t := TakeTurn(d, block);
    if |d.pkt| + |block| >= MAX {
      DecodeGoesOn(d, block);
      DecodeIdle(Fresh(Init));
      assert [Error] + [] == [Error];
    } else if block == [] {
      assert d.pkt + [] == d.pkt;
      EscapedNothing(d.escaped);
      DecodeNothing(d);
    } else {
      DecodeGoesOn(d, block);
      DecodeNothing(t.d);
    }
  }

  /**
   The sizes of the arrivals decide about a body that is too long: if their sum reaches the length of
   the packet buffer exactly, an error is reported; if it skips that, the buffer is overrun.
   */
  lemma {:induction false} LongBodyOverrunsIff(d: Decoder, portions: seq<seq<Byte>>)
    requires d.mode == Body && portions != [] && HashFree(Concat(portions), d.escaped)
    requires |d.pkt| + |Concat(portions[..|portions| - 1])| < MAX
    ensures var o := Feed(d, [], portions); var n := |d.pkt| + |Concat(portions)|;
      && (o.overrun <==> n > MAX)
      && (n < MAX ==> o.events == [] && o.d.mode == Body && |o.d.pkt| == n)
      && (n == MAX ==> o.events == [Error] && o.d == Fresh(LeadIn))
    decreases |portions|
  {
    hide EscapedAfter, Decode, HashFree;
    var first, more := portions[0], portions[1..];
    assert [] + first == first;
    HashFreeParts(first, Concat(more), d.escaped);
    if more == [] {
      assert Concat(more) == [];
      BodyPortion(d, first);
      var o := Decode(d, first);
      assert Feed(o.d, o.rest, more) == Outcome(o.d, o.rest, [], false);
    } else {
      ConcatInit(portions);
      BodyPortion(d, first);
      var d' := Decoder(Body, d.pkt + first, EscapedAfter(first, d.escaped));
      LongBodyOverrunsIff(d', more);
      var o := Feed(d', [], more);
      assert [] + o.events == o.events;
    }
  }

  lemma ConcatInit(portions: seq<seq<Byte>>)
    requires |portions| > 1
    ensures Concat(portions[..|portions| - 1]) == portions[0] + Concat(portions[1..][..|portions| - 2])
  {
    assert portions[..|portions| - 1][1..] == portions[1..][..|portions| - 2];
  }

  lemma HashFreeParts(a: seq<Byte>, b: seq<Byte>, escaped: bool)
    requires HashFree(a + b, escaped)
    ensures HashFree(a, escaped) && HashFree(b, EscapedAfter(a, escaped))
  {
    forall k | 0 <= k < |a| && a[k] == HASH ensures EscapedAfter(a[..k], escaped) {
      assert (a + b)[k] == HASH && (a + b)[..k] == a[..k];
    }
    forall k | 0 <= k < |b| && b[k] == HASH ensures EscapedAfter(b[..k], EscapedAfter(a, escaped)) {
      assert (a + b)[|a| + k] == HASH && (a + b)[..|a| + k] == a + b[..k];
      EscapedSplit(a, b[..k], escaped);
    }
  }

  /** From the start: two arrivals of 10000 body characters each overrun the buffer of 16384. */
  lemma TwoArrivalsOverrun()
    ensures var a: seq<Byte> := seq(10000, _ => 0); Feed(Fresh(Init), [], [[DOLLAR] + a, a]).overrun
  {
    hide Decode;
    var a: seq<Byte> := seq(10000, _ => 0);
    var portions := [[DOLLAR] + a, a];
    assert [] + portions[0] == [DOLLAR] + a;
    DecodeLead(Fresh(Init), a);
    assert Concat([a, a]) == a + a by { assert [a, a][1..] == [a] && [a][1..] == [] && Concat([a]) == a; }
    assert [a, a][..1] == [a] && Concat([a]) == a by { assert [a][1..] == []; }
    assert HashFree(a + a, false);
    LongBodyOverrunsIff(Fresh(Body), [a, a]);
    assert [a, a][0] == a && [a, a][1..] == [a] && portions[1..] == [a] && [] + a == a;
  }
}
