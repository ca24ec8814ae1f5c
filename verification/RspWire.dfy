/**
 What the packet codec puts on the wire and takes from it, in terms of the characters of the protocol
 (GDB manual, Appendix E.1) rather than of the functions that encoder and decoder share.
 */
module RspWire {
  import opened RspPacket

  // ---------------------------------------------------------------- the checksum

  /** The digits from '0' to '9' and from 'a' to 'f'. */
  const DIGITS: seq<Byte> :=
    [0x30, 0x31, 0x32, 0x33, 0x34, 0x35, 0x36, 0x37, 0x38, 0x39, 0x61, 0x62, 0x63, 0x64, 0x65, 0x66]

  ghost predicate IsDigit(b: Byte) {
    b in DIGITS
  }

  /** The value of a hexadecimal digit. */
  ghost function ValueOf(b: Byte): (v: nat)
    requires IsDigit(b)
    ensures v < 16 && DIGITS[v] == b
  {
    var v: nat :| v < 16 && DIGITS[v] == b;
    v
  }

  ghost predicate IsHexPair(crc: seq<Byte>) {
    |crc| == 2 && IsDigit(crc[0]) && IsDigit(crc[1])
  }

  /** Two digits as a number, the first one high. */
  ghost function HexNumber(crc: seq<Byte>): nat
    requires IsHexPair(crc)
  {
    16 * ValueOf(crc[0]) + ValueOf(crc[1])
  }

  /** The sum is additive, and of one byte it is that byte. */
  lemma {:induction false} SumJoins(a: seq<Byte>, b: seq<Byte>)
    ensures Sum(a + b) == Sum(a) + Sum(b)
    ensures forall x: Byte :: Sum([x]) == x as nat
    ensures Sum([]) == 0
    decreases |b|
  {
    forall x: Byte ensures Sum([x]) == x as nat { assert [x][..0] == []; }
    if b == [] {
      assert a + b == a;
    } else {
      var n := |b| - 1;
      SumJoins(a, b[..n]);
      assert (a + b)[..|a| + n] == a + b[..n];
    }
  }

  lemma DigitsDiffer(v: nat, w: nat)
    requires v < 16 && w < 16 && DIGITS[v] == DIGITS[w]
    ensures v == w
  {
  }

  lemma LowDigit(n: nat)
    requires n < 10
    ensures HexDigit(n) == DIGITS[n]
  {
    if n < 5 {
      if n == 0 {} else if n == 1 {} else if n == 2 {} else if n == 3 {} else {}
    } else {
      if n == 5 {} else if n == 6 {} else if n == 7 {} else if n == 8 {} else {}
    }
  }

  lemma HighDigit(n: nat)
    requires 10 <= n < 16
    ensures HexDigit(n) == DIGITS[n]
  {
    if n == 10 {} else if n == 11 {} else if n == 12 {} else if n == 13 {} else if n == 14 {} else {}
  }

  lemma HexDigitIs(n: nat)
    requires n < 16
    ensures IsDigit(HexDigit(n)) && ValueOf(HexDigit(n)) == n
  {
    hide HexDigit, ValueOf;
    if n < 10 { LowDigit(n); } else { HighDigit(n); }
    DigitsDiffer(ValueOf(HexDigit(n)), n);
  }

  /** The checksum is two digits that, read as a number, give the sum of the bytes modulo 256. */
  lemma ChecksumIsSum(raw: seq<Byte>)
    ensures IsHexPair(Checksum(raw)) && HexNumber(Checksum(raw)) == Sum(raw) % 256
  {
    hide HexDigit, ValueOf, IsDigit, Sum;
    var n := Sum(raw) % 256;
    HexDigitIs(n / 16);
    HexDigitIs(n % 16);
  }

  /** Nothing else is accepted as the checksum. */
  lemma ChecksumIff(raw: seq<Byte>, crc: seq<Byte>)
    ensures crc == Checksum(raw) <==> IsHexPair(crc) && HexNumber(crc) == Sum(raw) % 256
  {
    hide Checksum, ValueOf, IsDigit, Sum;
    ChecksumIsSum(raw);
    if IsHexPair(crc) && HexNumber(crc) == Sum(raw) % 256 {
      var want := Checksum(raw);
      assert ValueOf(crc[0]) == ValueOf(want[0]) && ValueOf(crc[1]) == ValueOf(want[1]);
      assert crc == [crc[0], crc[1]] && want == [want[0], want[1]];
    }
  }

  /** A packet is delivered exactly if its last two characters are the hexadecimal sum of its body. */
  lemma DeliveredIffSumMatches(data: seq<Byte>, crc: seq<Byte>)
    requires Fits(data) && |crc| == 2
    ensures var o := Decode(Fresh(LeadIn), [DOLLAR] + (Escape(data) + ([HASH] + crc)));
      && o.events == (if IsHexPair(crc) && HexNumber(crc) == Sum(Escape(data)) % 256 then [Packet(data)] else [Error])
      && o.d == Fresh(Init) && o.rest == [] && !o.overrun
  {
    BadChecksumIsError(data, crc);
    ChecksumIff(Escape(data), crc);
  }

  /** Either way the next packet is decoded as if nothing had been before it. */
  lemma NextIsDecoded(data: seq<Byte>, crc: seq<Byte>, next: seq<Byte>)
    requires Fits(data) && |crc| == 2 && Fits(next)
    ensures var first := [DOLLAR] + (Escape(data) + ([HASH] + crc));
      Feed(Fresh(LeadIn), [], [first, Encode(next)]).events ==
      Decode(Fresh(LeadIn), first).events + [Packet(next)]
  {
    hide Escape, Decode, Encode, HexNumber, IsHexPair;
    var first := [DOLLAR] + (Escape(data) + ([HASH] + crc));
    DeliveredIffSumMatches(data, crc);
    NextPacketWaits(next, []);
    InitIsLeadIn(Encode(next));
    assert [] + first == first && [] + Encode(next) == Encode(next) && Encode(next) + [] == Encode(next);
    assert [first, Encode(next)][1..] == [Encode(next)] && [Encode(next)][1..] == [];
    assert Feed(Fresh(Init), [], [Encode(next)]).events == Decode(Fresh(Init), Encode(next)).events + [];
  }

  lemma InitIsLeadIn(bytes: seq<Byte>)
    ensures Decode(Fresh(Init), bytes).events == Decode(Fresh(LeadIn), bytes).events
  {
    assert bytes[0..] == bytes;
  }

  // ---------------------------------------------------------------- escaping and framing

  /** Escaping goes character by character. */
  lemma {:induction false} EscapeJoins(a: seq<Byte>, b: seq<Byte>)
    ensures Escape(a + b) == Escape(a) + Escape(b) && Escape([]) == []
    decreases |b|
  {
    hide EscapeOne;
    if b == [] {
      assert a + b == a;
    } else {
      var n := |b| - 1;
      EscapeJoins(a, b[..n]);
      assert (a + b)[..|a| + n] == a + b[..n];
      assert Escape(a) + (Escape(b[..n]) + EscapeOne(b[n])) == (Escape(a) + Escape(b[..n])) + EscapeOne(b[n]);
    }
  }

  /**
   `#`, `%`, `}` and `*` are sent as a brace and the characters 3, 5, `]` and 10; all others as
   themselves.
   */
  lemma EscapedAs(x: Byte)
    ensures Escape([x]) ==
      if x == 0x23 then [0x7d, 0x03] else if x == 0x25 then [0x7d, 0x05]
      else if x == 0x7d then [0x7d, 0x5d] else if x == 0x2a then [0x7d, 0x0a] else [x]
  {
    assert [x][..0] == [] && Escape([]) == [];
    assert Escape([x]) == [] + EscapeOne(x) == EscapeOne(x);
  }

  /** A packet is `$`, the escaped payload, `#`, and the sum of what is between them, in hexadecimal. */
  lemma PacketIs(data: seq<Byte>)
    ensures var n := |Escape(data)|; var p := Encode(data);
      && |p| == n + 4 && p[0] == 0x24 && p[1..n + 1] == Escape(data) && p[n + 1] == 0x23
      && IsHexPair(p[n + 2..]) && HexNumber(p[n + 2..]) == Sum(Escape(data)) % 256
  {
    hide Escape, Sum, HexNumber, IsHexPair, Checksum;
    ChecksumIsSum(Escape(data));
    assert Encode(data)[|Escape(data)| + 2..] == Checksum(Escape(data));
  }

  /** For instance, "OK" is sent as "$OK#9a". */
  lemma OkOnTheWire()
    ensures Encode([0x4f, 0x4b]) == [0x24, 0x4f, 0x4b, 0x23, 0x39, 0x61]
  {
    hide Escape, Sum, HexDigit;
    EscapeJoins([0x4f], [0x4b]);
    EscapedAs(0x4f);
    EscapedAs(0x4b);
    SumJoins([0x4f], [0x4b]);
    assert [0x4f as Byte] + [0x4b] == [0x4f, 0x4b];
    LowDigit(9);
    HighDigit(10);
    assert Sum([0x4f, 0x4b]) == 154;
  }

  // ---------------------------------------------------------------- the lead-in

  predicate IsLead(b: Byte) {
    b == 0x2b || b == 0x24 || b == 0x03
  }

  lemma {:induction false} FindLeadIs(junk: seq<Byte>, more: seq<Byte>, k: nat)
    requires k <= |junk| && (forall i :: 0 <= i < |junk| ==> !IsLead(junk[i])) && (more == [] || IsLead(more[0]))
    ensures FindLead(junk + more, k) == |junk|
    decreases |junk| - k
  {
    if k < |junk| { FindLeadIs(junk, more, k + 1); }
  }

  /**
   Between packets everything is skipped but three characters: `+` is reported as an acknowledgement,
   the character 3 as an interrupt, and `$` begins a body.
   */
  lemma LeadInReports(d: Decoder, junk: seq<Byte>, lead: Byte, more: seq<Byte>)
    requires d.mode == LeadIn && (forall i :: 0 <= i < |junk| ==> !IsLead(junk[i])) && IsLead(lead)
    ensures var t := TakeTurn(d, junk + ([lead] + more));
      && t.consumed == |junk| + 1 && t.again && !t.overrun
      && t.events == (if lead == 0x2b then [Ack] else if lead == 0x03 then [CtrlC] else [])
      && t.d == if lead == 0x24 then d.(mode := Body) else d
  {
    FindLeadIs(junk, [lead] + more, 0);
    assert (junk + ([lead] + more))[|junk|] == lead;
  }
}
