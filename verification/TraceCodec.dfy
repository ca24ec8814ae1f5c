/**
 How events are laid out in the byte buffers that go from the engine's thread to the dumping thread,
 and the loop that unpacks them.
 */
module TraceCodec {
  import opened Sequences
  import opened Wrappers

  type Byte = b: int | 0 <= b < 256

  /** sizeof(vp::trace *) */
  const PTR_BYTES: int := 8

  /** What is known about each trace: the bytes of its values, or that it carries strings. */
  datatype Kind = Kind(bytes: nat, isString: bool)

  type Kinds = nat -> Kind

  /** One event. `none` stands for a null value: all bits are dumped as 'Z'. */
  datatype Record = Record(trace: nat, none: bool, timestamp: nat, data: seq<Byte>)

  // ---------------------------------------------------------------- numbers as bytes

  function Power256(k: nat): nat {
    if k == 0 then 1 else 256 * Power256(k - 1)
  }

  /** The `k` bytes of a number, least significant first. */
  function Little(n: nat, k: nat): (s: seq<Byte>)
    ensures |s| == k
  {
    if k == 0 then [] else [n % 256] + Little(n / 256, k - 1)
  }

  function FromLittle(s: seq<Byte>): nat {
    if s == [] then 0 else s[0] + 256 * FromLittle(s[1..])
  }

  lemma {:induction false} LittleRoundTrip(n: nat, k: nat)
    requires n < Power256(k)
    ensures FromLittle(Little(n, k)) == n
  {
    if k > 0 { LittleRoundTrip(n / 256, k - 1); }
  }

  // ---------------------------------------------------------------- one event

  function Repeat(b: Byte, n: nat): seq<Byte> {
    seq(n, _ => b)
  }

  /** The bytes of one event. A null value is preceded by a mask of its width. */
  function Pack(r: Record, kinds: Kinds): seq<Byte> {
    Little(r.trace + 1, PTR_BYTES) + [if r.none then 1 else 0]
    + (if r.none then Repeat(255, |r.data|) else [])
    + Little(r.timestamp, 8)
    + (if kinds(r.trace).isString then Little(|r.data|, 4) else [])
    + (if r.none then Repeat(0, |r.data|) else r.data)
  }

  /** An event the engine can be asked to dump: numbers fit, and the value has the trace's width. */
  predicate Packable(r: Record, kinds: Kinds) {
    && r.trace + 1 < Power256(PTR_BYTES) && r.timestamp < Power256(8) && |r.data| < Power256(4)
    && (r.none || !kinds(r.trace).isString ==> |r.data| == kinds(r.trace).bytes)
    && (r.none ==> r.data == Repeat(0, |r.data|))
  }

  /**
   What the loop finds at an offset: the end of the events, an event and where the next begins, or a
   read past the buffer.
   */
  datatype Found = End | Event(r: Record, next: nat) | Beyond

  function UnpackOne(buf: seq<Byte>, off: nat, kinds: Kinds): Found {
    if off >= |buf| - PTR_BYTES then End
    else
      var pointer := FromLittle(buf[off..off + PTR_BYTES]);
      if pointer == 0 then End
      else
        var kind := kinds(pointer - 1);
        var o1 := off + PTR_BYTES + 1;
        if o1 > |buf| then Beyond
        else
          var none := buf[o1 - 1] == 1;
          var o2 := if none then o1 + kind.bytes else o1;
          if o2 + 8 > |buf| then Beyond
          else
            var timestamp := FromLittle(buf[o2..o2 + 8]);
            var o3 := if kind.isString then o2 + 12 else o2 + 8;
            if o3 > |buf| then Beyond
            else
              var bytes := if kind.isString then FromLittle(buf[o2 + 8..o3]) else kind.bytes;
              if o3 + bytes > |buf| then Beyond
              else Event(Record(pointer - 1, none, timestamp, buf[o3..o3 + bytes]), o3 + bytes)
  }

  /** The loop follows the layout field by field. */
  lemma UnpackOneIs(buf: seq<Byte>, off: nat, r: Record, kinds: Kinds)
    requires off + PTR_BYTES + 1 <= |buf|
    requires FromLittle(buf[off..off + PTR_BYTES]) == r.trace + 1 && (buf[off + PTR_BYTES] == 1 <==> r.none)
    requires var kind := kinds(r.trace); var o2 := off + PTR_BYTES + 1 + (if r.none then kind.bytes else 0);
      var o3 := if kind.isString then o2 + 12 else o2 + 8;
      && o3 + |r.data| <= |buf| && off + PTR_BYTES < |buf|
      && FromLittle(buf[o2..o2 + 8]) == r.timestamp
      && (if kind.isString then FromLittle(buf[o2 + 8..o3]) == |r.data| else |r.data| == kind.bytes)
      && buf[o3..o3 + |r.data|] == r.data
    ensures var kind := kinds(r.trace); var o2 := off + PTR_BYTES + 1 + (if r.none then kind.bytes else 0);
      var o3 := if kind.isString then o2 + 12 else o2 + 8;
      UnpackOne(buf, off, kinds) == Event(r, o3 + |r.data|)
  {
    hide FromLittle;
  }

  lemma SubSlice(buf: seq<Byte>, off: nat, p: seq<Byte>, i: nat, j: nat)
    requires off + |p| <= |buf| && buf[off..off + |p|] == p && i <= j <= |p|
    ensures buf[off + i..off + j] == p[i..j] && (i < |p| ==> buf[off + i] == p[i])
  {
    forall k | 0 <= k < |p| ensures buf[off + k] == p[k] { assert buf[off..off + |p|][k] == p[k]; }
  }

  /** Where the timestamp and the value of an event are. */
  function TimeAt(r: Record): nat {
    PTR_BYTES + 1 + (if r.none then |r.data| else 0)
  }

  function DataAt(r: Record, kinds: Kinds): nat {
    TimeAt(r) + 8 + (if kinds(r.trace).isString then 4 else 0)
  }

  lemma Fields(r: Record, kinds: Kinds)
    requires Packable(r, kinds)
    ensures var p := Pack(r, kinds); var (o2, o3) := (TimeAt(r), DataAt(r, kinds));
      && |p| == o3 + |r.data| && p[..PTR_BYTES] == Little(r.trace + 1, PTR_BYTES) && (p[PTR_BYTES] == 1 <==> r.none)
      && p[o2..o2 + 8] == Little(r.timestamp, 8) && p[o3..] == r.data
      && (kinds(r.trace).isString ==> p[o2 + 8..o3] == Little(|r.data|, 4))
  {
    hide Little;
  }

  /** What was packed at an offset is unpacked from there. */
  lemma UnpackOnePacked(buf: seq<Byte>, off: nat, r: Record, kinds: Kinds)
    requires Packable(r, kinds) && off + |Pack(r, kinds)| <= |buf| && buf[off..off + |Pack(r, kinds)|] == Pack(r, kinds)
    ensures UnpackOne(buf, off, kinds) == Event(r, off + |Pack(r, kinds)|)
  {
    hide UnpackOne, Little, FromLittle, Power256, Pack;
    LittleRoundTrip(r.trace + 1, PTR_BYTES);
    LittleRoundTrip(r.timestamp, 8);
    LittleRoundTrip(|r.data|, 4);
    FieldsIn(buf, off, r, kinds);
    UnpackOneIs(buf, off, r, kinds);
  }

  lemma Offsets(r: Record, kinds: Kinds)
    ensures PTR_BYTES < TimeAt(r) && DataAt(r, kinds) == TimeAt(r) + if kinds(r.trace).isString then 12 else 8
  {
  }

  /** Where the fields of a packed event are in a buffer. */
  lemma FieldsIn(buf: seq<Byte>, off: nat, r: Record, kinds: Kinds)
    requires Packable(r, kinds) && off + |Pack(r, kinds)| <= |buf| && buf[off..off + |Pack(r, kinds)|] == Pack(r, kinds)
    ensures var (o2, o3) := (off + TimeAt(r), off + DataAt(r, kinds));
      && off + |Pack(r, kinds)| == o3 + |r.data| <= |buf|
      && buf[off..off + PTR_BYTES] == Little(r.trace + 1, PTR_BYTES) && (buf[off + PTR_BYTES] == 1 <==> r.none)
      && buf[o2..o2 + 8] == Little(r.timestamp, 8) && buf[o3..o3 + |r.data|] == r.data
      && (kinds(r.trace).isString ==> buf[o2 + 8..o3] == Little(|r.data|, 4))
  {
    hide Little, Pack, Packable, TimeAt, DataAt;
    var p := Pack(r, kinds);
    var (o2, o3) := (TimeAt(r), DataAt(r, kinds));
    Fields(r, kinds);
    Offsets(r, kinds);
    SubSlice(buf, off, p, 0, PTR_BYTES);
    SubSlice(buf, off, p, PTR_BYTES, PTR_BYTES);
    SubSlice(buf, off, p, o2, o2 + 8);
    SubSlice(buf, off, p, o2 + 8, o3);
    SubSlice(buf, off, p, o3, |p|);
  }

  /**
   A null string is packed behind a mask of its own length, but read behind one of the trace's width,
   which is zero for strings: the mask is taken for the timestamp.
   */
  lemma NullStringIsMisread(buf: seq<Byte>, off: nat, r: Record, kinds: Kinds)
    requires kinds(r.trace) == Kind(0, true) && r.none && r.data != [] && r.timestamp % 256 != 255
    requires r.trace + 1 < Power256(PTR_BYTES)
    requires off + |Pack(r, kinds)| <= |buf| && buf[off..off + |Pack(r, kinds)|] == Pack(r, kinds)
    ensures forall next: nat :: UnpackOne(buf, off, kinds) != Event(r, next)
  {
    hide FromLittle, Little, UnpackOne, Power256;
    var p := Pack(r, kinds);
    var o := off + PTR_BYTES + 1;
    LittleRoundTrip(r.trace + 1, PTR_BYTES);
    assert p[0..PTR_BYTES] == Little(r.trace + 1, PTR_BYTES) && p[PTR_BYTES] == 1 && p[PTR_BYTES + 1] == 255;
    SubSlice(buf, off, p, 0, PTR_BYTES);
    SubSlice(buf, off, p, PTR_BYTES, PTR_BYTES + 1);
    SubSlice(buf, off, p, PTR_BYTES + 1, PTR_BYTES + 2);
    NullStringTime(buf, off, r.trace, kinds);
    if o + 8 <= |buf| {
      assert buf[o..o + 8][0] == 255;
      LowByte(buf[o..o + 8]);
    }
  }

  lemma LowByte(s: seq<Byte>)
    requires s != []
    ensures FromLittle(s) % 256 == s[0]
  {
  }

  /** Where the timestamp of a null string is read. */
  lemma NullStringTime(buf: seq<Byte>, off: nat, trace: nat, kinds: Kinds)
    requires off + PTR_BYTES < |buf| && FromLittle(buf[off..off + PTR_BYTES]) == trace + 1
    requires kinds(trace) == Kind(0, true) && buf[off + PTR_BYTES] == 1
    ensures var o := off + PTR_BYTES + 1; var found := UnpackOne(buf, off, kinds);
      found.Event? ==> o + 8 <= |buf| && found.r.timestamp == FromLittle(buf[o..o + 8])
  {
    hide FromLittle;
  }

  // ---------------------------------------------------------------- a buffer of events

  function PackAll(rs: seq<Record>, kinds: Kinds): seq<Byte> {
    if rs == [] then [] else PackAll(rs[..|rs| - 1], kinds) + Pack(rs[|rs| - 1], kinds)
  }

  predicate AllPackable(rs: seq<Record>, kinds: Kinds) {
    forall i :: 0 <= i < |rs| ==> Packable(rs[i], kinds)
  }

  /** All events of a buffer from an offset on; `None` if the loop reads past it. */
  function UnpackFrom(buf: seq<Byte>, off: nat, kinds: Kinds): Option<seq<Record>>
    decreases |buf| - off
  {
    match UnpackOne(buf, off, kinds)
    case End => Some([])
    case Beyond => None
    case Event(r, next) =>
      if next <= off then None
      else
        match UnpackFrom(buf, next, kinds)
        case None => None
        case Some(rs) => Some([r] + rs)
  }

  /** A buffer that ends as the producer leaves it: no room for another pointer, or a null pointer behind the events. */
  predicate Closed(buf: seq<Byte>, size: nat) {
    size <= |buf| && (size + PTR_BYTES < |buf| ==> FromLittle(buf[size..size + PTR_BYTES]) == 0)
  }

  predicate Holds(buf: seq<Byte>, rs: seq<Record>, kinds: Kinds) {
    |PackAll(rs, kinds)| <= |buf| && buf[..|PackAll(rs, kinds)|] == PackAll(rs, kinds)
  }

  lemma PackIsLong(r: Record, kinds: Kinds)
    ensures |Pack(r, kinds)| >= PTR_BYTES + 9
  {
  }

  lemma {:induction false} PackAllSplit(rs: seq<Record>, k: nat, kinds: Kinds)
    requires k <= |rs|
    ensures PackAll(rs, kinds) == PackAll(rs[..k], kinds) + PackAll(rs[k..], kinds)
    decreases |rs|
  {
    hide Pack;
    if k == |rs| {
      assert rs[..k] == rs && rs[k..] == [];
    } else {
      var n := |rs| - 1;
      PackAllSplit(rs[..n], k, kinds);
      assert rs[..n][..k] == rs[..k] && rs[..n][k..] == rs[k..n];
      assert rs[k..][..n - k] == rs[k..n] && rs[k..][n - k] == rs[n];
      Associate(PackAll(rs[..k], kinds), PackAll(rs[k..n], kinds), Pack(rs[n], kinds));
    }
  }

  lemma {:induction false} UnpackFromPacked(buf: seq<Byte>, rs: seq<Record>, k: nat, kinds: Kinds)
    requires AllPackable(rs, kinds) && Holds(buf, rs, kinds) && Closed(buf, |PackAll(rs, kinds)|) && k <= |rs|
    ensures UnpackFrom(buf, |PackAll(rs[..k], kinds)|, kinds) == Some(rs[k..])
    decreases |rs| - k
  {
    hide Pack, UnpackOne, Packable;
    var off := |PackAll(rs[..k], kinds)|;
    if k == |rs| {
      assert rs[..k] == rs && rs[k..] == [];
      AtTheEnd(buf, off, kinds);
    } else {
      UnpackFromPacked(buf, rs, k + 1, kinds);
      PackAllSplit(rs, k + 1, kinds);
      var r := rs[k];
      assert rs[..k + 1][..k] == rs[..k] && rs[..k + 1][k] == r;
      assert buf[off..off + |Pack(r, kinds)|] == Pack(r, kinds) by {
        PrefixSlice(buf, PackAll(rs, kinds), PackAll(rs[..k], kinds), Pack(r, kinds), PackAll(rs[k + 1..], kinds));
      }
      UnpackOnePacked(buf, off, r, kinds);
      PackIsLong(r, kinds);
      assert rs[k..] == [r] + rs[k + 1..];
    }
  }

  lemma AtTheEnd(buf: seq<Byte>, size: nat, kinds: Kinds)
    requires Closed(buf, size)
    ensures UnpackOne(buf, size, kinds) == End
  {
  }

  lemma PrefixSlice(buf: seq<Byte>, all: seq<Byte>, a: seq<Byte>, b: seq<Byte>, c: seq<Byte>)
    requires all == (a + b) + c && |all| <= |buf| && buf[..|all|] == all
    ensures buf[|a|..|a| + |b|] == b
  {
    assert buf[|a|..|a| + |b|] == buf[..|all|][|a|..|a| + |b|];
  }

  /** The round trip of a whole buffer: the events packed into it are the events unpacked from it, in order. */
  lemma BufferRoundTrip(buf: seq<Byte>, rs: seq<Record>, kinds: Kinds)
    requires AllPackable(rs, kinds) && Holds(buf, rs, kinds) && Closed(buf, |PackAll(rs, kinds)|)
    ensures UnpackFrom(buf, 0, kinds) == Some(rs)
  {
    UnpackFromPacked(buf, rs, 0, kinds);
    assert rs[..0] == [] && rs[0..] == rs;
  }
}
