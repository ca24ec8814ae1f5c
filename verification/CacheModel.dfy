/**
 A set-associative cache with one asynchronous refill at a time, as a state machine over any backing
 memory, any choice of victims and any answers of the refill port.
 */
module CacheModel {
  import opened Wrappers
  import opened Arithmetic

  type Byte = b: int | 0 <= b < 256

  const WORD: int := 0x1_0000_0000

  /** The tag of a line that holds nothing. */
  const INVALID: nat := 0xFFFF_FFFF

  /** `factor` is 2 to the power of `refill_shift`. */
  datatype Config = Config(lineSize: nat, sets: nat, ways: nat, factor: nat, addOffset: nat)

  predicate Proper(c: Config) {
    c.lineSize > 0 && c.sets > 0 && c.ways > 0 && c.factor > 0
  }

  datatype Line = Line(tag: nat, data: seq<Byte>)

  /** A request; `data` is the requester's buffer, if it gave one. */
  datatype Req = Req(id: nat, addr: nat, isWrite: bool, size: nat, data: Option<seq<Byte>>)

  datatype Status = Ok | Pending | Invalid

  /**
   `filled` tells that the outstanding refill has already put its data into the victim line.
   `scheduled` is whether the event that resumes queued requests is enqueued. `accepted`, `answered`
   and `dropped` keep count of the requests the cache took on, answered later, and forgot.
   */
  datatype Cache = Cache(
    lines: seq<Line>, pending: bool, refillLine: nat, refillTag: nat, refillAddr: nat, filled: bool,
    queue: seq<Req>, scheduled: bool, accepted: seq<nat>, answered: seq<nat>, dropped: seq<nat>)

  /** What a request gets back. */
  datatype Outcome = Outcome(cache: Cache, status: Status, data: Option<seq<Byte>>)

  // ---------------------------------------------------------------- addresses

  function TagOf(c: Config, addr: nat): nat
    requires Proper(c)
  {
    (addr / c.lineSize) % WORD
  }

  function SetOf(c: Config, tag: nat): nat
    requires Proper(c)
  {
    tag % c.sets
  }

  /** The address a refill reads from, in 32-bit arithmetic. */
  function RefillAddr(c: Config, addr: nat): nat
    requires Proper(c)
  {
    var shifted := (addr % WORD * c.factor) % WORD;
    (shifted - shifted % c.lineSize + c.addOffset) % WORD
  }

  /** The address a line with this tag stands for. */
  function LineAddr(c: Config, tag: nat): nat
    requires Proper(c)
  {
    RefillAddr(c, tag * c.lineSize)
  }

  type Memory = nat -> Byte

  function MemLine(c: Config, mem: Memory, addr: nat): (r: seq<Byte>)
    ensures |r| == c.lineSize
  {
    seq(c.lineSize, i requires 0 <= i => mem(addr + i))
  }

  // ---------------------------------------------------------------- lookup

  /** The first way of a set that holds the tag, from way `w` on. */
  function FindWay(c: Config, lines: seq<Line>, tag: nat, w: nat): (r: nat)
    requires Proper(c) && |lines| == c.sets * c.ways && w <= c.ways
    ensures w <= r <= c.ways
    decreases c.ways - w
  {
    if w == c.ways then w
    else if lines[Index(c, SetOf(c, tag), w)].tag == tag then w
    else FindWay(c, lines, tag, w + 1)
  }

  function Index(c: Config, set_: nat, w: nat): (r: nat)
    requires Proper(c) && set_ < c.sets && w < c.ways
    ensures r < c.sets * c.ways && r / c.ways == set_
  {
    IndexBounds(c, set_, w);
    set_ * c.ways + w
  }

  lemma IndexBounds(c: Config, set_: nat, w: nat)
    requires Proper(c) && set_ < c.sets && w < c.ways
    ensures set_ * c.ways + w < c.sets * c.ways && (set_ * c.ways + w) / c.ways == set_
  {
    assert (set_ + 1) * c.ways <= c.sets * c.ways by { Mult(set_ + 1, c.sets, c.ways); }
    DivAdd(set_, w, c.ways);
  }

  // ---------------------------------------------------------------- operations

  predicate Sized(c: Config, s: Cache) {
    Proper(c) && |s.lines| == c.sets * c.ways && (s.pending ==> s.refillLine < |s.lines|)
  }

  /** Copies start at the beginning of the line, whatever the address. */
  function CopyOut(line: Line, size: nat): seq<Byte> {
    if size <= |line.data| then line.data[..size] else line.data
  }

  function CopyIn(line: Line, data: seq<Byte>): Line {
    if |data| <= |line.data| then line.(data := data + line.data[|data|..]) else line
  }

  /** What is done with the line of a hit, or of a refill that came back at once. */
  function Serve(s: Cache, i: nat, req: Req): Outcome
    requires i < |s.lines|
  {
    match req.data
    case None => Outcome(s, Ok, None)
    case Some(data) =>
      if req.isWrite then Outcome(s.(lines := s.lines[i := CopyIn(s.lines[i], data)]), Ok, Some(data))
      else Outcome(s, Ok, Some(CopyOut(s.lines[i], req.size)))
  }

  /**
   `way` is the victim the replacement counter picks and `answer` what the refill port returns. A
   refill that is answered at once has put `mem`'s bytes into the line.
   */
  function HandleReq(c: Config, s: Cache, mem: Memory, req: Req, way: nat, answer: Status): Outcome
    requires Sized(c, s) && way < c.ways
  {
    var tag := TagOf(c, req.addr);
    var hit := FindWay(c, s.lines, tag, 0);
    if hit < c.ways then Serve(s, Index(c, SetOf(c, tag), hit), req)
    else if s.pending then Outcome(s.(queue := s.queue + [req]), Pending, None)
    else Refill(c, s, mem, req, Index(c, SetOf(c, tag), way), answer)
  }

  /** A refill of line `i` for a request that missed. */
  function Refill(c: Config, s: Cache, mem: Memory, req: Req, i: nat, answer: Status): Outcome
    requires Sized(c, s) && i < |s.lines|
  {
    var tag := TagOf(c, req.addr);
    var addr := RefillAddr(c, req.addr);
    match answer
    case Ok => Serve(s.(lines := s.lines[i := Line(tag, MemLine(c, mem, addr))]), i, req)
    case Pending =>
      Outcome(s.(queue := [req] + s.queue, pending := true, refillLine := i, refillTag := tag, refillAddr := addr,
                 filled := false), Pending, None)
    case Invalid => Outcome(s, Invalid, None)
  }

  /** Enqueues the resuming event when there is something to resume and no refill to wait for. */
  function CheckState(s: Cache): Cache {
    if !s.pending && s.queue != [] then s.(scheduled := true) else s
  }

  function Access(c: Config, s: Cache, mem: Memory, req: Req, way: nat, answer: Status): Outcome
    requires Sized(c, s) && way < c.ways
  {
    var o := HandleReq(c, s, mem, req, way, answer);
    if o.status == Pending then o.(cache := o.cache.(accepted := o.cache.accepted + [req.id])) else o
  }

  /** The refill port writes into the victim line, some time before it responds. */
  function Fill(c: Config, s: Cache, mem: Memory): Cache
    requires Sized(c, s) && s.pending
  {
    s.(lines := s.lines[s.refillLine := s.lines[s.refillLine].(data := MemLine(c, mem, s.refillAddr))], filled := true)
  }

  /** The response to the refill. The request that missed is always treated as a read. */
  function Respond(c: Config, s: Cache): Outcome
    requires Sized(c, s) && s.pending && s.queue != []
  {
    var req := s.queue[0];
    var s0 := s.(queue := s.queue[1..], pending := false, answered := s.answered + [req.id]);
    match req.data
    case None => Outcome(CheckState(s0), Ok, None)
    case Some(_) =>
      var line := s.lines[s.refillLine].(tag := s.refillTag);
      Outcome(CheckState(s0.(lines := s.lines[s.refillLine := line])), Ok, Some(CopyOut(line, req.size)))
  }

  /** The event that resumes the first queued request. */
  function Resume(c: Config, s: Cache, mem: Memory, way: nat, answer: Status): Outcome
    requires Sized(c, s) && way < c.ways
  {
    var s0 := s.(scheduled := false);
    if !s.pending && s.queue != [] then
      var req := s.queue[0];
      var o := HandleReq(c, s0.(queue := s.queue[1..]), mem, req, way, answer);
      var s1 :=
        match o.status
        case Ok => o.cache.(answered := o.cache.answered + [req.id])
        case Pending => o.cache
        case Invalid => o.cache.(dropped := o.cache.dropped + [req.id]);
      o.(cache := CheckState(s1))
    else Outcome(CheckState(s0), Ok, None)
  }

  function Emptied(lines: seq<Line>): (r: seq<Line>)
    ensures |r| == |lines| && forall i :: 0 <= i < |r| ==> r[i] == lines[i].(tag := INVALID)
  {
    seq(|lines|, i requires 0 <= i < |lines| => lines[i].(tag := INVALID))
  }

  function Flush(s: Cache): Cache {
    s.(lines := Emptied(s.lines))
  }

  /** Every way of the address's set that holds its tag is emptied. */
  function FlushLine(c: Config, s: Cache, addr: nat): Cache
    requires Sized(c, s)
  {
    var tag := TagOf(c, addr);
    s.(lines := seq(|s.lines|, i requires 0 <= i < |s.lines| =>
      if i / c.ways == SetOf(c, tag) && s.lines[i].tag == tag then s.lines[i].(tag := INVALID) else s.lines[i]))
  }

  // ---------------------------------------------------------------- the invariant

  function Ids(queue: seq<Req>): (r: seq<nat>)
    ensures |r| == |queue|
  {
    seq(|queue|, i requires 0 <= i < |queue| => queue[i].id)
  }

  predicate Placed(c: Config, lines: seq<Line>)
    requires Proper(c)
  {
    forall i :: 0 <= i < |lines| ==>
      |lines[i].data| == c.lineSize && (lines[i].tag != INVALID ==> lines[i].tag % c.sets == i / c.ways)
  }

  predicate Unique(lines: seq<Line>) {
    forall i, j :: 0 <= i < j < |lines| && lines[i].tag == lines[j].tag ==> lines[i].tag == INVALID
  }

  /** Every valid line holds what memory holds at its address, except the victim of a refill under way. */
  predicate Agrees(c: Config, s: Cache, mem: Memory)
    requires Proper(c)
  {
    forall i :: 0 <= i < |s.lines| && s.lines[i].tag != INVALID && !(s.pending && i == s.refillLine) ==>
      s.lines[i].data == MemLine(c, mem, LineAddr(c, s.lines[i].tag))
  }

  /** The refill under way is for the request at the front of the queue, into its set, for a tag no line has. */
  predicate Refilling(c: Config, s: Cache, mem: Memory)
    requires Proper(c)
  {
    s.pending ==>
      && s.refillLine < |s.lines| && s.refillTag % c.sets == s.refillLine / c.ways && s.refillTag != INVALID
      && (forall i :: 0 <= i < |s.lines| ==> s.lines[i].tag != s.refillTag)
      && s.refillAddr == LineAddr(c, s.refillTag)
      && s.queue != [] && TagOf(c, s.queue[0].addr) == s.refillTag
      && (s.filled ==> s.lines[s.refillLine].data == MemLine(c, mem, s.refillAddr))
  }

  /** A read with a buffer of its size, no longer than a line, whose line is fetched from where the line is. */
  predicate Clean(c: Config, req: Req)
    requires Proper(c)
  {
    && !req.isWrite && req.data.Some? && |req.data.value| == req.size <= c.lineSize
    && TagOf(c, req.addr) != INVALID && RefillAddr(c, req.addr) == LineAddr(c, TagOf(c, req.addr))
  }

  predicate AllClean(c: Config, queue: seq<Req>)
    requires Proper(c)
  {
    forall i :: 0 <= i < |queue| ==> Clean(c, queue[i])
  }

  /** Each request taken on is answered once, dropped once, or still held; and someone will look after those held. */
  predicate Books(s: Cache) {
    && multiset(s.accepted) == multiset(s.answered) + multiset(s.dropped) + multiset(Ids(s.queue))
    && (!s.pending && s.queue != [] ==> s.scheduled)
    && (s.pending ==> s.queue != [])
  }

  predicate Inv(c: Config, s: Cache, mem: Memory) {
    && Sized(c, s) && Placed(c, s.lines) && Unique(s.lines) && Agrees(c, s, mem) && Refilling(c, s, mem)
    && AllClean(c, s.queue) && Books(s)
  }

  function Start(c: Config): Cache
    requires Proper(c)
  {
    Cache(seq(c.sets * c.ways, _ => Line(INVALID, Zeros(c.lineSize))), false, 0, 0, 0, false, [], false, [], [], [])
  }

  function Zeros(n: nat): (r: seq<Byte>)
    ensures |r| == n
  {
    seq(n, _ => 0)
  }

  lemma StartInv(c: Config, mem: Memory)
    requires Proper(c)
    ensures Inv(c, Start(c), mem)
  {
  }

  // ---- lookup

  lemma {:induction false} FindWayIs(c: Config, lines: seq<Line>, tag: nat, w: nat)
    requires Proper(c) && |lines| == c.sets * c.ways && w <= c.ways
    ensures var r := FindWay(c, lines, tag, w);
      && (r < c.ways ==> lines[Index(c, SetOf(c, tag), r)].tag == tag)
      && (r == c.ways ==> forall v :: w <= v < c.ways ==> lines[Index(c, SetOf(c, tag), v)].tag != tag)
    decreases c.ways - w
  {
    if w < c.ways { FindWayIs(c, lines, tag, w + 1); }
  }

  lemma IndexOfLine(c: Config, i: nat)
    requires Proper(c) && i < c.sets * c.ways
    ensures i / c.ways < c.sets && i % c.ways < c.ways && Index(c, i / c.ways, i % c.ways) == i
  {
    var q, r := i / c.ways, i % c.ways;
    assert i == q * c.ways + r;
    if q >= c.sets { Mult(c.sets, q, c.ways); }
  }

  /** A miss means that no line of the whole cache has the tag. */
  lemma MissMeansNowhere(c: Config, lines: seq<Line>, tag: nat)
    requires Proper(c) && |lines| == c.sets * c.ways && Placed(c, lines) && tag != INVALID
    requires FindWay(c, lines, tag, 0) == c.ways
    ensures forall i :: 0 <= i < |lines| ==> lines[i].tag != tag
  {
    hide Index, FindWay;
    FindWayIs(c, lines, tag, 0);
    forall i | 0 <= i < |lines| ensures lines[i].tag != tag {
      IndexOfLine(c, i);
      if i / c.ways == SetOf(c, tag) {
        var v := i % c.ways;
        assert lines[Index(c, SetOf(c, tag), v)].tag != tag;
      }
    }
  }

  // ---- serving and refilling

  predicate Core(c: Config, s: Cache, mem: Memory) {
    Sized(c, s) && Placed(c, s.lines) && Unique(s.lines) && Agrees(c, s, mem) &&
      Refilling(c, s, mem) && AllClean(c, s.queue)
  }

  /** What a request reads when everything is right: memory from the start of its line. */
  predicate Right(c: Config, mem: Memory, req: Req, data: Option<seq<Byte>>)
    requires Proper(c)
  {
    req.size <= c.lineSize && data == Some(MemLine(c, mem, LineAddr(c, TagOf(c, req.addr)))[..req.size])
  }

  /** The line a request hits, if any. */
  function HitLine(c: Config, s: Cache, req: Req): Option<nat>
    requires Sized(c, s)
  {
    var w := FindWay(c, s.lines, TagOf(c, req.addr), 0);
    if w < c.ways then Some(Index(c, SetOf(c, TagOf(c, req.addr)), w)) else None
  }

  /** A hit is on a line with the request's tag; a miss means there is none. */
  lemma HitLineIs(c: Config, s: Cache, req: Req)
    requires Sized(c, s) && Placed(c, s.lines) && TagOf(c, req.addr) != INVALID
    ensures var h := HitLine(c, s, req);
      && (h.Some? ==> h.value < |s.lines| && s.lines[h.value].tag == TagOf(c, req.addr))
      && (h.None? ==> forall i :: 0 <= i < |s.lines| ==> s.lines[i].tag != TagOf(c, req.addr))
  {
    hide Index, FindWay;
    FindWayIs(c, s.lines, TagOf(c, req.addr), 0);
    if FindWay(c, s.lines, TagOf(c, req.addr), 0) == c.ways { MissMeansNowhere(c, s.lines, TagOf(c, req.addr)); }
  }

  lemma HandleReqIs(c: Config, s: Cache, mem: Memory, req: Req, way: nat, answer: Status)
    requires Sized(c, s) && way < c.ways
    ensures var i := Index(c, SetOf(c, TagOf(c, req.addr)), way); var h := HitLine(c, s, req);
      HandleReq(c, s, mem, req, way, answer) ==
      if h.Some? then Serve(s, h.value, req)
      else if s.pending then Outcome(s.(queue := s.queue + [req]), Pending, None)
      else Refill(c, s, mem, req, i, answer)
  {
    hide Index, FindWay, RefillAddr, Refill;
  }

  /** A line filled for a tag that was nowhere. */
  lemma FilledCore(c: Config, s: Cache, mem: Memory, i: nat, tag: nat)
    requires Core(c, s, mem) && !s.pending && i < |s.lines| && tag != INVALID && tag % c.sets == i / c.ways
    requires forall j :: 0 <= j < |s.lines| ==> s.lines[j].tag != tag
    ensures Core(c, s.(lines := s.lines[i := Line(tag, MemLine(c, mem, LineAddr(c, tag)))]), mem)
  {
    hide LineAddr, MemLine, Clean;
  }

  lemma QueuedCore(c: Config, s: Cache, mem: Memory, req: Req)
    requires Core(c, s, mem) && s.pending && Clean(c, req)
    ensures Core(c, s.(queue := s.queue + [req]), mem)
  {
    hide LineAddr, MemLine, Clean, TagOf;
    assert (s.queue + [req])[0] == s.queue[0];
  }

  lemma MissedCore(c: Config, s: Cache, mem: Memory, req: Req, i: nat)
    requires Core(c, s, mem) && !s.pending && Clean(c, req) && i < |s.lines|
    requires TagOf(c, req.addr) % c.sets == i / c.ways
    requires forall j :: 0 <= j < |s.lines| ==> s.lines[j].tag != TagOf(c, req.addr)
    ensures Core(c, s.(queue := [req] + s.queue, pending := true, refillLine := i, refillTag := TagOf(c, req.addr),
                       refillAddr := RefillAddr(c, req.addr), filled := false), mem)
  {
    hide LineAddr, MemLine, TagOf, RefillAddr;
    var queue := [req] + s.queue;
    assert queue[0] == req;
    forall k | 0 <= k < |queue| ensures Clean(c, queue[k]) { if k > 0 { assert queue[k] == s.queue[k - 1]; } }
  }

  lemma ServedRight(c: Config, s: Cache, mem: Memory, req: Req, i: nat)
    requires Core(c, s, mem) && Clean(c, req) && i < |s.lines| && s.lines[i].tag == TagOf(c, req.addr)
    ensures Serve(s, i, req).cache == s && Serve(s, i, req).status == Ok
    ensures !(s.pending && i == s.refillLine) ==> Right(c, mem, req, Serve(s, i, req).data)
  {
    hide LineAddr, MemLine, TagOf;
  }

  /**
   Handling a clean request keeps the lines right and gives it memory's bytes, unless it hits the
   victim of a refill.
   */
  lemma HandleReqCore(c: Config, s: Cache, mem: Memory, req: Req, way: nat, answer: Status)
    requires Core(c, s, mem) && Clean(c, req) && way < c.ways
    ensures var o := HandleReq(c, s, mem, req, way, answer); var h := HitLine(c, s, req);
      && Core(c, o.cache, mem)
      && (o.status == Ok && !(h.Some? && s.pending && h.value == s.refillLine) ==> Right(c, mem, req, o.data))
      && (o.status != Pending ==> o.cache.queue == s.queue && o.cache.pending == s.pending)
      && (o.status == Pending ==>
            o.cache.pending && multiset(Ids(o.cache.queue)) == multiset(Ids(s.queue)) + multiset{req.id})
      && o.cache.accepted == s.accepted && o.cache.answered == s.answered && o.cache.dropped == s.dropped
      && o.cache.scheduled == s.scheduled
  {
    hide LineAddr, MemLine, RefillAddr, Index, Core, Serve, TagOf, Right, HandleReq, Clean, HitLine;
    CoreIs(c, s, mem);
    CleanIs(c, req);
    HandleReqIs(c, s, mem, req, way, answer);
    HitLineIs(c, s, req);
    var tag := TagOf(c, req.addr);
    var h := HitLine(c, s, req);
    if h.Some? {
      ServedRight(c, s, mem, req, h.value);
    } else if s.pending {
      QueuedCore(c, s, mem, req);
      IdsAppend(s.queue, req);
    } else {
      var i := Index(c, SetOf(c, tag), way);
      match answer
      case Ok =>
        FilledCore(c, s, mem, i, tag);
        ServedRight(c, s.(lines := s.lines[i := Line(tag, MemLine(c, mem, LineAddr(c, tag)))]), mem, req, i);
      case Pending =>
        MissedCore(c, s, mem, req, i);
        IdsPrepend(req, s.queue);
      case Invalid =>
    }
  }

  lemma CoreIs(c: Config, s: Cache, mem: Memory)
    requires Core(c, s, mem)
    ensures Sized(c, s) && Placed(c, s.lines)
  {
  }

  lemma CleanIs(c: Config, req: Req)
    requires Proper(c) && Clean(c, req)
    ensures TagOf(c, req.addr) != INVALID && RefillAddr(c, req.addr) == LineAddr(c, TagOf(c, req.addr))
  {
  }

  lemma IdsAppend(queue: seq<Req>, req: Req)
    ensures multiset(Ids(queue + [req])) == multiset(Ids(queue)) + multiset{req.id}
  {
    assert Ids(queue + [req]) == Ids(queue) + [req.id];
  }

  lemma IdsPrepend(req: Req, queue: seq<Req>)
    ensures multiset(Ids([req] + queue)) == multiset(Ids(queue)) + multiset{req.id}
  {
    assert Ids([req] + queue) == [req.id] + Ids(queue);
  }

  // ---- every step keeps the invariant

  lemma AccessInv(c: Config, s: Cache, mem: Memory, req: Req, way: nat, answer: Status)
    requires Inv(c, s, mem) && Clean(c, req) && way < c.ways
    ensures Inv(c, Access(c, s, mem, req, way, answer).cache, mem)
  {
    hide Inv, Core, Books, HandleReq, Ids, HitLine, Right, LineAddr, MemLine, Index, TagOf, RefillAddr;
    CoreGives(c, s, mem);
    HandleReqCore(c, s, mem, req, way, answer);
    var o := HandleReq(c, s, mem, req, way, answer);
    BooksAfter(s, req.id, o);
    CoreTaken(c, o.cache, mem, o.cache.accepted + [req.id]);
    CoreGives(c, o.cache, mem);
    CoreGives(c, Access(c, s, mem, req, way, answer).cache, mem);
  }

  lemma CoreTaken(c: Config, s: Cache, mem: Memory, accepted: seq<nat>)
    requires Core(c, s, mem)
    ensures Core(c, s.(accepted := accepted), mem)
  {
  }

  /** Counting a request that was taken on keeps the books. */
  lemma BooksAfter(s: Cache, id: nat, o: Outcome)
    requires Books(s)
    requires o.cache.accepted == s.accepted && o.cache.answered == s.answered && o.cache.dropped == s.dropped
    requires o.cache.scheduled == s.scheduled
    requires o.status != Pending ==> o.cache.queue == s.queue && o.cache.pending == s.pending
    requires o.status == Pending ==>
      o.cache.pending && multiset(Ids(o.cache.queue)) == multiset(Ids(s.queue)) + multiset{id}
    ensures Books(if o.status == Pending then o.cache.(accepted := o.cache.accepted + [id]) else o.cache)
  {
    if o.status == Pending { assert |multiset(Ids(o.cache.queue))| > 0; }
  }

  lemma CoreGives(c: Config, s: Cache, mem: Memory)
    ensures Inv(c, s, mem) <==> Core(c, s, mem) && Books(s)
    ensures Inv(c, s, mem) ==> Sized(c, s) && Books(s)
  {
    hide Placed, Unique, Agrees, Refilling, AllClean, Books;
  }

  lemma FillInv(c: Config, s: Cache, mem: Memory)
    requires Inv(c, s, mem) && s.pending
    ensures Inv(c, Fill(c, s, mem), mem)
  {
    hide LineAddr, MemLine, Clean, Ids;
  }

  /** The response completes the line and answers the request that missed with memory's bytes. */
  lemma RespondInv(c: Config, s: Cache, mem: Memory)
    requires Inv(c, s, mem) && s.pending && s.filled
    ensures Inv(c, Respond(c, s).cache, mem)
    ensures Right(c, mem, s.queue[0], Respond(c, s).data)
  {
    hide LineAddr, MemLine, Ids;
    var req := s.queue[0];
    assert Clean(c, req);
    assert s.queue == [req] + s.queue[1..];
    IdsPrepend(req, s.queue[1..]);
    RespondCore(c, s, mem);
    hide Clean;
  }

  lemma RespondCore(c: Config, s: Cache, mem: Memory)
    requires Core(c, s, mem) && s.pending && s.filled
    ensures var r := s.refillLine;
      Core(c, s.(queue := s.queue[1..], pending := false, lines := s.lines[r := s.lines[r].(tag := s.refillTag)]), mem)
  {
    hide LineAddr, MemLine, Clean, TagOf;
    forall k | 0 <= k < |s.queue[1..]| ensures Clean(c, s.queue[1..][k]) { assert s.queue[1..][k] == s.queue[k + 1]; }
  }

  /** Resuming handles the first request with the rest still queued, files it, and looks for more to do. */
  function Filed(o: Outcome, id: nat): Cache {
    match o.status
    case Ok => o.cache.(answered := o.cache.answered + [id])
    case Pending => o.cache
    case Invalid => o.cache.(dropped := o.cache.dropped + [id])
  }

  lemma ResumeIs(c: Config, s: Cache, mem: Memory, way: nat, answer: Status)
    requires Sized(c, s) && way < c.ways && !s.pending && s.queue != []
    ensures var o := HandleReq(c, s.(scheduled := false, queue := s.queue[1..]), mem, s.queue[0], way, answer);
      Resume(c, s, mem, way, answer) == o.(cache := CheckState(Filed(o, s.queue[0].id)))
  {
    hide HandleReq;
  }

  lemma FiledBooks(s0: Cache, o: Outcome, req: Req, s: Cache)
    requires Books(s) && s.queue != [] && s.queue[0] == req
    requires s0 == s.(scheduled := false, queue := s.queue[1..]) && !s.pending
    requires o.cache.accepted == s0.accepted && o.cache.answered == s0.answered && o.cache.dropped == s0.dropped
    requires o.status != Pending ==> o.cache.queue == s0.queue && o.cache.pending == s0.pending
    requires o.status == Pending ==>
      o.cache.pending && multiset(Ids(o.cache.queue)) == multiset(Ids(s0.queue)) + multiset{req.id}
    ensures Books(CheckState(Filed(o, req.id)))
  {
    assert s.queue == [req] + s.queue[1..];
    IdsPrepend(req, s.queue[1..]);
    assert o.status == Pending ==> req.id in multiset(Ids(o.cache.queue));
    hide Ids;
  }

  /** Resuming keeps everything right, and drops the request exactly if the port now answers with an error. */
  lemma ResumeInv(c: Config, s: Cache, mem: Memory, way: nat, answer: Status)
    requires Inv(c, s, mem) && way < c.ways
    ensures Inv(c, Resume(c, s, mem, way, answer).cache, mem)
    ensures !s.pending && s.queue != [] && Resume(c, s, mem, way, answer).status == Ok ==>
      Right(c, mem, s.queue[0], Resume(c, s, mem, way, answer).data)
    ensures !s.pending && s.queue != [] ==>
      (Resume(c, s, mem, way, answer).status == Invalid <==> HitLine(c, s, s.queue[0]).None? && answer == Invalid)
  {
    hide Core, HandleReq, HitLine, Right, Clean, Resume, CheckState, Filed, Books, Inv, Sized;
    CoreGives(c, s, mem);
    CoreIs(c, s, mem);
    if !s.pending && s.queue != [] {
      var req := s.queue[0];
      HeadClean(c, s, mem);
      var s0 := s.(scheduled := false, queue := s.queue[1..]);
      TailCore(c, s, mem);
      HandleReqCore(c, s0, mem, req, way, answer);
      CoreIs(c, s0, mem);
      HitFrame(c, s, s0, req);
      RefusedIff(c, s0, mem, req, way, answer);
      ResumeIs(c, s, mem, way, answer);
      var o := HandleReq(c, s0, mem, req, way, answer);
      FiledBooks(s0, o, req, s);
      FiledCore(c, o, req.id, mem);
      CoreGives(c, Resume(c, s, mem, way, answer).cache, mem);
    } else {
      ResumeIdle(c, s, mem, way, answer);
    }
  }

  lemma HeadClean(c: Config, s: Cache, mem: Memory)
    requires Core(c, s, mem) && s.queue != []
    ensures Clean(c, s.queue[0])
  {
  }

  lemma HitFrame(c: Config, s: Cache, s': Cache, req: Req)
    requires Sized(c, s) && Sized(c, s') && s'.lines == s.lines
    ensures HitLine(c, s', req) == HitLine(c, s, req)
  {
  }

  lemma RefusedIff(c: Config, s: Cache, mem: Memory, req: Req, way: nat, answer: Status)
    requires Sized(c, s) && way < c.ways && !s.pending
    ensures HandleReq(c, s, mem, req, way, answer).status == Invalid <==> HitLine(c, s, req).None? && answer == Invalid
  {
    HandleReqIs(c, s, mem, req, way, answer);
    hide HandleReq, HitLine;
  }

  lemma FiledCore(c: Config, o: Outcome, id: nat, mem: Memory)
    requires Core(c, o.cache, mem)
    ensures Core(c, CheckState(Filed(o, id)), mem)
  {
    CoreFrame(c, o.cache, CheckState(Filed(o, id)), mem);
  }

  lemma ResumeIdle(c: Config, s: Cache, mem: Memory, way: nat, answer: Status)
    requires Inv(c, s, mem) && way < c.ways && (s.pending || s.queue == [])
    ensures Inv(c, Resume(c, s, mem, way, answer).cache, mem)
  {
    hide LineAddr, MemLine, Clean, TagOf, Ids;
  }

  lemma TailCore(c: Config, s: Cache, mem: Memory)
    requires Core(c, s, mem) && !s.pending && s.queue != []
    ensures Core(c, s.(scheduled := false, queue := s.queue[1..]), mem)
  {
    hide LineAddr, MemLine, Clean, TagOf;
    forall k | 0 <= k < |s.queue[1..]| ensures Clean(c, s.queue[1..][k]) { assert s.queue[1..][k] == s.queue[k + 1]; }
  }

  /** Scheduling and book-keeping do not touch the lines. */
  lemma CoreFrame(c: Config, s: Cache, s': Cache, mem: Memory)
    requires Core(c, s, mem)
    requires s' == s.(scheduled := s'.scheduled, accepted := s'.accepted, answered := s'.answered,
      dropped := s'.dropped)
    ensures Core(c, s', mem)
  {
    hide LineAddr, MemLine, Clean, TagOf;
  }

  lemma FlushInv(c: Config, s: Cache, mem: Memory)
    requires Inv(c, s, mem)
    ensures Inv(c, Flush(s), mem)
  {
    hide LineAddr, MemLine, Clean, Ids;
  }

  lemma FlushLineInv(c: Config, s: Cache, mem: Memory, addr: nat)
    requires Inv(c, s, mem)
    ensures Inv(c, FlushLine(c, s, addr), mem)
  {
    hide LineAddr, MemLine, Clean, Ids, TagOf;
  }

  /** After a flush with no refill under way the cache is right for any memory: that is when memory may change. */
  lemma FlushForgets(c: Config, s: Cache, mem: Memory, mem': Memory)
    requires Inv(c, s, mem) && !s.pending
    ensures Inv(c, Flush(s), mem')
  {
    hide LineAddr, MemLine, Clean, Ids;
  }

  /** A flush does not undo a refill under way: the line it will complete holds what memory held before. */
  lemma FlushKeepsRefillIff(c: Config, s: Cache, mem: Memory, mem': Memory)
    requires Inv(c, s, mem) && s.pending && s.filled
    ensures Agrees(c, Respond(c, Flush(s)).cache, mem') <==>
      MemLine(c, mem', s.refillAddr) == MemLine(c, mem, s.refillAddr)
  {
    hide LineAddr, MemLine, Ids;
    assert Clean(c, s.queue[0]);
    var r := Respond(c, Flush(s)).cache;
    assert r.lines[s.refillLine].tag == s.refillTag && r.lines[s.refillLine].data == MemLine(c, mem, s.refillAddr);
    hide Clean;
  }

  // ---------------------------------------------------------------- every run

  datatype Step =
    | Request(req: Req, way: nat, answer: Status)
    | RefillWrites
    | RefillResponds
    | FsmEvent(way: nat, answer: Status)
    | FlushAll
    | FlushOne(addr: nat)

  predicate CanStep(c: Config, s: Cache, x: Step)
    requires Proper(c)
  {
    && Sized(c, s)
    && match x
       case Request(_, way, _) => way < c.ways
       case RefillWrites => s.pending
       case RefillResponds => s.pending && s.filled && s.queue != []
       case FsmEvent(way, _) => s.scheduled && way < c.ways
       case FlushAll => true
       case FlushOne(_) => true
  }

  function Next(c: Config, s: Cache, mem: Memory, x: Step): Cache
    requires Proper(c) && CanStep(c, s, x)
  {
    match x
    case Request(req, way, answer) => Access(c, s, mem, req, way, answer).cache
    case RefillWrites => Fill(c, s, mem)
    case RefillResponds => Respond(c, s).cache
    case FsmEvent(way, answer) => Resume(c, s, mem, way, answer).cache
    case FlushAll => Flush(s)
    case FlushOne(addr) => FlushLine(c, s, addr)
  }

  predicate IsRun(c: Config, s: Cache, mem: Memory, steps: seq<Step>)
    requires Proper(c)
    decreases |steps|
  {
    steps == [] || (CanStep(c, s, steps[0]) && IsRun(c, Next(c, s, mem, steps[0]), mem, steps[1..]))
  }

  function Run(c: Config, s: Cache, mem: Memory, steps: seq<Step>): Cache
    requires Proper(c) && IsRun(c, s, mem, steps)
    decreases |steps|
  {
    if steps == [] then s else Run(c, Next(c, s, mem, steps[0]), mem, steps[1..])
  }

  predicate CleanStep(c: Config, x: Step)
    requires Proper(c)
  {
    x.Request? ==> Clean(c, x.req)
  }

  predicate CleanSteps(c: Config, steps: seq<Step>)
    requires Proper(c)
  {
    forall i :: 0 <= i < |steps| ==> CleanStep(c, steps[i])
  }

  lemma StepInv(c: Config, s: Cache, mem: Memory, x: Step)
    requires Proper(c) && Inv(c, s, mem) && CanStep(c, s, x) && CleanStep(c, x)
    ensures Inv(c, Next(c, s, mem, x), mem)
  {
    hide Inv, Access, Fill, Respond, Resume, Flush, FlushLine, Sized, Clean;
    match x
    case Request(req, way, answer) => AccessInv(c, s, mem, req, way, answer);
    case RefillWrites => FillInv(c, s, mem);
    case RefillResponds => RespondInv(c, s, mem);
    case FsmEvent(way, answer) => ResumeInv(c, s, mem, way, answer);
    case FlushAll => FlushInv(c, s, mem);
    case FlushOne(addr) => FlushLineInv(c, s, mem, addr);
  }

  lemma {:induction false} RunInv(c: Config, s: Cache, mem: Memory, steps: seq<Step>)
    requires Proper(c) && Inv(c, s, mem) && IsRun(c, s, mem, steps) && CleanSteps(c, steps)
    ensures Inv(c, Run(c, s, mem, steps), mem)
    decreases |steps|
  {
    hide Inv, Next, CanStep, CleanStep;
    if steps != [] {
      StepInv(c, s, mem, steps[0]);
      RunInv(c, Next(c, s, mem, steps[0]), mem, steps[1..]);
    }
  }

  // ---------------------------------------------------------------- every run, of any requests

  /** What does not depend on the requests being clean. */
  predicate Tidy(c: Config, s: Cache) {
    && Sized(c, s) && Placed(c, s.lines) && Unique(s.lines)
    && (s.pending ==> s.refillTag % c.sets == s.refillLine / c.ways)
    && (s.pending ==> forall i :: 0 <= i < |s.lines| && s.lines[i].tag == s.refillTag ==> s.refillTag == INVALID)
  }

  /** A miss means no valid line of the whole cache has the tag, whatever the tag. */
  lemma MissMeansNone(c: Config, s: Cache, req: Req)
    requires Tidy(c, s) && HitLine(c, s, req).None?
    ensures forall i :: 0 <= i < |s.lines| && s.lines[i].tag == TagOf(c, req.addr) ==> TagOf(c, req.addr) == INVALID
  {
    hide Index, FindWay, TagOf;
    var tag := TagOf(c, req.addr);
    FindWayIs(c, s.lines, tag, 0);
    if tag != INVALID { MissMeansNowhere(c, s.lines, tag); }
  }

  lemma ServeTidy(c: Config, s: Cache, i: nat, req: Req)
    requires Tidy(c, s) && i < |s.lines|
    ensures Tidy(c, Serve(s, i, req).cache) && Serve(s, i, req).status == Ok
    ensures var s' := Serve(s, i, req).cache; s' == s.(lines := s'.lines)
  {
  }

  lemma FilledTidy(c: Config, s: Cache, i: nat, line: Line)
    requires Tidy(c, s) && !s.pending && i < |s.lines| && line.tag % c.sets == i / c.ways && |line.data| == c.lineSize
    requires forall j :: 0 <= j < |s.lines| && s.lines[j].tag == line.tag ==> line.tag == INVALID
    ensures Tidy(c, s.(lines := s.lines[i := line]))
  {
  }

  /** What handling a request does to the books. */
  predicate Handled(s: Cache, req: Req, o: Outcome) {
    && o.cache.accepted == s.accepted && o.cache.answered == s.answered && o.cache.dropped == s.dropped
    && o.cache.scheduled == s.scheduled
    && (o.status != Pending ==> o.cache.queue == s.queue && o.cache.pending == s.pending)
    && (o.status == Pending ==>
          o.cache.pending && multiset(Ids(o.cache.queue)) == multiset(Ids(s.queue)) + multiset{req.id})
  }

  lemma HandleReqTidy(c: Config, s: Cache, mem: Memory, req: Req, way: nat, answer: Status)
    requires Tidy(c, s) && way < c.ways
    ensures Tidy(c, HandleReq(c, s, mem, req, way, answer).cache)
    ensures Handled(s, req, HandleReq(c, s, mem, req, way, answer))
  {
    hide Index, HandleReq, HitLine, TagOf, RefillAddr, MemLine, Serve, Ids;
    HandleReqIs(c, s, mem, req, way, answer);
    HitInside(c, s, req);
    var tag := TagOf(c, req.addr);
    var h := HitLine(c, s, req);
    if h.Some? {
      ServeTidy(c, s, h.value, req);
    } else if s.pending {
      IdsAppend(s.queue, req);
    } else {
      MissMeansNone(c, s, req);
      var i := Index(c, SetOf(c, tag), way);
      if answer == Ok {
        var line := Line(tag, MemLine(c, mem, RefillAddr(c, req.addr)));
        FilledTidy(c, s, i, line);
        ServeTidy(c, s.(lines := s.lines[i := line]), i, req);
      }
      IdsPrepend(req, s.queue);
    }
  }

  lemma HitInside(c: Config, s: Cache, req: Req)
    requires Sized(c, s)
    ensures HitLine(c, s, req).Some? ==> HitLine(c, s, req).value < |s.lines|
  {
  }

  lemma AccessTidy(c: Config, s: Cache, mem: Memory, req: Req, way: nat, answer: Status)
    requires Tidy(c, s) && Books(s) && way < c.ways
    ensures Tidy(c, Access(c, s, mem, req, way, answer).cache) && Books(Access(c, s, mem, req, way, answer).cache)
  {
    hide HandleReq, Ids, Books;
    HandleReqTidy(c, s, mem, req, way, answer);
    BooksAfter(s, req.id, HandleReq(c, s, mem, req, way, answer));
  }

  lemma FillTidy(c: Config, s: Cache, mem: Memory)
    requires Tidy(c, s) && Books(s) && s.pending
    ensures Tidy(c, Fill(c, s, mem)) && Books(Fill(c, s, mem))
  {
    hide MemLine, Ids;
  }

  lemma RespondTidy(c: Config, s: Cache)
    requires Tidy(c, s) && Books(s) && s.pending
    ensures s.queue != [] && Tidy(c, Respond(c, s).cache) && Books(Respond(c, s).cache)
  {
    hide Ids;
    assert s.queue == [s.queue[0]] + s.queue[1..];
    IdsPrepend(s.queue[0], s.queue[1..]);
    ResponseBooks(s, s.queue[0].id, s.(queue := s.queue[1..], pending := false,
      answered := s.answered + [s.queue[0].id]));
    CheckChangesFlag(s.(queue := s.queue[1..], pending := false, answered := s.answered + [s.queue[0].id]));
  }

  lemma ResponseBooks(s: Cache, id: nat, s': Cache)
    requires Books(s) && s.pending && multiset(Ids(s.queue)) == multiset(Ids(s'.queue)) + multiset{id}
    requires s'.accepted == s.accepted && s'.answered == s.answered + [id] && s'.dropped == s.dropped && !s'.pending
    ensures forall lines: seq<Line> :: Books(CheckState(s'.(lines := lines)))
  {
    hide Ids;
  }

  lemma CheckChangesFlag(s: Cache)
    ensures forall lines: seq<Line> ::
      var t := CheckState(s.(lines := lines)); t == s.(lines := lines, scheduled := t.scheduled)
  {
  }

  lemma ResumeTidy(c: Config, s: Cache, mem: Memory, way: nat, answer: Status)
    requires Tidy(c, s) && Books(s) && way < c.ways
    ensures Tidy(c, Resume(c, s, mem, way, answer).cache) && Books(Resume(c, s, mem, way, answer).cache)
  {
    hide HandleReq, Ids;
    if !s.pending && s.queue != [] {
      hide Resume, Books, Placed, Unique;
      var s0 := s.(scheduled := false, queue := s.queue[1..]);
      HandleReqTidy(c, s0, mem, s.queue[0], way, answer);
      FiledBooks(s0, HandleReq(c, s0, mem, s.queue[0], way, answer), s.queue[0], s);
      ResumeIs(c, s, mem, way, answer);
    }
  }

  /**
   For any requests: resuming forgets a request exactly if there is one to resume, it misses, and the
   refill port answers with an error. The requester is then never answered.
   */
  lemma ResumeDropsIff(c: Config, s: Cache, mem: Memory, way: nat, answer: Status)
    requires Tidy(c, s) && Books(s) && way < c.ways
    ensures var drops := !s.pending && s.queue != [] && HitLine(c, s, s.queue[0]).None? && answer == Invalid;
      Resume(c, s, mem, way, answer).cache.dropped == if drops then s.dropped + [s.queue[0].id] else s.dropped
  {
    hide HandleReq, Ids, HitLine;
    if !s.pending && s.queue != [] {
      hide Resume, Books, Placed, Unique;
      var s0 := s.(scheduled := false, queue := s.queue[1..]);
      HandleReqTidy(c, s0, mem, s.queue[0], way, answer);
      RefusedIff(c, s0, mem, s.queue[0], way, answer);
      HitFrame(c, s, s0, s.queue[0]);
      ResumeIs(c, s, mem, way, answer);
    }
  }

  lemma FlushTidy(c: Config, s: Cache, addr: nat)
    requires Tidy(c, s) && Books(s)
    ensures Tidy(c, Flush(s)) && Books(Flush(s)) && Tidy(c, FlushLine(c, s, addr)) && Books(FlushLine(c, s, addr))
  {
    hide TagOf, Ids;
  }

  lemma StepTidy(c: Config, s: Cache, mem: Memory, x: Step)
    requires Proper(c) && Tidy(c, s) && Books(s) && CanStep(c, s, x)
    ensures Tidy(c, Next(c, s, mem, x)) && Books(Next(c, s, mem, x))
  {
    hide Tidy, Books, Access, Fill, Respond, Resume, Flush, FlushLine, Sized;
    match x
    case Request(req, way, answer) => AccessTidy(c, s, mem, req, way, answer);
    case RefillWrites => FillTidy(c, s, mem);
    case RefillResponds => RespondTidy(c, s);
    case FsmEvent(way, answer) => ResumeTidy(c, s, mem, way, answer);
    case FlushAll => FlushTidy(c, s, 0);
    case FlushOne(addr) => FlushTidy(c, s, addr);
  }

  lemma {:induction false} RunTidy(c: Config, s: Cache, mem: Memory, steps: seq<Step>)
    requires Proper(c) && Tidy(c, s) && Books(s) && IsRun(c, s, mem, steps)
    ensures Tidy(c, Run(c, s, mem, steps)) && Books(Run(c, s, mem, steps))
    decreases |steps|
  {
    hide Tidy, Books, Next, CanStep;
    if steps != [] {
      StepTidy(c, s, mem, steps[0]);
      RunTidy(c, Next(c, s, mem, steps[0]), mem, steps[1..]);
    }
  }

  /**
   Main result for any requests, reads or writes, with or without a buffer, of any size and at any
   address: each one taken on is answered once, or dropped once, or still held; what is held has a
   refill to wait for or the resuming event scheduled; and valid lines are in their sets, with no tag
   held twice.
   */
  lemma EveryRequestIsKept(c: Config, mem: Memory, steps: seq<Step>)
    requires Proper(c) && IsRun(c, Start(c), mem, steps)
    ensures var s := Run(c, Start(c), mem, steps); Books(s) && Placed(c, s.lines) && Unique(s.lines)
  {
    StartInv(c, mem);
    RunTidy(c, Start(c), mem, steps);
    hide Start, IsRun, Placed, Unique, Books;
  }

  /**
   Main result: in every run of clean reads, refills answered at once or later, and flushes, with any
   victims, every valid line is in its set, no tag is held twice, every line not being refilled holds
   memory's bytes; every request taken on is answered once, or dropped once, or still held; and what
   is held has a refill to wait for or the resuming event scheduled.
   */
  lemma EveryRunIsRight(c: Config, mem: Memory, steps: seq<Step>)
    requires Proper(c) && IsRun(c, Start(c), mem, steps) && CleanSteps(c, steps)
    ensures var s := Run(c, Start(c), mem, steps);
      Placed(c, s.lines) && Unique(s.lines) && Agrees(c, s, mem) && Refilling(c, s, mem) && Books(s)
  {
    StartInv(c, mem);
    RunInv(c, Start(c), mem, steps);
    hide Start, IsRun, Placed, Unique, Agrees, Refilling, Books;
  }

  /** A read that is served at once gets memory's bytes, unless it hits the very line a refill is overwriting. */
  lemma ServedReadIsRight(c: Config, mem: Memory, steps: seq<Step>, req: Req, way: nat, answer: Status)
    requires Proper(c) && IsRun(c, Start(c), mem, steps) && CleanSteps(c, steps) && Clean(c, req) && way < c.ways
    ensures Sized(c, Run(c, Start(c), mem, steps))
    ensures var s := Run(c, Start(c), mem, steps);
      Access(c, s, mem, req, way, answer).status == Ok && !(s.pending && HitLine(c, s, req) == Some(s.refillLine)) ==>
        Right(c, mem, req, Access(c, s, mem, req, way, answer).data)
  {
    hide Start, IsRun, Run, Inv, HandleReq, HitLine, Right, Core, Clean, Sized;
    StartInv(c, mem);
    RunInv(c, Start(c), mem, steps);
    var s := Run(c, Start(c), mem, steps);
    CoreGives(c, s, mem);
    CoreIs(c, s, mem);
    HandleReqCore(c, s, mem, req, way, answer);
  }

  lemma RespondIsOk(c: Config, s: Cache)
    requires Sized(c, s) && s.pending && s.queue != []
    ensures Respond(c, s).status == Ok
  {
  }

  /** So does the read that waited for a refill, and the one that waited behind it. */
  lemma WaitingReadIsRight(c: Config, mem: Memory, steps: seq<Step>, way: nat, answer: Status)
    requires Proper(c) && IsRun(c, Start(c), mem, steps) && CleanSteps(c, steps) && way < c.ways
    ensures Sized(c, Run(c, Start(c), mem, steps))
    ensures var s := Run(c, Start(c), mem, steps);
      && (s.pending ==> s.queue != [])
      && (s.pending && s.filled ==> Respond(c, s).status == Ok && Right(c, mem, s.queue[0], Respond(c, s).data))
      && (!s.pending && s.queue != [] && Resume(c, s, mem, way, answer).status == Ok ==>
            Right(c, mem, s.queue[0], Resume(c, s, mem, way, answer).data))
  {
    hide Start, IsRun, Run, Inv, Resume, Respond, HitLine, Right, Core, Clean, Sized;
    StartInv(c, mem);
    RunInv(c, Start(c), mem, steps);
    var s := Run(c, Start(c), mem, steps);
    CoreGives(c, s, mem);
    CoreIs(c, s, mem);
    if s.pending && s.filled {
      RespondInv(c, s, mem);
      RespondIsOk(c, s);
    }
    ResumeInv(c, s, mem, way, answer);
  }

  // ---------------------------------------------------------------- where the code falls short

  /** A read that hits the victim of a refill gets the new line's bytes once they are there. */
  lemma HitDuringRefillIff(c: Config, s: Cache, mem: Memory, req: Req, way: nat, answer: Status)
    requires Inv(c, s, mem) && Clean(c, req) && way < c.ways && s.pending && s.filled
    requires HitLine(c, s, req) == Some(s.refillLine)
    ensures Right(c, mem, req, Access(c, s, mem, req, way, answer).data) <==>
      MemLine(c, mem, s.refillAddr)[..req.size] == MemLine(c, mem, LineAddr(c, TagOf(c, req.addr)))[..req.size]
  {
    hide LineAddr, MemLine, TagOf, Index, FindWay, HitLine, Placed, Unique, Agrees, Books, RefillAddr;
    HandleReqIs(c, s, mem, req, way, answer);
    hide HandleReq;
  }

  lemma ModAdd(a: nat, d: nat, w: nat)
    requires 0 < d < w
    ensures (a + d) % w != a % w
  {
    var q, r := a / w, a % w;
    assert a == q * w + r;
    if r + d < w {
      DivAdd(q, r + d, w);
    } else {
      assert a + d == (q + 1) * w + (r + d - w);
      DivAdd(q + 1, r + d - w, w);
    }
  }

  lemma MultipleMod(q: nat, l: nat, f: nat)
    requires l > 0
    ensures (q * l * f) % l == 0 && forall r: nat :: (q * l * f + r) % l == r % l
  {
    assert q * l * f == (q * f) * l;
    DivAdd(q * f, 0, l);
    forall r: nat ensures (q * l * f + r) % l == r % l {
      assert q * l * f + r == (q * f + r / l) * l + r % l;
      DivAdd(q * f + r / l, r % l, l);
    }
  }

  lemma RefillUnfolds(c: Config, addr: nat)
    requires Proper(c)
    ensures (addr % WORD) * c.factor >= 0
    ensures var shifted := ((addr % WORD) * c.factor) % WORD;
      RefillAddr(c, addr) == (shifted - shifted % c.lineSize + c.addOffset) % WORD
  {
  }

  /** The refill address of a byte `x` past a multiple `a` of the line size. */
  lemma RefillOf(c: Config, addr: nat, a: nat, x: nat)
    requires Proper(c) && addr < WORD && addr * c.factor == a + x < WORD && (a + x) % c.lineSize == x % c.lineSize
    ensures RefillAddr(c, addr) == (a + (x - x % c.lineSize) + c.addOffset) % WORD
  {
    SmallMod(addr);
    SmallMod(a + x);
    RefillUnfolds(c, addr);
  }

  /** The base of the line an address is in, before and after the refill shift. */
  lemma LineBase(c: Config, addr: nat)
    requires Proper(c) && addr < WORD && addr * c.factor < WORD
    ensures var (q, r) := (addr / c.lineSize, addr % c.lineSize); var (a, x) :=
      (q * c.lineSize * c.factor, r * c.factor);
      && addr * c.factor == a + x && (a + x) % c.lineSize == x % c.lineSize && (a + 0) % c.lineSize == 0
      && q * c.lineSize <= addr && TagOf(c, addr) == q
  {
    var l, f := c.lineSize, c.factor;
    var q, r := addr / l, addr % l;
    assert addr == q * l + r;
    Mult(1, l, q);
    MultipleMod(q, l, f);
    assert (q * l + r) * f == q * l * f + r * f;
  }

  /**
   A miss fetches the line of its tag exactly if its offset in the line, scaled by the refill shift,
   stays within a line; further on it fetches another one.
   */
  lemma FetchesItsLineIff(c: Config, addr: nat)
    requires Proper(c) && addr < WORD && addr * c.factor < WORD
    ensures RefillAddr(c, addr) == LineAddr(c, TagOf(c, addr)) <==> addr % c.lineSize * c.factor < c.lineSize
  {
    hide RefillAddr, TagOf;
    LineBase(c, addr);
    var q := addr / c.lineSize;
    var a, x := q * c.lineSize * c.factor, addr % c.lineSize * c.factor;
    RefillOf(c, addr, a, x);
    RefillOf(c, q * c.lineSize, a, 0);
    FloorDiffers(a + c.addOffset, x, c.lineSize);
  }

  lemma FloorDiffers(a: nat, x: nat, l: nat)
    requires 0 < l && x < WORD
    ensures (a + (x - x % l)) % WORD == a % WORD <==> x < l
  {
    if x >= l { ModAdd(a, x - x % l, WORD); }
  }

  /**
   Without a refill shift a read's line starts where the read does exactly if its address is a multiple
   of the line size.
   */
  lemma LineStartIff(c: Config, addr: nat)
    requires Proper(c) && c.factor == 1 && addr + c.addOffset < WORD
    ensures LineAddr(c, TagOf(c, addr)) == addr + c.addOffset <==> addr % c.lineSize == 0
  {
    hide RefillAddr, TagOf;
    LineBase(c, addr);
    var q := addr / c.lineSize;
    RefillOf(c, q * c.lineSize, q * c.lineSize * c.factor, 0);
    SmallMod(q * c.lineSize + c.addOffset);
  }

  lemma SmallMod(x: nat)
    requires x < WORD
    ensures x % WORD == x
  {
  }

  /**
   A write leaves its line in agreement with memory exactly if it writes what memory holds: nothing is
   written back.
   */
  lemma WriteAgreesIff(c: Config, s: Cache, mem: Memory, i: nat, req: Req)
    requires Sized(c, s) && Placed(c, s.lines) && i < |s.lines| && req.isWrite && req.data.Some?
    requires |req.data.value| <= c.lineSize
    requires s.lines[i].tag != INVALID && s.lines[i].data == MemLine(c, mem, LineAddr(c, s.lines[i].tag))
    ensures var line := Serve(s, i, req).cache.lines[i];
      line.data == MemLine(c, mem, LineAddr(c, line.tag)) <==>
      req.data.value == MemLine(c, mem, LineAddr(c, s.lines[i].tag))[..|req.data.value|]
  {
    hide MemLine, LineAddr;
    var d := req.data.value;
    var m := MemLine(c, mem, LineAddr(c, s.lines[i].tag));
    assert Serve(s, i, req).cache.lines[i].data == d + m[|d|..];
    assert m == m[..|d|] + m[|d|..];
    if d + m[|d|..] == m { assert d == (d + m[|d|..])[..|d|]; }
  }

  /**
   The response to a write that missed does not write: the line ends up as if it had exactly if it held
   those bytes anyway.
   */
  lemma LateWriteIsLostIff(c: Config, s: Cache)
    requires Sized(c, s) && Placed(c, s.lines) && s.pending && s.queue != []
    requires s.queue[0].isWrite && s.queue[0].data.Some? && |s.queue[0].data.value| <= c.lineSize
    ensures var d := s.queue[0].data.value; var line := Respond(c, s).cache.lines[s.refillLine];
      line.data == CopyIn(line, d).data <==> d == s.lines[s.refillLine].data[..|d|]
  {
    var d := s.queue[0].data.value;
    var m := s.lines[s.refillLine].data;
    assert Respond(c, s).cache.lines[s.refillLine].data == m;
    assert m == m[..|d|] + m[|d|..];
    if m == d + m[|d|..] { assert m[..|d|] == d; }
  }

  /**
   The response for a request without a buffer leaves the victim's old tag on the new bytes: the line
   still agrees exactly if it was empty or both lines hold the same.
   */
  lemma NoBufferAgreesIff(c: Config, s: Cache, mem: Memory)
    requires Sized(c, s) && s.pending && s.queue != [] && s.queue[0].data.None?
    requires s.lines[s.refillLine].data == MemLine(c, mem, s.refillAddr)
    ensures var line := Respond(c, s).cache.lines[s.refillLine];
      line.tag == s.lines[s.refillLine].tag
      && (line.data == MemLine(c, mem, LineAddr(c, line.tag)) <==>
          MemLine(c, mem, s.refillAddr) == MemLine(c, mem, LineAddr(c, s.lines[s.refillLine].tag)))
  {
    hide MemLine, LineAddr;
  }

  /** In an empty cache a request hits exactly if its tag is the one that marks empty lines. */
  lemma EmptyCacheHitIff(c: Config, req: Req)
    requires Proper(c)
    ensures HitLine(c, Start(c), req).Some? <==> TagOf(c, req.addr) == INVALID
  {
    hide Index, TagOf;
    FindWayIs(c, Start(c).lines, TagOf(c, req.addr), 0);
    if TagOf(c, req.addr) == INVALID {
      assert Start(c).lines[Index(c, SetOf(c, INVALID), 0)].tag == INVALID;
    }
  }
}
