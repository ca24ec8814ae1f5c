/**
 Where the cache falls short of the memory behind it: for each kind of access that can leave it or its
 requester with the wrong bytes, the condition under which it never does, whatever the memory holds,
 and a run from the empty cache that shows it happen.
 */
module CacheFindings {
  import opened Wrappers
  import opened CacheModel

  /** The cache with the bytes its lines would have over another memory. */
  function Loaded(c: Config, s: Cache, mem: Memory): Cache
    requires Sized(c, s)
  {
    s.(lines := seq(|s.lines|, i requires 0 <= i < |s.lines| =>
      if s.pending && i == s.refillLine then
        if s.filled then s.lines[i].(data := MemLine(c, mem, s.refillAddr)) else s.lines[i]
      else if s.lines[i].tag != INVALID then s.lines[i].(data := MemLine(c, mem, LineAddr(c, s.lines[i].tag)))
      else s.lines[i]))
  }

  /** It is as right over that memory as it was over its own. */
  lemma LoadedInv(c: Config, s: Cache, mem: Memory, mem': Memory)
    requires Inv(c, s, mem)
    ensures Sized(c, s) && Inv(c, Loaded(c, s, mem'), mem')
  {
    hide LineAddr, MemLine, Clean, Ids, TagOf;
  }

  /** A memory that tells two addresses apart. */
  function Telling(b: nat): Memory {
    (a: nat) => if a == b then 1 else 0
  }

  lemma LinesDiffer(c: Config, a: nat, b: nat, n: nat)
    requires a != b && 0 < n <= c.lineSize
    ensures MemLine(c, Telling(b), a)[..n] != MemLine(c, Telling(b), b)[..n]
  {
    assert MemLine(c, Telling(b), a)[..n][0] != MemLine(c, Telling(b), b)[..n][0];
  }

  lemma SameHit(c: Config, s: Cache, s': Cache, req: Req)
    requires Sized(c, s) && Sized(c, s') && |s'.lines| == |s.lines| && forall i :: 0 <= i < |s.lines| ==>
      s'.lines[i].tag == s.lines[i].tag
    ensures HitLine(c, s', req) == HitLine(c, s, req)
  {
    hide Index, TagOf;
    SameWay(c, s.lines, s'.lines, TagOf(c, req.addr), 0);
  }

  lemma {:induction false} SameWay(c: Config, lines: seq<Line>, lines': seq<Line>, tag: nat, w: nat)
    requires Proper(c) && |lines| == |lines'| == c.sets * c.ways && w <= c.ways
    requires forall i :: 0 <= i < |lines| ==> lines'[i].tag == lines[i].tag
    ensures FindWay(c, lines', tag, w) == FindWay(c, lines, tag, w)
    decreases c.ways - w
  {
    hide Index;
    if w < c.ways { SameWay(c, lines, lines', tag, w + 1); }
  }

  /**
   A clean read that hits while a refill has put its bytes into the victim line is right over every
   memory exactly if it does not hit that line, or asks for nothing, or the two lines are the same
   part of memory.
   */
  lemma HitDuringRefillIsRightIff(c: Config, s: Cache, mem: Memory, req: Req, way: nat, answer: Status)
    requires Inv(c, s, mem) && Clean(c, req) && way < c.ways && s.pending && s.filled && HitLine(c, s, req).Some?
    ensures (forall mem': Memory :: ReadsRight(c, Loaded(c, s, mem'), mem', req, way, answer)) <==>
      HitLine(c, s, req) != Some(s.refillLine) || req.size == 0 || LineAddr(c, TagOf(c, req.addr)) == s.refillAddr
  {
    hide LineAddr, MemLine, Clean, Ids, TagOf, Inv, Loaded, HitLine, ReadsRight;
    LoadedInv(c, s, mem, mem);
    SizeOfClean(c, req);
    var a, b := s.refillAddr, LineAddr(c, TagOf(c, req.addr));
    forall mem': Memory ensures Sized(c, Loaded(c, s, mem')) &&
      (ReadsRight(c, Loaded(c, s, mem'), mem', req, way, answer) <==>
        HitLine(c, s, req) != Some(s.refillLine) || MemLine(c, mem', a)[..req.size] == MemLine(c, mem', b)[..req.size])
    {
      LoadedInv(c, s, mem, mem');
      ReadDuringRefill(c, s, mem, mem', req, way, answer);
    }
    if req.size > 0 && a != b {
      LinesDiffer(c, a, b, req.size);
      assert ReadsRight(c, Loaded(c, s, Telling(b)), Telling(b), req, way, answer) <==>
        HitLine(c, s, req) != Some(s.refillLine);
    }
  }

  ghost predicate ReadsRight(c: Config, s: Cache, mem: Memory, req: Req, way: nat, answer: Status) {
    Sized(c, s) && way < c.ways && Right(c, mem, req, Access(c, s, mem, req, way, answer).data)
  }

  lemma SizeOfClean(c: Config, req: Req)
    requires Proper(c) && Clean(c, req)
    ensures req.size <= c.lineSize
  {
  }

  lemma ReadDuringRefill(c: Config, s: Cache, mem: Memory, mem': Memory, req: Req, way: nat, answer: Status)
    requires Inv(c, s, mem) && Clean(c, req) && way < c.ways && s.pending && s.filled && HitLine(c, s, req).Some?
    ensures Sized(c, Loaded(c, s, mem')) && req.size <= c.lineSize
    ensures ReadsRight(c, Loaded(c, s, mem'), mem', req, way, answer) <==>
      HitLine(c, s, req) != Some(s.refillLine) ||
      MemLine(c, mem', s.refillAddr)[..req.size] == MemLine(c, mem', LineAddr(c, TagOf(c, req.addr)))[..req.size]
  {
    hide LineAddr, MemLine, TagOf, RefillAddr, HitLine, Access, Right, Inv, HandleReq;
    LoadedInv(c, s, mem, mem');
    var s' := Loaded(c, s, mem');
    SameHit(c, s, s', req);
    if HitLine(c, s, req) == Some(s.refillLine) {
      HitDuringRefillIff(c, s', mem', req, way, answer);
    } else {
      CoreGives(c, s', mem');
      HandleReqCore(c, s', mem', req, way, answer);
      HitIsServed(c, s', mem', req, way, answer);
    }
  }

  lemma HitIsServed(c: Config, s: Cache, mem: Memory, req: Req, way: nat, answer: Status)
    requires Sized(c, s) && way < c.ways && HitLine(c, s, req).Some?
    ensures HandleReq(c, s, mem, req, way, answer).status == Ok
    ensures Access(c, s, mem, req, way, answer) == HandleReq(c, s, mem, req, way, answer)
  {
    HandleReqIs(c, s, mem, req, way, answer);
    hide HandleReq, HitLine;
  }

  /**
   A write to a line keeps it in agreement with every memory exactly if it writes nothing: nothing is
   written back.
   */
  lemma WriteAlwaysAgreesIff(c: Config, s: Cache, i: nat, req: Req)
    requires Sized(c, s) && Placed(c, s.lines) && i < |s.lines| && s.lines[i].tag != INVALID
    requires req.isWrite && req.data.Some? && |req.data.value| <= c.lineSize
    ensures (forall mem: Memory :: WriteAgrees(c, s, mem, i, req)) <==> req.data.value == []
  {
    hide LineAddr, MemLine, Serve, WriteAgrees;
    var d, a := req.data.value, LineAddr(c, s.lines[i].tag);
    forall mem: Memory ensures WriteAgrees(c, s, mem, i, req) <==> d == MemLine(c, mem, a)[..|d|] {
      WriteAgreesOver(c, s, mem, i, req);
    }
    if d == [] {
      assert forall mem: Memory :: MemLine(c, mem, a)[..0] == [];
    } else {
      var other: Byte := if d[0] == 0 then 1 else 0;
      var mem: Memory := (x: nat) => other;
      Constant(c, other, a);
      assert MemLine(c, mem, a)[..|d|][0] == other;
      assert !WriteAgrees(c, s, mem, i, req);
    }
  }

  lemma Constant(c: Config, b: Byte, a: nat)
    requires c.lineSize > 0
    ensures MemLine(c, (x: nat) => b, a)[0] == b
  {
  }

  /** Over a memory whose bytes it holds, the line still holds them after the write. */
  ghost predicate WriteAgrees(c: Config, s: Cache, mem: Memory, i: nat, req: Req)
    requires Sized(c, s) && i < |s.lines|
  {
    var s' := s.(lines := s.lines[i := s.lines[i].(data := MemLine(c, mem, LineAddr(c, s.lines[i].tag)))]);
    var line := Serve(s', i, req).cache.lines[i];
    line.data == MemLine(c, mem, LineAddr(c, line.tag))
  }

  lemma WriteAgreesOver(c: Config, s: Cache, mem: Memory, i: nat, req: Req)
    requires Sized(c, s) && Placed(c, s.lines) && i < |s.lines| && s.lines[i].tag != INVALID
    requires req.isWrite && req.data.Some? && |req.data.value| <= c.lineSize
    ensures WriteAgrees(c, s, mem, i, req) <==>
      req.data.value == MemLine(c, mem, LineAddr(c, s.lines[i].tag))[..|req.data.value|]
  {
    hide LineAddr, MemLine, Serve;
    WriteAgreesIff(c, s.(lines := s.lines[i := s.lines[i].(data := MemLine(c, mem, LineAddr(c, s.lines[i].tag)))]),
      mem, i, req);
  }

  /** A write that misses is in the line after the response, whatever was fetched, exactly if it writes nothing. */
  lemma LateWriteIsKeptIff(c: Config, s: Cache)
    requires Sized(c, s) && Placed(c, s.lines) && s.pending && s.queue != []
    requires s.queue[0].isWrite && s.queue[0].data.Some? && |s.queue[0].data.value| <= c.lineSize
    ensures (forall mem: Memory :: LateWriteKept(c, s, mem)) <==> s.queue[0].data.value == []
  {
    hide LateWriteKept, MemLine;
    var d := s.queue[0].data.value;
    forall mem: Memory ensures LateWriteKept(c, s, mem) <==> d == MemLine(c, mem, s.refillAddr)[..|d|] {
      LateWriteOver(c, s, mem);
    }
    if d == [] {
      assert forall mem: Memory :: MemLine(c, mem, s.refillAddr)[..0] == [];
    } else {
      var other: Byte := if d[0] == 0 then 1 else 0;
      var mem: Memory := (x: nat) => other;
      Constant(c, other, s.refillAddr);
      assert MemLine(c, mem, s.refillAddr)[..|d|][0] == other;
      assert !LateWriteKept(c, s, mem);
    }
  }

  /** The refill writes, then responds to the write at the front of the queue: its bytes are in the line. */
  ghost predicate LateWriteKept(c: Config, s: Cache, mem: Memory)
    requires Sized(c, s) && s.pending && s.queue != [] && s.queue[0].data.Some?
  {
    var line := Respond(c, Fill(c, s, mem)).cache.lines[s.refillLine];
    line.data == CopyIn(line, s.queue[0].data.value).data
  }

  lemma LateWriteOver(c: Config, s: Cache, mem: Memory)
    requires Sized(c, s) && Placed(c, s.lines) && s.pending && s.queue != []
    requires s.queue[0].isWrite && s.queue[0].data.Some? && |s.queue[0].data.value| <= c.lineSize
    ensures LateWriteKept(c, s, mem) <==>
      s.queue[0].data.value == MemLine(c, mem, s.refillAddr)[..|s.queue[0].data.value|]
  {
    hide MemLine, Respond;
    LateWriteIsLostIff(c, Fill(c, s, mem));
  }

  /**
   The response to a request without a buffer leaves the victim's old tag on the new bytes. The line
   agrees with every memory exactly if it was empty or stood for the same part of memory.
   */
  lemma NoBufferAlwaysAgreesIff(c: Config, s: Cache)
    requires Sized(c, s) && s.pending && s.queue != [] && s.queue[0].data.None?
    ensures (forall mem: Memory :: NoBufferAgrees(c, s, mem)) <==>
      s.lines[s.refillLine].tag == INVALID || LineAddr(c, s.lines[s.refillLine].tag) == s.refillAddr
  {
    hide MemLine, LineAddr, NoBufferAgrees;
    var tag := s.lines[s.refillLine].tag;
    var a, b := s.refillAddr, LineAddr(c, tag);
    forall mem: Memory ensures NoBufferAgrees(c, s, mem) <==>
      tag == INVALID || MemLine(c, mem, a) == MemLine(c, mem, b) {
      NoBufferOver(c, s, mem);
    }
    if a != b {
      LinesDiffer(c, a, b, c.lineSize);
      assert NoBufferAgrees(c, s, Telling(b)) <==> tag == INVALID;
    }
  }

  ghost predicate NoBufferAgrees(c: Config, s: Cache, mem: Memory)
    requires Sized(c, s) && s.pending && s.queue != []
  {
    var line := Respond(c, Fill(c, s, mem)).cache.lines[s.refillLine];
    line.tag == INVALID || line.data == MemLine(c, mem, LineAddr(c, line.tag))
  }

  lemma NoBufferOver(c: Config, s: Cache, mem: Memory)
    requires Sized(c, s) && s.pending && s.queue != [] && s.queue[0].data.None?
    ensures var tag := s.lines[s.refillLine].tag; NoBufferAgrees(c, s, mem) <==>
      tag == INVALID || MemLine(c, mem, s.refillAddr) == MemLine(c, mem, LineAddr(c, tag))
  {
    hide MemLine, LineAddr, Respond;
    NoBufferAgreesIff(c, Fill(c, s, mem), mem);
  }

  // ---------------------------------------------------------------- runs that show it happen

  /** One line of one byte, and nothing moved or shifted. */
  const Tiny: Config := Config(1, 1, 1, 1, 0)

  function Read(addr: nat): Req {
    Req(0, addr, false, 1, Some([0]))
  }

  function Write(addr: nat, b: Byte): Req {
    Req(0, addr, true, 1, Some([b]))
  }

  function NoBuffer(addr: nat): Req {
    Req(0, addr, false, 1, None)
  }

  /** What the one line holds, and the queue. */
  function One(s: Cache): Line
    requires Sized(Tiny, s)
  {
    s.lines[0]
  }

  lemma TinyAddresses(addr: nat)
    requires addr < 2
    ensures TagOf(Tiny, addr) == addr && RefillAddr(Tiny, addr) == addr && LineAddr(Tiny, addr) == addr
    ensures SetOf(Tiny, addr) == 0 && Index(Tiny, 0, 0) == 0
  {
  }

  lemma TinyHit(s: Cache, req: Req)
    requires Sized(Tiny, s) && req.addr < 2
    ensures HitLine(Tiny, s, req) == if One(s).tag == req.addr then Some(0) else None
  {
    hide TagOf, Index;
    TinyAddresses(req.addr);
    assert FindWay(Tiny, s.lines, req.addr, 1) == 1;
  }

  /** An access when no refill is under way. */
  lemma TinyAccess(s: Cache, mem: Memory, req: Req, answer: Status)
    requires Sized(Tiny, s) && req.addr < 2 && !s.pending && answer != Invalid
    ensures var r := Access(Tiny, s, mem, req, 0, answer).cache;
      if One(s).tag == req.addr then r == Serve(s, 0, req).cache
      else if answer == Ok then r == Serve(s.(lines := [Line(req.addr, [mem(req.addr)])]), 0, req).cache
      else r == s.(queue := [req] + s.queue, pending := true, refillLine := 0,
        refillTag := req.addr, refillAddr := req.addr,
                   filled := false, accepted := s.accepted + [req.id])
  {
    hide TagOf, Index, RefillAddr, HitLine, FindWay;
    TinyAddresses(req.addr);
    TinyHit(s, req);
    HandleReqIs(Tiny, s, mem, req, 0, answer);
    assert MemLine(Tiny, mem, req.addr) == [mem(req.addr)];
    assert s.lines[0 := Line(req.addr, [mem(req.addr)])] == [Line(req.addr, [mem(req.addr)])];
  }

  lemma RunCons(c: Config, s: Cache, mem: Memory, x: Step, steps: seq<Step>)
    requires Proper(c) && CanStep(c, s, x)
    ensures IsRun(c, s, mem, [x] + steps) <==> IsRun(c, Next(c, s, mem, x), mem, steps)
    ensures IsRun(c, Next(c, s, mem, x), mem, steps) ==>
      Run(c, s, mem, [x] + steps) == Run(c, Next(c, s, mem, x), mem, steps)
  {
    assert ([x] + steps)[1..] == steps;
  }

  lemma RunNil(c: Config, s: Cache, mem: Memory)
    requires Proper(c)
    ensures IsRun(c, s, mem, []) && Run(c, s, mem, []) == s
  {
  }

  /** A read and then one that makes its line the victim of a refill, which has written its byte. */
  function VictimRun(): seq<Step> {
    [Request(Read(0), 0, Ok)] + ([Request(Read(1), 0, Pending)] + ([RefillWrites] + []))
  }

  /** The first read again now gets the other address's byte. */
  lemma HitDuringRefillIsReachable(mem: Memory)
    ensures IsRun(Tiny, Start(Tiny), mem, VictimRun()) && CleanSteps(Tiny, VictimRun()) && Clean(Tiny, Read(0))
    ensures var s := Run(Tiny, Start(Tiny), mem, VictimRun());
      && Sized(Tiny, s) && s.pending && s.filled && HitLine(Tiny, s, Read(0)) == Some(s.refillLine)
      && (Right(Tiny, mem, Read(0), Access(Tiny, s, mem, Read(0), 0, Ok).data) <==> mem(0) == mem(1))
  {
    hide TagOf, Index, RefillAddr, LineAddr, HitLine, FindWay, Access, IsRun, Run;
    var s0 := Start(Tiny);
    TinyAddresses(0);
    TinyAddresses(1);
    var s1 := Next(Tiny, s0, mem, Request(Read(0), 0, Ok));
    TinyAccess(s0, mem, Read(0), Ok);
    var s2 := Next(Tiny, s1, mem, Request(Read(1), 0, Pending));
    TinyAccess(s1, mem, Read(1), Pending);
    var s3 := Next(Tiny, s2, mem, RefillWrites);
    RunCons(Tiny, s0, mem, Request(Read(0), 0, Ok), [Request(Read(1), 0, Pending)] + ([RefillWrites] + []));
    RunCons(Tiny, s1, mem, Request(Read(1), 0, Pending), [RefillWrites] + []);
    RunCons(Tiny, s2, mem, RefillWrites, []);
    RunNil(Tiny, s3, mem);
    TinyHit(s3, Read(0));
    assert MemLine(Tiny, mem, 1) == [mem(1)] && MemLine(Tiny, mem, 0) == [mem(0)];
    HandleReqIs(Tiny, s3, mem, Read(0), 0, Ok);
    HitIsServed(Tiny, s3, mem, Read(0), 0, Ok);
    assert [mem(1)][..1] == [mem(1)] && [mem(0)][..1] == [mem(0)];
  }

  /** A read and a write of the same address. */
  function WriteRun(b: Byte): seq<Step> {
    [Request(Read(0), 0, Ok)] + ([Request(Write(0, b), 0, Ok)] + [])
  }

  /** After the write the line agrees with memory only if memory held the byte before. */
  lemma DisagreementIsReachable(mem: Memory, b: Byte)
    ensures IsRun(Tiny, Start(Tiny), mem, WriteRun(b))
    ensures Agrees(Tiny, Run(Tiny, Start(Tiny), mem, WriteRun(b)), mem) <==> mem(0) == b
  {
    hide TagOf, Index, RefillAddr, LineAddr, HitLine, FindWay, Access, IsRun, Run;
    var s0 := Start(Tiny);
    TinyAddresses(0);
    var s1 := Next(Tiny, s0, mem, Request(Read(0), 0, Ok));
    TinyAccess(s0, mem, Read(0), Ok);
    var s2 := Next(Tiny, s1, mem, Request(Write(0, b), 0, Ok));
    TinyAccess(s1, mem, Write(0, b), Ok);
    RunCons(Tiny, s0, mem, Request(Read(0), 0, Ok), [Request(Write(0, b), 0, Ok)] + []);
    RunCons(Tiny, s1, mem, Request(Write(0, b), 0, Ok), []);
    RunNil(Tiny, s2, mem);
    assert s1.lines == [Line(0, [mem(0)])];
    assert CopyIn(Line(0, [mem(0)]), [b]).data == [b];
    assert s2.lines == [Line(0, [b])] && s2.lines[0] == Line(0, [b]) && !s2.pending;
    assert [b] == [mem(0)] <==> [b][0] == [mem(0)][0];
    assert MemLine(Tiny, mem, 0) == [mem(0)];
  }

  /** A write that misses, and the response to its refill. */
  function LateWriteRun(b: Byte): seq<Step> {
    [Request(Write(0, b), 0, Pending)] + ([RefillWrites] + ([RefillResponds] + []))
  }

  /** The line ends up with memory's byte, not with the one written, although the write was answered. */
  lemma LostWriteIsReachable(mem: Memory, b: Byte)
    ensures IsRun(Tiny, Start(Tiny), mem, LateWriteRun(b))
    ensures var s := Run(Tiny, Start(Tiny), mem, LateWriteRun(b)); s.lines == [Line(0, [mem(0)])] && s.answered == [0]
  {
    hide TagOf, Index, RefillAddr, LineAddr, HitLine, FindWay, Access, IsRun, Run;
    var s0 := Start(Tiny);
    TinyAddresses(0);
    var s1 := Next(Tiny, s0, mem, Request(Write(0, b), 0, Pending));
    TinyAccess(s0, mem, Write(0, b), Pending);
    var s2 := Next(Tiny, s1, mem, RefillWrites);
    var s3 := Next(Tiny, s2, mem, RefillResponds);
    RunCons(Tiny, s0, mem, Request(Write(0, b), 0, Pending), [RefillWrites] + ([RefillResponds] + []));
    RunCons(Tiny, s1, mem, RefillWrites, [RefillResponds] + []);
    RunCons(Tiny, s2, mem, RefillResponds, []);
    RunNil(Tiny, s3, mem);
    assert MemLine(Tiny, mem, 0) == [mem(0)];
  }

  /** A read, and then a request without a buffer that makes its line the victim of a refill. */
  function NoBufferRun(): seq<Step> {
    [Request(Read(0), 0, Ok)] + ([Request(NoBuffer(1), 0, Pending)] + ([RefillWrites] + ([RefillResponds] + [])))
  }

  /** The line keeps its old tag on the other address's byte. */
  lemma OldTagIsReachable(mem: Memory)
    ensures IsRun(Tiny, Start(Tiny), mem, NoBufferRun())
    ensures var s := Run(Tiny, Start(Tiny), mem, NoBufferRun());
      s.lines == [Line(0, [mem(1)])] && !s.pending && (Agrees(Tiny, s, mem) <==> mem(0) == mem(1))
  {
    hide TagOf, Index, RefillAddr, LineAddr, HitLine, FindWay, Access, IsRun, Run;
    var s0 := Start(Tiny);
    TinyAddresses(0);
    TinyAddresses(1);
    var s1 := Next(Tiny, s0, mem, Request(Read(0), 0, Ok));
    TinyAccess(s0, mem, Read(0), Ok);
    var s2 := Next(Tiny, s1, mem, Request(NoBuffer(1), 0, Pending));
    TinyAccess(s1, mem, NoBuffer(1), Pending);
    var s3 := Next(Tiny, s2, mem, RefillWrites);
    var s4 := Next(Tiny, s3, mem, RefillResponds);
    RunCons(Tiny, s0, mem, Request(Read(0), 0, Ok), [Request(NoBuffer(1), 0, Pending)] +
      ([RefillWrites] + ([RefillResponds] + [])));
    RunCons(Tiny, s1, mem, Request(NoBuffer(1), 0, Pending), [RefillWrites] + ([RefillResponds] + []));
    RunCons(Tiny, s2, mem, RefillWrites, [RefillResponds] + []);
    RunCons(Tiny, s3, mem, RefillResponds, []);
    RunNil(Tiny, s4, mem);
    assert s4.lines[0] == Line(0, [mem(1)]);
    assert [mem(1)] == [mem(0)] <==> [mem(1)][0] == [mem(0)][0];
    assert MemLine(Tiny, mem, 1) == [mem(1)] && MemLine(Tiny, mem, 0) == [mem(0)];
  }

  /** Two reads that miss; the port takes the first and refuses the second when its turn comes. */
  function DropRun(): seq<Step> {
    [Request(Read(0), 0, Pending)] + ([Request(Read(1).(id := 1), 0, Pending)] +
    ([RefillWrites] + ([RefillResponds] + ([FsmEvent(0, Invalid)] + []))))
  }

  /** The second one was taken on, and is neither answered nor held any more. */
  lemma DropIsReachable(mem: Memory)
    ensures IsRun(Tiny, Start(Tiny), mem, DropRun())
    ensures var s := Run(Tiny, Start(Tiny), mem, DropRun());
      s.accepted == [0, 1] && s.answered == [0] && s.dropped == [1] && s.queue == []
  {
    hide TagOf, Index, RefillAddr, LineAddr, HitLine, FindWay, IsRun, Run, HandleReq;
    var s0 := Start(Tiny);
    var second := Read(1).(id := 1);
    TinyAddresses(0);
    TinyAddresses(1);
    var s1 := Next(Tiny, s0, mem, Request(Read(0), 0, Pending));
    TinyAccess(s0, mem, Read(0), Pending);
    var s2 := Next(Tiny, s1, mem, Request(second, 0, Pending));
    TinyQueued(s1, mem, second);
    var s3 := Next(Tiny, s2, mem, RefillWrites);
    var s4 := Next(Tiny, s3, mem, RefillResponds);
    assert s2.queue[1..] == [second] && One(s4).tag == 0 && s4.scheduled;
    TinyHit(s4, second);
    var s5 := Next(Tiny, s4, mem, FsmEvent(0, Invalid));
    TinyRefused(s4, mem, second);
    RunCons(Tiny, s0, mem, Request(Read(0), 0, Pending),
      [Request(second, 0, Pending)] + ([RefillWrites] + ([RefillResponds] + ([FsmEvent(0, Invalid)] + []))));
    RunCons(Tiny, s1, mem, Request(second, 0, Pending),
            [RefillWrites] + ([RefillResponds] + ([FsmEvent(0, Invalid)] + [])));
    RunCons(Tiny, s2, mem, RefillWrites, [RefillResponds] + ([FsmEvent(0, Invalid)] + []));
    RunCons(Tiny, s3, mem, RefillResponds, [FsmEvent(0, Invalid)] + []);
    RunCons(Tiny, s4, mem, FsmEvent(0, Invalid), []);
    RunNil(Tiny, s5, mem);
  }

  /** A miss while a refill is under way. */
  lemma TinyQueued(s: Cache, mem: Memory, req: Req)
    requires Sized(Tiny, s) && req.addr < 2 && s.pending && One(s).tag != req.addr
    ensures Access(Tiny, s, mem, req, 0, Pending).cache ==
      s.(queue := s.queue + [req], accepted := s.accepted + [req.id])
  {
    TinyHit(s, req);
    HandleReqIs(Tiny, s, mem, req, 0, Pending);
    hide HandleReq, HitLine;
  }

  lemma TinyRefused(s: Cache, mem: Memory, req: Req)
    requires Sized(Tiny, s) && req.addr < 2 && !s.pending && One(s).tag != req.addr && s.queue == [req]
    ensures Resume(Tiny, s, mem, 0, Invalid).cache ==
      s.(scheduled := false, queue := [], dropped := s.dropped + [req.id])
  {
    var s0 := s.(scheduled := false, queue := []);
    assert s.queue[1..] == [];
    TinyHit(s0, req);
    HandleReqIs(Tiny, s0, mem, req, 0, Invalid);
    hide HandleReq, HitLine;
  }
}
