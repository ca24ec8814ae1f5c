/**
 The hierarchical cache: an interleaver in front of several cache banks, each with its own lines, its
 own refill under way and its own queue, over one flat memory behind them all.
 */
module BankedCache {
  import opened Wrappers
  import opened Arithmetic
  import I = Interleaver
  import M = CacheModel

  /** The interleaver and the shape of its banks, one behind each port. */
  datatype Config = Config(map_: I.Config, sets: nat, ways: nat)

  /** Nothing is taken away but whole blocks; there is more than one bank, or a block is more than a byte. */
  ghost predicate Proper(c: Config) {
    && I.Proper(c.map_) && c.sets > 0 && c.ways > 0 && c.map_.removeOffset % I.Block(c.map_) == 0
    && I.Block(c.map_) * I.Ports(c.map_) > 1
  }

  function Bank(c: Config, port: nat): M.Config {
    I.BankConfig(c.map_, port, c.sets, c.ways)
  }

  type Banks = seq<M.Cache>

  /** One bank makes a step. */
  datatype Event = Event(port: nat, step: M.Step)

  ghost predicate CanDo(c: Config, s: Banks, e: Event)
    requires Proper(c)
  {
    e.port < |s| && M.CanStep(Bank(c, e.port), s[e.port], e.step) && M.CleanStep(Bank(c, e.port), e.step)
  }

  ghost function Next(c: Config, s: Banks, mem: M.Memory, e: Event): Banks
    requires Proper(c) && CanDo(c, s, e)
  {
    s[e.port := M.Next(Bank(c, e.port), s[e.port], mem, e.step)]
  }

  ghost predicate IsRun(c: Config, s: Banks, mem: M.Memory, events: seq<Event>)
    requires Proper(c)
    decreases |events|
  {
    events == [] || (CanDo(c, s, events[0]) && IsRun(c, Next(c, s, mem, events[0]), mem, events[1..]))
  }

  ghost function Run(c: Config, s: Banks, mem: M.Memory, events: seq<Event>): Banks
    requires Proper(c) && IsRun(c, s, mem, events)
    decreases |events|
  {
    if events == [] then s else Run(c, Next(c, s, mem, events[0]), mem, events[1..])
  }

  ghost function Start(c: Config): Banks
    requires Proper(c)
  {
    seq(I.Ports(c.map_), port requires 0 <= port => M.Start(Bank(c, port)))
  }

  // ---------------------------------------------------------------- every bank is right

  ghost predicate Inv(c: Config, s: Banks, mem: M.Memory)
    requires Proper(c)
  {
    |s| == I.Ports(c.map_) && forall port :: 0 <= port < |s| ==> M.Inv(Bank(c, port), s[port], mem)
  }

  lemma StartInv(c: Config, mem: M.Memory)
    requires Proper(c)
    ensures Inv(c, Start(c), mem)
  {
    hide M.Start, M.Inv, I.Ports;
    forall port | 0 <= port < I.Ports(c.map_) ensures M.Inv(Bank(c, port), Start(c)[port], mem) {
      M.StartInv(Bank(c, port), mem);
    }
  }

  lemma {:induction false} RunInv(c: Config, s: Banks, mem: M.Memory, events: seq<Event>)
    requires Proper(c) && Inv(c, s, mem) && IsRun(c, s, mem, events)
    ensures Inv(c, Run(c, s, mem, events), mem)
    decreases |events|
  {
    hide M.Inv, M.Next, M.CanStep, M.CleanStep, I.Ports, I.Block;
    if events != [] {
      var e := events[0];
      M.StepInv(Bank(c, e.port), s[e.port], mem, e.step);
      RunInv(c, Next(c, s, mem, e), mem, events[1..]);
    }
  }

  // ---------------------------------------------------------------- from a bank's line to flat memory

  function FlatBytes(mem: M.Memory, at: nat, size: nat): (r: seq<M.Byte>)
    ensures |r| == size
  {
    seq(size, i requires 0 <= i => mem(at + i))
  }

  /** A read of at most a block, from the place of an offset that starts a line. */
  predicate StartsLine(c: Config, port: nat, req: M.Req, at: nat) {
    at < M.WORD && at % I.Block(c.map_) == 0 && I.Split(c.map_, at) == I.Place(port, req.addr)
  }

  /** A line-aligned offset: the bank's local address, its tag, and the line that it stands for. */
  lemma LineIs(c: Config, at: nat)
    requires Proper(c) && at < M.WORD && at % I.Block(c.map_) == 0
    ensures var p := I.Split(c.map_, at); var b := Bank(c, p.port);
      && p.port < I.Ports(c.map_) && M.TagOf(b, p.local) != M.INVALID
      && M.RefillAddr(b, p.local) == at && M.LineAddr(b, M.TagOf(b, p.local)) == at
  {
    hide M.RefillAddr, I.Ports, I.Block, I.Split, I.Combine;
    var k := I.WordParts(c.map_);
    I.RefillIsIdentityIff(c.map_, at, c.sets, c.ways);
    var row, port, low := I.HasParts(c.map_, at);
    I.SplitParts(c.map_, row, port, low);
    RowIsSmall(row, port, low, I.Ports(c.map_), I.Block(c.map_), k);
    DivAdd(row, 0, I.Block(c.map_));
  }

  lemma RowIsSmall(row: nat, port: nat, low: nat, n: nat, b: nat, k: nat)
    requires port < n && low < b && b * n * k == M.WORD && I.Combine(row, port, low, n, b) < M.WORD && b * n > 1
    ensures row < M.INVALID
  {
    I.RowsOut(row, port, low, n, b);
    if row >= M.INVALID { Mult(2, b * n, row); }
    assert row * 2 <= row * (b * n);
  }

  /** What is right for the bank is right for the flat memory. */
  lemma RightIsFlat(c: Config, port: nat, mem: M.Memory, req: M.Req, at: nat, data: Option<seq<M.Byte>>)
    requires Proper(c) && StartsLine(c, port, req, at) && M.Right(Bank(c, port), mem, req, data)
    ensures data == Some(FlatBytes(mem, at, req.size))
  {
    hide M.RefillAddr, M.LineAddr, M.TagOf, I.Ports, I.Split;
    LineIs(c, at);
    assert M.MemLine(Bank(c, port), mem, at)[..req.size] == FlatBytes(mem, at, req.size);
  }

  lemma LineReadIsClean(c: Config, port: nat, req: M.Req, at: nat)
    requires Proper(c) && StartsLine(c, port, req, at) && req.size <= I.Block(c.map_)
    requires !req.isWrite && req.data.Some? && |req.data.value| == req.size
    ensures M.Clean(Bank(c, port), req) && port < I.Ports(c.map_)
  {
    hide M.RefillAddr, M.LineAddr, M.TagOf, I.Ports, I.Block, I.Split;
    LineIs(c, at);
  }

  // ---------------------------------------------------------------- a read from outside

  /** What a piece meets at its bank: the way the counter picks and what the refill port answers. */
  datatype Pick = Pick(way: nat, answer: M.Status)

  function PieceReq(p: I.Piece): M.Req {
    M.Req(0, p.local, false, p.size, Some(M.Zeros(p.size)))
  }

  ghost function AtBank(c: Config, s: Banks, mem: M.Memory, p: I.Piece, pick: Pick): M.Outcome
    requires Proper(c) && p.port < |s| && M.Sized(Bank(c, p.port), s[p.port]) && pick.way < c.ways
  {
    M.Access(Bank(c, p.port), s[p.port], mem, PieceReq(p), pick.way, pick.answer)
  }

  /** The bank answers a piece at once, and not out of the line that a refill is overwriting. */
  ghost predicate Served(c: Config, s: Banks, mem: M.Memory, p: I.Piece, pick: Pick)
    requires Proper(c)
  {
    && p.port < |s| && M.Sized(Bank(c, p.port), s[p.port]) && pick.way < c.ways
    && AtBank(c, s, mem, p, pick).status == M.Ok && AtBank(c, s, mem, p, pick).data.Some?
    && !(s[p.port].pending && M.HitLine(Bank(c, p.port), s[p.port], PieceReq(p)) == Some(s[p.port].refillLine))
  }

  ghost function AfterPiece(c: Config, s: Banks, mem: M.Memory, p: I.Piece, pick: Pick): Banks
    requires Proper(c) && Served(c, s, mem, p, pick)
  {
    s[p.port := AtBank(c, s, mem, p, pick).cache]
  }

  ghost predicate AllServed(c: Config, s: Banks, mem: M.Memory, ps: seq<I.Piece>, picks: seq<Pick>)
    requires Proper(c) && |picks| == |ps|
    decreases |ps|
  {
    ps == [] || (Served(c, s, mem, ps[0], picks[0]) &&
      AllServed(c, AfterPiece(c, s, mem, ps[0], picks[0]), mem, ps[1..], picks[1..]))
  }

  /** What the pieces put into the requester's buffer, one behind the other. */
  ghost function BytesRead(c: Config, s: Banks, mem: M.Memory, ps: seq<I.Piece>, picks: seq<Pick>): seq<M.Byte>
    requires Proper(c) && |picks| == |ps| && AllServed(c, s, mem, ps, picks)
    decreases |ps|
  {
    if ps == [] then []
    else
      AtBank(c, s, mem, ps[0], picks[0]).data.value +
        BytesRead(c, AfterPiece(c, s, mem, ps[0], picks[0]), mem, ps[1..], picks[1..])
  }

  lemma PieceIsRight(c: Config, s: Banks, mem: M.Memory, p: I.Piece, pick: Pick, at: nat)
    requires Proper(c) && Inv(c, s, mem) && Served(c, s, mem, p, pick)
    requires StartsLine(c, p.port, PieceReq(p), at) && p.size <= I.Block(c.map_)
    ensures AtBank(c, s, mem, p, pick).data.value == FlatBytes(mem, at, p.size)
    ensures Inv(c, AfterPiece(c, s, mem, p, pick), mem)
  {
    hide M.Inv, M.Core, M.HandleReq, M.HitLine, M.Right, M.Clean, M.Sized, I.Ports, I.Block, StartsLine;
    var b, t, req := Bank(c, p.port), s[p.port], PieceReq(p);
    LineReadIsClean(c, p.port, req, at);
    M.CoreGives(b, t, mem);
    M.AccessInv(b, t, mem, req, pick.way, pick.answer);
    M.HandleReqCore(b, t, mem, req, pick.way, pick.answer);
    RightIsFlat(c, p.port, mem, req, at, AtBank(c, s, mem, p, pick).data);
  }

  lemma {:induction false} PiecesAreRight(c: Config, s: Banks, mem: M.Memory, at: nat, size: nat, picks: seq<Pick>)
    requires Proper(c) && Inv(c, s, mem) && at % I.Block(c.map_) == 0 && at + size <= M.WORD
    requires |picks| == |I.Pieces(c.map_, at, 0, size)|
    requires AllServed(c, s, mem, I.Pieces(c.map_, at, 0, size), picks)
    ensures BytesRead(c, s, mem, I.Pieces(c.map_, at, 0, size), picks) == FlatBytes(mem, at, size)
    decreases size
  {
    hide Inv, AtBank, Served, AfterPiece, FlatBytes, I.Split, I.Block, I.PieceSize, I.Pieces;
    if size > 0 {
      var n := I.PieceSize(c.map_, 0, size);
      var ps := I.Pieces(c.map_, at, 0, size);
      PiecesGoOn(c, at, size);
      PieceIsRight(c, s, mem, ps[0], picks[0], at);
      if n < size {
        NextBlock(at, I.Block(c.map_));
        PiecesAreRight(c, AfterPiece(c, s, mem, ps[0], picks[0]), mem, at + n, size - n, picks[1..]);
      } else {
        I.PiecesEnd(c.map_, at + n, 0);
      }
      BytesJoin(mem, at, n, size);
    } else {
      I.PiecesEnd(c.map_, at, 0);
    }
  }

  lemma PiecesGoOn(c: Config, at: nat, size: nat)
    requires size > 0 && at + size <= M.WORD
    ensures var n := I.PieceSize(c.map_, 0, size); var ps := I.Pieces(c.map_, at, 0, size);
      && ps != [] && ps[0] == I.Piece(I.Split(c.map_, at).port, I.Split(c.map_, at).local, n)
      && ps[1..] == I.Pieces(c.map_, at + n, 0, size - n)
      && n <= I.Block(c.map_) && (n < size ==> n == I.Block(c.map_))
  {
    hide I.Split, I.Block;
  }

  lemma BytesJoin(mem: M.Memory, at: nat, n: nat, size: nat)
    requires n <= size
    ensures FlatBytes(mem, at, size) == FlatBytes(mem, at, n) + FlatBytes(mem, at + n, size - n)
  {
  }

  lemma NextBlock(at: nat, b: nat)
    requires b > 0 && at % b == 0
    ensures (at + b) % b == 0
  {
    assert at + b == (at / b + 1) * b + 0 by { assert at == at / b * b; }
    DivAdd(at / b + 1, 0, b);
  }

  lemma AlignedStays(c: Config, offset: nat)
    requires Proper(c) && offset % I.Block(c.map_) == 0
    ensures I.Removed(c.map_, offset) % I.Block(c.map_) == 0 && I.Align(c.map_, offset) == 0
  {
    hide I.Block;
    I.AlignedInStep(c.map_, offset);
  }

  /**
   Main result: after any run of the banks, a read that starts a line, however long, gets the bytes of
   the one flat memory if every bank it is spread over answers its pieces at once.
   */
  lemma LineReadIsFlat(
      c: Config, mem: M.Memory, events: seq<Event>, offset: nat, size: nat, picks: seq<Pick>)
    requires Proper(c) && IsRun(c, Start(c), mem, events)
    requires offset % I.Block(c.map_) == 0 && I.Removed(c.map_, offset) + size <= M.WORD
    requires |picks| == |I.PiecesOf(c.map_, offset, size)|
    requires AllServed(c, Run(c, Start(c), mem, events), mem, I.PiecesOf(c.map_, offset, size), picks)
    ensures BytesRead(c, Run(c, Start(c), mem, events), mem, I.PiecesOf(c.map_, offset, size), picks) ==
      FlatBytes(mem, I.Removed(c.map_, offset), size)
  {
    hide Inv, Start, Run, IsRun, AllServed, BytesRead, I.Removed, I.Align;
    StartInv(c, mem);
    RunInv(c, Start(c), mem, events);
    AlignedStays(c, offset);
    PiecesAreRight(c, Run(c, Start(c), mem, events), mem, I.Removed(c.map_, offset), size, picks);
  }

  // ---- when the banks do answer at once

  /** No bank waits for a refill. */
  ghost predicate Idle(c: Config, s: Banks)
    requires Proper(c)
  {
    |s| == I.Ports(c.map_) && forall port :: 0 <= port < |s| ==> M.Sized(Bank(c, port), s[port]) && !s[port].pending
  }

  predicate AtOnce(c: Config, picks: seq<Pick>) {
    forall k :: 0 <= k < |picks| ==> picks[k].way < c.ways && picks[k].answer == M.Ok
  }

  lemma IdleBankServes(b: M.Config, s: M.Cache, mem: M.Memory, req: M.Req, way: nat)
    requires M.Sized(b, s) && !s.pending && way < b.ways && !req.isWrite && req.data.Some?
    ensures var o := M.Access(b, s, mem, req, way, M.Ok);
      o.status == M.Ok && o.data.Some? && M.Sized(b, o.cache) && !o.cache.pending
  {
    hide M.HandleReq, M.HitLine, M.Index, M.TagOf, M.RefillAddr, M.MemLine, M.CopyOut;
    M.HandleReqIs(b, s, mem, req, way, M.Ok);
    M.HitInside(b, s, req);
  }

  lemma PlaceInside(c: Config, at: nat)
    ensures I.Split(c.map_, at).port < I.Ports(c.map_)
  {
    I.JoinUndoesSplit(c.map_, at);
  }

  /** While no bank waits and the refill port answers at once, so do the banks, whatever is read. */
  lemma {:induction false} IdleBanksServe(
      c: Config, s: Banks, mem: M.Memory, at: nat, align: nat, size: nat, picks: seq<Pick>)
    requires Proper(c) && Idle(c, s) && AtOnce(c, picks) && |picks| == |I.Pieces(c.map_, at, align, size)|
    ensures AllServed(c, s, mem, I.Pieces(c.map_, at, align, size), picks)
    decreases size
  {
    hide I.Split, I.Ports, I.Block, M.Sized, M.Access, M.HitLine, M.Zeros;
    if size > 0 {
      var n := I.PieceSize(c.map_, align, size);
      var ps := I.Pieces(c.map_, at, align, size);
      var p := ps[0];
      PlaceInside(c, at);
      IdleBankServes(Bank(c, p.port), s[p.port], mem, PieceReq(p), picks[0].way);
      assert Served(c, s, mem, p, picks[0]);
      assert ps[1..] == I.Pieces(c.map_, (at + n) % I.WORD, 0, size - n);
      IdleBanksServe(c, AfterPiece(c, s, mem, p, picks[0]), mem, (at + n) % I.WORD, 0, size - n, picks[1..]);
    }
  }

  /**
   So does a piece that waits: the one a bank's refill is for, when the refill responds, and the first
   one in the queue, when it is resumed.
   */
  lemma WaitingLineReadIsFlat(
      c: Config, mem: M.Memory, events: seq<Event>, port: nat, at: nat, way: nat, answer: M.Status)
    requires Proper(c) && IsRun(c, Start(c), mem, events) && way < c.ways
    requires port < |Run(c, Start(c), mem, events)| && var s := Run(c, Start(c), mem, events)[port];
      s.queue != [] && StartsLine(c, port, s.queue[0], at)
    ensures M.Sized(Bank(c, port), Run(c, Start(c), mem, events)[port])
    ensures var b := Bank(c, port); var s := Run(c, Start(c), mem, events)[port];
      var bytes := FlatBytes(mem, at, s.queue[0].size);
      && (s.pending && s.filled ==> M.Respond(b, s).data == Some(bytes))
      && (!s.pending && M.Resume(b, s, mem, way, answer).status == M.Ok ==>
            M.Resume(b, s, mem, way, answer).data == Some(bytes))
  {
    hide Start, Run, IsRun, StartsLine, M.Inv, M.Core, M.Resume, M.Respond, M.HitLine, M.Right, M.Sized;
    StartInv(c, mem);
    RunInv(c, Start(c), mem, events);
    var b, s := Bank(c, port), Run(c, Start(c), mem, events)[port];
    M.CoreGives(b, s, mem);
    M.CoreIs(b, s, mem);
    M.ResumeInv(b, s, mem, way, answer);
    if s.pending && s.filled {
      M.RespondInv(b, s, mem);
      RightIsFlat(c, port, mem, s.queue[0], at, M.Respond(b, s).data);
    } else if !s.pending && M.Resume(b, s, mem, way, answer).status == M.Ok {
      RightIsFlat(c, port, mem, s.queue[0], at, M.Resume(b, s, mem, way, answer).data);
    }
  }

  /**
   A first-level cache in front of the interleaver asks for whole lines of its own; all of these start a
   line of the banks exactly if the banks' lines divide its own.
   */
  lemma AsksForLinesIff(c: Config, front: M.Config)
    requires M.Proper(front) && front.factor == 1 && front.addOffset == 0 && front.lineSize < M.WORD
    ensures (forall addr: nat :: M.RefillAddr(front, addr) % I.Block(c.map_) == 0) <==>
      front.lineSize % I.Block(c.map_) == 0
  {
    hide I.Block, M.RefillAddr;
    var l, b := front.lineSize, I.Block(c.map_);
    forall addr: nat ensures M.RefillAddr(front, addr) == (addr % M.WORD) / l * l {
      AsksFor(front, addr);
    }
    if l % b == 0 {
      forall addr: nat ensures M.RefillAddr(front, addr) % b == 0 { Nested((addr % M.WORD) / l, l, b); }
    } else {
      M.SmallMod(l);
      DivAdd(1, 0, l);
      assert M.RefillAddr(front, l) == l;
    }
  }

  lemma AsksFor(front: M.Config, addr: nat)
    requires M.Proper(front) && front.factor == 1 && front.addOffset == 0
    ensures M.RefillAddr(front, addr) == (addr % M.WORD) / front.lineSize * front.lineSize
  {
    var x, l := addr % M.WORD, front.lineSize;
    hide M.RefillAddr;
    M.RefillUnfolds(front, addr);
    M.SmallMod(x);
    Whole(x, l);
    M.SmallMod(x - x % l);
  }

  lemma Whole(x: nat, l: nat)
    requires l > 0
    ensures 0 <= x - x % l == x / l * l
  {
  }

  lemma Nested(q: nat, l: nat, b: nat)
    requires b > 0 && l % b == 0
    ensures q * l % b == 0
  {
    assert l == l / b * b && q * l == (q * (l / b)) * b;
    DivAdd(q * (l / b), 0, b);
  }
}
