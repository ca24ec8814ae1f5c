/**
 Flushing one line of the cache: which lines it empties, and which changes of memory it makes room for.
 */
module CacheFlush {
  import opened Wrappers
  import opened Arithmetic
  import opened CacheModel

  /** No line has the address's tag any more; all other lines, and everything else, are as they were. */
  ghost predicate OnlyEmptied(s: Cache, s': Cache, tag: nat) {
    && s' == s.(lines := s'.lines) && |s'.lines| == |s.lines|
    && forall i :: 0 <= i < |s.lines| ==>
      s'.lines[i] == if s.lines[i].tag == tag then Line(INVALID, s.lines[i].data) else s.lines[i]
  }

  lemma FlushLineEmpties(c: Config, s: Cache, addr: nat)
    requires Sized(c, s) && Placed(c, s.lines) && TagOf(c, addr) != INVALID
    ensures OnlyEmptied(s, FlushLine(c, s, addr), TagOf(c, addr))
    ensures forall i :: 0 <= i < |s.lines| ==> FlushLine(c, s, addr).lines[i].tag != TagOf(c, addr)
  {
    hide TagOf;
  }

  /** The next access to the line misses. */
  lemma FlushedLineMisses(c: Config, s: Cache, addr: nat, req: Req)
    requires Sized(c, s) && Placed(c, s.lines)
    requires TagOf(c, req.addr) == TagOf(c, addr) != INVALID
    ensures Sized(c, FlushLine(c, s, addr)) && HitLine(c, FlushLine(c, s, addr), req) == None
  {
    hide TagOf, FlushLine, HitLine;
    FlushLineEmpties(c, s, addr);
    var s' := FlushLine(c, s, addr);
    EmptiedPlaced(c, s, s', TagOf(c, addr));
    HitLineIs(c, s', req);
  }

  lemma EmptiedPlaced(c: Config, s: Cache, s': Cache, tag: nat)
    requires Sized(c, s) && Placed(c, s.lines) && OnlyEmptied(s, s', tag)
    ensures Sized(c, s') && Placed(c, s'.lines)
  {
  }

  /** At the lines with another tag memory is what it was. */
  ghost predicate OthersSame(c: Config, s: Cache, mem: Memory, mem': Memory, tag: nat)
    requires Proper(c)
  {
    forall i :: 0 <= i < |s.lines| && s.lines[i].tag != INVALID && s.lines[i].tag != tag ==>
      MemLine(c, mem', LineAddr(c, s.lines[i].tag)) == MemLine(c, mem, LineAddr(c, s.lines[i].tag))
  }

  /**
   With no refill under way the cache is right for a changed memory after the flush exactly if nothing
   changed at the other lines it holds.
   */
  lemma FlushLineForgetsIff(c: Config, s: Cache, mem: Memory, mem': Memory, addr: nat)
    requires Inv(c, s, mem) && !s.pending && TagOf(c, addr) != INVALID
    ensures Inv(c, FlushLine(c, s, addr), mem') <==> OthersSame(c, s, mem, mem', TagOf(c, addr))
  {
    hide TagOf, LineAddr, MemLine, Clean, FlushLine, Ids;
    FlushLineEmpties(c, s, addr);
    var s' := FlushLine(c, s, addr);
    if OthersSame(c, s, mem, mem', TagOf(c, addr)) {
      assert Agrees(c, s', mem');
    }
  }

  // ---------------------------------------------------------------- memory that changes at one line

  /** The line lies within the 32-bit address space, after the refill shift and offset. */
  predicate InRange(c: Config, tag: nat) {
    tag * c.lineSize * c.factor + c.addOffset + c.lineSize <= WORD
  }

  lemma LineAddrIs(c: Config, tag: nat)
    requires Proper(c) && InRange(c, tag)
    ensures LineAddr(c, tag) == tag * c.lineSize * c.factor + c.addOffset
  {
    hide RefillAddr;
    var a := tag * c.lineSize * c.factor;
    Mult(1, c.factor, tag * c.lineSize);
    MultipleMod(tag, c.lineSize, c.factor);
    assert (a + 0) % c.lineSize == 0 % c.lineSize;
    RefillOf(c, tag * c.lineSize, a, 0);
    SmallMod(a + c.addOffset);
  }

  lemma LinesAreApart(c: Config, tag: nat, other: nat)
    requires Proper(c) && tag < other && InRange(c, tag) && InRange(c, other)
    ensures LineAddr(c, tag) + c.lineSize <= LineAddr(c, other)
  {
    hide LineAddr, InRange;
    LineAddrIs(c, tag);
    LineAddrIs(c, other);
    var w := c.lineSize * c.factor;
    Mult(1, c.factor, c.lineSize);
    Mult(tag + 1, other, w);
    Reorder(tag, c.lineSize, c.factor);
    Reorder(other, c.lineSize, c.factor);
    assert (tag + 1) * w == tag * w + w;
  }

  lemma Reorder(t: nat, l: nat, f: nat)
    ensures t * l * f == t * (l * f)
  {
  }

  /** Nothing but the bytes of that line differs. */
  ghost predicate SameBut(mem: Memory, mem': Memory, at: nat, size: nat) {
    forall x: nat :: x < at || at + size <= x ==> mem'(x) == mem(x)
  }

  lemma OtherLineSame(c: Config, mem: Memory, mem': Memory, tag: nat, other: nat)
    requires Proper(c) && tag != other && InRange(c, tag) && InRange(c, other)
    requires SameBut(mem, mem', LineAddr(c, tag), c.lineSize)
    ensures MemLine(c, mem', LineAddr(c, other)) == MemLine(c, mem, LineAddr(c, other))
  {
    hide LineAddr, InRange;
    if tag < other { LinesAreApart(c, tag, other); } else { LinesAreApart(c, other, tag); }
  }

  /** So a line may change in memory once it has been flushed and no refill is under way ... */
  lemma FlushLineForgets(c: Config, s: Cache, mem: Memory, mem': Memory, addr: nat)
    requires Inv(c, s, mem) && !s.pending && TagOf(c, addr) != INVALID && InRange(c, TagOf(c, addr))
    requires forall i :: 0 <= i < |s.lines| && s.lines[i].tag != INVALID ==> InRange(c, s.lines[i].tag)
    requires SameBut(mem, mem', LineAddr(c, TagOf(c, addr)), c.lineSize)
    ensures Inv(c, FlushLine(c, s, addr), mem')
  {
    var tag := TagOf(c, addr);
    hide TagOf, LineAddr, MemLine, InRange, SameBut, Inv, FlushLine;
    forall i | 0 <= i < |s.lines| && s.lines[i].tag != INVALID && s.lines[i].tag != tag
      ensures MemLine(c, mem', LineAddr(c, s.lines[i].tag)) == MemLine(c, mem, LineAddr(c, s.lines[i].tag))
    {
      OtherLineSame(c, mem, mem', tag, s.lines[i].tag);
    }
    FlushLineForgetsIff(c, s, mem, mem', addr);
  }

  /** ... and a read that is answered at once then gets the new bytes, of that line or of any other. */
  lemma FlushedReadIsFresh(
      c: Config, s: Cache, mem: Memory, mem': Memory, addr: nat, req: Req, way: nat, answer: Status)
    requires Inv(c, s, mem) && !s.pending && TagOf(c, addr) != INVALID && InRange(c, TagOf(c, addr))
    requires forall i :: 0 <= i < |s.lines| && s.lines[i].tag != INVALID ==> InRange(c, s.lines[i].tag)
    requires SameBut(mem, mem', LineAddr(c, TagOf(c, addr)), c.lineSize) && Clean(c, req) && way < c.ways
    ensures Sized(c, FlushLine(c, s, addr))
    ensures var o := Access(c, FlushLine(c, s, addr), mem', req, way, answer);
      o.status == Ok ==> Right(c, mem', req, o.data)
  {
    FlushLineForgets(c, s, mem, mem', addr);
    hide TagOf, LineAddr, InRange, SameBut, Inv, Core, Clean, HandleReq, HitLine, Right, FlushLine;
    var s' := FlushLine(c, s, addr);
    CoreGives(c, s', mem');
    HandleReqCore(c, s', mem', req, way, answer);
    StaysIdle(c, s, addr);
  }

  lemma StaysIdle(c: Config, s: Cache, addr: nat)
    requires Sized(c, s)
    ensures FlushLine(c, s, addr).pending == s.pending
  {
  }
}
