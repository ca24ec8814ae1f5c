/**
 The ring of characters between the socket and the packet codec: as a value, with what its operations
 mean for the characters in it, and as the program keeps it in an array.
 */
module RingBuffer {

  type Byte = bv8

  // ---------------------------------------------------------------- the ring as a value

  datatype State = State(buf: seq<Byte>, head: nat, tail: nat, full: bool)

  predicate Ok(r: State) {
    r.head < |r.buf| && r.tail < |r.buf| && (r.full ==> r.head == r.tail)
  }

  predicate Empty(r: State) {
    r.head == r.tail && !r.full
  }

  function SizeOf(r: State): nat
    requires Ok(r)
  {
    if r.full then |r.buf| else if r.head <= r.tail then r.tail - r.head else |r.buf| - r.head + r.tail
  }

  /** The characters in the ring, oldest first. */
  function Contents(r: State): (s: seq<Byte>)
    requires Ok(r)
  {
    if Empty(r) then [] else if r.head < r.tail then r.buf[r.head..r.tail] else r.buf[r.head..] + r.buf[..r.tail]
  }

  /** The contiguous characters at the front: all of them, unless the contents wrap around. */
  function Block(r: State): seq<Byte>
    requires Ok(r)
  {
    if Empty(r) then [] else if r.tail <= r.head then r.buf[r.head..] else r.buf[r.head..r.tail]
  }

  lemma BlockIsPrefix(r: State)
    requires Ok(r)
    ensures Block(r) <= Contents(r) && (Block(r) == [] <==> Contents(r) == []) && |Block(r)| <= |r.buf| - r.head
    ensures Block(r) == Contents(r) <==> r.head < r.tail || r.tail == 0 || Empty(r)
    ensures |Contents(r)| == SizeOf(r)
  {
  }

  /** An empty ring starts over before it is written to. */
  function Ready(r: State): State
    requires Ok(r)
  {
    if Empty(r) then r.(head := 0, tail := 0) else r
  }

  /** The length of the free block behind the contents. */
  function Room(r: State): nat
    requires Ok(r)
  {
    if r.full then 0 else if r.tail < r.head then r.head - r.tail else |r.buf| - r.tail
  }

  /** The next `l` cells behind the contents become contents. */
  function Grown(r: State, l: nat): State
    requires Ok(r) && l <= Room(r)
  {
    if l == 0 then r
    else
      var t := if r.tail + l >= |r.buf| then r.tail + l - |r.buf| else r.tail + l;
      r.(tail := t, full := r.full || t == r.head)
  }

  /** Characters are put into the free block, without a change to what counts as contents. */
  function Filled(r: State, s: seq<Byte>): State
    requires Ok(r) && |s| <= Room(r)
  {
    r.(buf := r.buf[..r.tail] + s + r.buf[r.tail + |s|..])
  }

  /** Characters arrive; there may be no more of them than the free block takes. */
  function Arrive(r: State, s: seq<Byte>): State
    requires Ok(r) && |s| <= Room(Ready(r))
  {
    Grown(Filled(Ready(r), s), |s|)
  }

  /** The first `l` characters are taken. */
  function Taken(r: State, l: nat): State
    requires Ok(r) && l <= |Block(r)|
  {
    if l == 0 then r else r.(head := if r.head + l >= |r.buf| then r.head + l - |r.buf| else r.head + l, full := false)
  }

  lemma FilledKeeps(r: State, s: seq<Byte>)
    requires Ok(r) && Ready(r) == r && |s| <= Room(r)
    ensures Ok(Filled(r, s)) && Contents(Filled(r, s)) == Contents(r) && Block(Filled(r, s)) == Block(r)
    ensures Room(Filled(r, s)) == Room(r) && Ready(Filled(r, s)) == Filled(r, s)
    ensures Filled(r, s).buf[r.tail..r.tail + |s|] == s
  {
    var b := Filled(r, s).buf;
    assert b[..r.tail] == r.buf[..r.tail];
    if r.tail < r.head || r.full { assert b[r.head..] == r.buf[r.head..]; }
    else { assert b[r.head..r.tail] == r.buf[r.head..r.tail]; }
  }

  /** Growing appends the cells behind the contents; what is at hand of wrapped contents stays what it was. */
  lemma GrownIs(r: State, l: nat)
    requires Ok(r) && Ready(r) == r && l <= Room(r)
    ensures Ok(Grown(r, l)) && Contents(Grown(r, l)) == Contents(r) + r.buf[r.tail..r.tail + l]
    ensures r.tail <= r.head && !Empty(r) ==> Block(Grown(r, l)) == Block(r)
  {
    var g := Grown(r, l);
    if l > 0 {
      if r.head <= r.tail {
        if g.tail == 0 {
          assert r.buf[..0] == [];
          assert Contents(g) == r.buf[r.head..];
        }
      } else {
        assert r.buf[..r.tail] + r.buf[r.tail..r.tail + l] == r.buf[..r.tail + l];
      }
    }
  }

  /** What arrives is appended. */
  lemma ArriveIs(r: State, s: seq<Byte>)
    requires Ok(r) && |s| <= Room(Ready(r))
    ensures Ok(Arrive(r, s)) && Contents(Arrive(r, s)) == Contents(r) + s
    ensures Arrive(r, s).head == Ready(r).head && |Arrive(r, s).buf| == |r.buf|
    ensures r.tail <= r.head && !Empty(r) ==> Block(Arrive(r, s)) == Block(r)
  {
    var r0 := Ready(r);
    FilledKeeps(r0, s);
    GrownIs(Filled(r0, s), |s|);
  }

  lemma TakenStraight(r: State, l: nat)
    requires Ok(r) && 0 < l <= |Block(r)| && r.head < r.tail
    ensures Ok(Taken(r, l)) && Contents(Taken(r, l)) == Contents(r)[l..] == Block(Taken(r, l))
  {
    assert r.buf[r.head..r.tail][l..] == r.buf[r.head + l..r.tail];
  }

  lemma TakenWrapped(r: State, l: nat)
    requires Ok(r) && 0 < l < |Block(r)| && r.tail <= r.head
    ensures Ok(Taken(r, l)) && l <= |Contents(r)| && Contents(Taken(r, l)) == Contents(r)[l..]
    ensures Block(r) == Contents(r) ==> Block(Taken(r, l)) == Contents(Taken(r, l))
  {
    var front, back := r.buf[r.head..], r.buf[..r.tail];
    assert Contents(r) == front + back && Block(r) == front;
    assert Taken(r, l) == r.(head := r.head + l, full := false);
    assert (front + back)[l..] == front[l..] + back && front[l..] == r.buf[r.head + l..];
    if r.tail > 0 { assert |front + back| > |front|; }
  }

  /** The whole front block is taken, and what had wrapped around is at the front. */
  lemma TakenToWrap(r: State)
    requires Ok(r) && Block(r) != [] && r.tail <= r.head
    ensures var l := |Block(r)|; Ok(Taken(r, l)) && l <= |Contents(r)| && Contents(Taken(r, l)) == Contents(r)[l..]
    ensures Block(Taken(r, |Block(r)|)) == Contents(Taken(r, |Block(r)|))
  {
    var front, back := r.buf[r.head..], r.buf[..r.tail];
    assert Contents(r) == front + back && Block(r) == front;
    assert Taken(r, |front|) == r.(head := 0, full := false);
    assert (front + back)[|front|..] == back == r.buf[0..r.tail];
  }

  lemma TakenIs(r: State, l: nat)
    requires Ok(r) && l <= |Block(r)|
    ensures Ok(Taken(r, l)) && l <= |Contents(r)| && Contents(Taken(r, l)) == Contents(r)[l..]
    ensures Block(r) == Contents(r) ==> Block(Taken(r, l)) == Contents(Taken(r, l))
  {
    BlockIsPrefix(r);
    if l > 0 {
      hide Contents, Block, Taken;
      if r.head < r.tail {
        TakenStraight(r, l);
      } else if l < |Block(r)| {
        TakenWrapped(r, l);
      } else {
        TakenToWrap(r);
      }
    }
  }

  // ---------------------------------------------------------------- copying

  function Min(a: nat, b: nat): nat {
    if a < b then a else b
  }

  /** What `write_copy` appends when the free space comes in two blocks: the second copy starts over. */
  function CopyResult(s: seq<Byte>, first: nat, second: nat): seq<Byte> {
    if |s| <= first then s else s[..first] + s[..Min(|s|, second)]
  }

  /**
   A copy that does not fit the first block is right only by chance: the second block must hold
   exactly the rest, and the rest must look like the beginning.
   */
  lemma CopyIsRightIff(s: seq<Byte>, first: nat, second: nat)
    requires first > 0
    ensures CopyResult(s, first, second) == s <==>
      |s| <= first || (first + second == |s| && s[first..] == s[..second])
  {
    if |s| > first {
      var r := CopyResult(s, first, second);
      assert |r| == first + Min(|s|, second);
      if first + second == |s| {
        assert r[first..] == s[..second] && s == s[..first] + s[first..];
      }
    }
  }

  /** The lengths of the free blocks: the one at hand, and the one that shows up once that is filled. */
  function FreeBlocks(r: State): (nat, nat)
    requires Ok(r)
  {
    var r0 := Ready(r);
    (Room(r0), if Empty(r) || r0.full || r0.tail < r0.head then 0 else r0.head)
  }

  /** Characters that look different from position `first` on. */
  function Stepped(n: nat, first: nat): (s: seq<Byte>)
    ensures |s| == n
  {
    seq(n, i => if i < first then 0 else 1)
  }

  /**
   Copying `n` characters is right whatever they are exactly if they fit the first block; and it copies a
   beginning of them, whatever they are, exactly if they fit or there is no second block.
   */
  lemma CopyAlwaysRightIff(n: nat, first: nat, second: nat)
    requires first > 0
    ensures (forall s: seq<Byte> | |s| == n :: CopyResult(s, first, second) == s) <==> n <= first
    ensures (forall s: seq<Byte> | |s| == n :: CopyResult(s, first, second) <= s) <==> n <= first || second == 0
  {
    if n > first {
      var s := Stepped(n, first);
      var r := CopyResult(s, first, second);
      if second == 0 {
        assert |r| == first;
      } else {
        assert r[first] == s[0] == 0 && s[first] == 1;
      }
    }
  }

  /** A new ring. */
  function Fresh(size: nat): State {
    State(seq(size, _ => 0), 0, 0, false)
  }

  /** The ring after `size - 1` characters have arrived and one of them has been taken. */
  function TurnedOn(size: nat, s: seq<Byte>): (r: State)
    requires size >= 3 && |s| == size - 1
    ensures Ok(r) && Contents(r) == s[1..]
  {
    ArriveIs(Fresh(size), s);
    BlockIsPrefix(Arrive(Fresh(size), s));
    TakenIs(Arrive(Fresh(size), s), 1);
    Taken(Arrive(Fresh(size), s), 1)
  }

  /**
   From there a copy of two different characters appends the first of them twice. A ring has a second
   block at all only if it holds three characters or more.
   */
  lemma CopyGoesWrong(size: nat, s: seq<Byte>, a: Byte, b: Byte)
    requires size >= 3 && |s| == size - 1
    ensures var blocks := FreeBlocks(TurnedOn(size, s)); CopyResult([a, b], blocks.0, blocks.1) == [a, a]
    ensures forall r: State | Ok(r) && |r.buf| < 3 :: FreeBlocks(r).1 == 0
  {
  }

  /** A copy that fills the first block makes the second one the first. */
  lemma NextBlock(r: State, s: seq<Byte>)
    requires Ok(r) && |s| == FreeBlocks(r).0
    ensures Ok(Arrive(r, s)) && FreeBlocks(Arrive(r, s)) == (FreeBlocks(r).1, 0)
  {
    ArriveIs(r, s);
  }

  lemma ArriveParts(r: State, s: seq<Byte>)
    requires Ok(r) && |s| <= Room(Ready(r))
    ensures Arrive(r, s) == Grown(Filled(Ready(r), s), |s|)
  {
  }

  // ---------------------------------------------------------------- the ring in its array

  class Ring {
    const buf: array<Byte>
    var head: nat
    var tail: nat
    var full: bool

    ghost function View(): State
      reads this, buf
    {
      State(buf[..], head, tail, full)
    }

    ghost predicate Valid()
      reads this, buf
    {
      Ok(View())
    }

    constructor (size: nat)
      requires size > 0
      ensures fresh(buf) && buf.Length == size && Valid() && Contents(View()) == []
    {
      buf := new Byte[size](_ => 0);
      head, tail, full := 0, 0, false;
    }

    method Reset()
      requires buf.Length > 0
      modifies this
      ensures Valid() && Contents(View()) == []
    {
      head, tail, full := 0, 0, false;
    }

    method IsEmpty() returns (empty: bool)
      ensures empty == Empty(View())
    {
      empty := head == tail && !full;
    }

    method Size() returns (size: nat)
      requires Valid()
      ensures size == |Contents(View())|
    {
      BlockIsPrefix(View());
      size := if full then buf.Length else if head <= tail then tail - head else buf.Length - head + tail;
    }

    /** The free block behind the contents: where it starts and how long it is. */
    method WriteBlock() returns (at: nat, len: nat)
      requires Valid()
      modifies this`head, this`tail
      ensures Valid() && View() == Ready(old(View())) && at == tail && len == Room(View())
    {
      if head == tail && !full { head, tail := 0, 0; }
      at := tail;
      len := if full then 0 else if tail < head then head - tail else buf.Length - tail;
    }

    /** Characters written into the free block become contents. */
    method CommitWrite(l: nat)
      requires Valid() && l <= Room(View())
      modifies this`tail, this`full
      ensures View() == Grown(old(View()), l)
    {
      if l > 0 {
        tail := tail + l;
        if tail >= buf.Length { tail := tail - buf.Length; }
        if tail == head { full := true; }
      }
    }

    /** The contiguous characters at the front. */
    method ReadBlock() returns (at: nat, len: nat)
      requires Valid()
      ensures at + len <= buf.Length && buf[at..at + len] == Block(View())
    {
      if head == tail && !full {
        at, len := 0, 0;
      } else if tail <= head {
        at, len := head, buf.Length - head;
      } else {
        at, len := head, tail - head;
      }
    }

    method CommitRead(l: nat)
      requires Valid() && l <= |Block(View())|
      modifies this`head, this`full
      ensures View() == Taken(old(View()), l)
    {
      BlockIsPrefix(View());
      if l > 0 {
        head := head + l;
        if head >= buf.Length { head := head - buf.Length; }
        full := false;
      }
    }

    method CopyInto(s: seq<Byte>, n: nat, at: nat)
      requires n <= |s| && at + n <= buf.Length
      modifies buf
      ensures buf[..] == old(buf[..])[..at] + s[..n] + old(buf[..])[at + n..]
    {
      for i := 0 to n
        invariant forall k :: 0 <= k < buf.Length ==> buf[k] == if at <= k < at + i then s[k - at] else old(buf[k])
      {
        buf[at + i] := s[i];
      }
    }

    /** One turn of the copying loop: a block is filled from the start of `s`. */
    method CopyBlock(s: seq<Byte>) returns (n: nat)
      requires Valid() && !full && s != []
      modifies this`head, this`tail, this`full, buf
      ensures n == Min(|s|, old(FreeBlocks(View()).0)) && n > 0
      ensures Valid() && View() == Arrive(old(View()), s[..n])
    {
      hide Contents, Block, Grown, Arrive;
      var at, len := WriteBlock();
      n := Min(|s|, len);
      ghost var r := View();
      FilledKeeps(r, s[..n]);
      CopyInto(s, n, at);
      assert View() == Filled(r, s[..n]);
      CommitWrite(n);
      ArriveIs(old(View()), s[..n]);
      ArriveParts(old(View()), s[..n]);
    }

    method WriteCopy(s: seq<Byte>) returns (copied: nat)
      requires Valid()
      modifies this, buf
      ensures Valid()
      ensures Contents(View()) == old(Contents(View())) +
        CopyResult(s, old(FreeBlocks(View()).0), old(FreeBlocks(View()).1))
      ensures copied == |CopyResult(s, old(FreeBlocks(View()).0), old(FreeBlocks(View()).1))|
    {
      hide Contents, CopyResult, Arrive, FreeBlocks;
      copied := 0;
      ghost var before, blocks := Contents(View()), FreeBlocks(View());
      ghost var turns, last := 0, 0;
      while copied < |s| && !full
        invariant Valid() && turns <= 2
        invariant turns == 0 ==> copied == 0 && Contents(View()) == before && FreeBlocks(View()) == blocks
        invariant turns == 1 ==> copied == Min(|s|, blocks.0) && Contents(View()) == before + s[..copied]
        invariant turns == 1 && copied == blocks.0 ==> FreeBlocks(View()) == (blocks.1, 0)
        invariant turns == 2 ==> blocks.0 < |s| && last == Min(|s|, blocks.1) && copied == blocks.0 + last
        invariant turns == 2 ==> Contents(View()) == before + (s[..blocks.0] + s[..last]) && (full || copied >= |s|)
        decreases 2 - turns
      {
        ghost var sofar, r := copied, View();
        var n := CopyBlock(s);
        RoomIs(r);
        ArriveIs(r, s[..n]);
        if n == FreeBlocks(r).0 {
          NextBlock(r, s[..n]);
          RoomIs(View());
        }
        assert turns == 1 ==> (before + s[..sofar]) + s[..n] == before + (s[..sofar] + s[..n]);
        copied := copied + n;
        turns, last := turns + 1, n;
      }
      if full { RoomIs(View()); }
      Copied(s, blocks, turns, last, copied, before, View());
    }
  }

  /** Only a full ring has no room. */
  lemma RoomIs(r: State)
    requires Ok(r)
    ensures FreeBlocks(r).0 == Room(Ready(r)) && (FreeBlocks(r).0 == 0 <==> r.full) &&
      (r.full ==> FreeBlocks(r) == (0, 0))
  {
  }

  /** The loop has taken at most two turns, and what they copied is what `CopyResult` says. */
  lemma Copied(s: seq<Byte>, blocks: (nat, nat), turns: nat, last: nat, copied: nat, before: seq<Byte>, r: State)
    requires Ok(r) && turns <= 2 && (copied < |s| ==> r.full)
    requires r.full ==> FreeBlocks(r) == (0, 0)
    requires turns == 0 ==> copied == 0 && Contents(r) == before && FreeBlocks(r) == blocks
    requires turns == 1 ==> copied == Min(|s|, blocks.0) && Contents(r) == before + s[..copied]
    requires turns == 1 && copied == blocks.0 ==> FreeBlocks(r) == (blocks.1, 0)
    requires turns == 2 ==> blocks.0 < |s| && last == Min(|s|, blocks.1) && copied == blocks.0 + last
    requires turns == 2 ==> Contents(r) == before + (s[..blocks.0] + s[..last])
    ensures Contents(r) == before + CopyResult(s, blocks.0, blocks.1) && copied == |CopyResult(s, blocks.0, blocks.1)|
  {
    hide Contents, FreeBlocks;
    if turns == 0 {
      assert CopyResult(s, blocks.0, blocks.1) == [];
      assert before + [] == before;
    } else if turns == 1 {
      assert s[..|s|] == s;
      assert r.full && copied < |s| ==> s[..copied] + s[..0] == s[..copied];
    }
  }
}
