/**
 The router's split loop on disjoint regions, byte by byte: when a request is forwarded completely, when
 every byte of it goes where that byte alone would, and when a failure can be hidden.
 */
module RouterBytes {
  import opened Wrappers
  import opened Arithmetic
  import opened RouterTree

  /** The byte lies in the error region. */
  predicate InError(error: Option<Region>, x: nat) {
    error.Some? && Contains(error.value, x)
  }

  /** All bytes up to `end` lie in the error region. */
  predicate ErrorTakes(error: Option<Region>, x: nat, end: nat) {
    error.Some? && error.value.base <= x && end <= error.value.base + error.value.size
  }

  /** Where a byte alone goes, in terms of the table. */
  lemma LookupOf(rs: seq<Region>, error: Option<Region>, default_: Option<Region>, x: nat, size: nat)
    requires Disjoint(rs) && size > 0
    ensures Lookup(TableOn(rs, error, default_), x, size) ==
      if Covered(rs, x) then Mapped(Scan(rs, x).value)
      else if ErrorTakes(error, x, x + size) then Nowhere
      else if default_.Some? then Default(default_.value) else Nowhere
  {
    LookupIsScan(rs, error, default_, x, size);
    hide Scan;
  }

  // ---------------------------------------------------------------- every byte in its place

  /** A byte of a piece goes to the target and the address that it alone would go to. */
  predicate ByteRight(t: Table, p: Piece, x: nat) {
    p.target == Lookup(t, x, 1) && !p.target.Nowhere? && p.address + (x - p.offset) == Forwarded(p.target.region, x)
  }

  ghost predicate AllBytesRight(t: Table, pieces: seq<Piece>) {
    forall p, x: nat :: p in pieces && p.offset <= x < p.offset + p.size ==> ByteRight(t, p, x)
  }

  /** Behind the first byte that is not mapped no byte is mapped or in the error region. */
  ghost predicate NothingBehind(rs: seq<Region>, error: Option<Region>, offset: nat, end: nat) {
    forall u: nat, x: nat :: offset <= u <= x < end && !Covered(rs, u) ==> !Covered(rs, x) && !InError(error, x)
  }

  lemma AddressMovesAlong(r: Region, offset: nat, x: nat)
    requires offset <= x
    ensures Forwarded(r, offset) + (x - offset) == Forwarded(r, x)
  {
  }

  /** The bytes of a piece of a mapped region are right. */
  lemma MappedPiece(rs: seq<Region>, error: Option<Region>, default_: Option<Region>, offset: nat, m: nat)
    requires Disjoint(rs) && Covered(rs, offset) && Contains(Scan(rs, offset).value, offset)
    requires offset + m <= Scan(rs, offset).value.base + Scan(rs, offset).value.size
    ensures var r := Scan(rs, offset).value;
      forall x: nat :: offset <= x < offset + m ==>
        Covered(rs, x) && ByteRight(TableOn(rs, error, default_), Piece(offset, m, Forwarded(r, offset), Mapped(r)), x)
  {
    hide Scan, Disjoint, Lookup, TableOn, Forwarded;
    var r := Scan(rs, offset).value;
    forall x: nat | offset <= x < offset + m
      ensures Covered(rs, x) &&
        ByteRight(TableOn(rs, error, default_), Piece(offset, m, Forwarded(r, offset), Mapped(r)), x)
    {
      ScanInRegion(rs, offset, x);
      LookupOf(rs, error, default_, x, 1);
      AddressMovesAlong(r, offset, x);
    }
  }

  /** The bytes that go to the default target are right exactly if none is mapped or in the error region. */
  lemma DefaultPieceIff(
      rs: seq<Region>, error: Option<Region>, default_: Option<Region>, offset: nat, size: nat)
    requires Disjoint(rs) && size > 0 && default_.Some? && !Covered(rs, offset)
    ensures var p := Piece(offset, size, Forwarded(default_.value, offset), Default(default_.value));
      AllBytesRight(TableOn(rs, error, default_), [p]) <==> NothingBehind(rs, error, offset, offset + size)
  {
    hide Disjoint, Lookup, TableOn, Forwarded, Covered;
    var t := TableOn(rs, error, default_);
    var p := Piece(offset, size, Forwarded(default_.value, offset), Default(default_.value));
    forall x: nat | offset <= x < offset + size
      ensures ByteRight(t, p, x) <==> !Covered(rs, x) && !InError(error, x)
    {
      LookupOf(rs, error, default_, x, 1);
      AddressMovesAlong(default_.value, offset, x);
    }
    assert p in [p];
  }

  // ---------------------------------------------------------------- one turn of the loop

  /** How much of the rest the next piece of a region takes: what is left of the region, cut down to 32 bits. */
  function Take(left: nat, size: nat): nat {
    if left % WORD <= size then left % WORD else size
  }

  /** How far it is from a mapped byte to the end of its region. */
  function Left(rs: seq<Region>, x: nat): int
    requires Covered(rs, x)
  {
    Scan(rs, x).value.base + Scan(rs, x).value.size - x
  }

  lemma ScanHolds(rs: seq<Region>, x: nat)
    requires Covered(rs, x)
    ensures Contains(Scan(rs, x).value, x) && Left(rs, x) > 0
  {
    ScanIs(rs, x);
  }

  lemma TakeIs(left: nat, size: nat)
    requires 0 < size < HALF && left > 0
    ensures var n := ToInt(left); (if n < 0 || n > size then ToInt(size) else n) == Take(left, size)
    ensures Take(left, size) <= left && (Take(left, size) == 0 <==> left % WORD == 0)
  {
  }

  /** The first turn, by what the first byte is. */
  lemma RouteIs(rs: seq<Region>, error: Option<Region>, default_: Option<Region>, offset: nat, size: nat)
    requires Disjoint(rs) && 0 < size < HALF
    ensures var t := TableOn(rs, error, default_); var all := Route(t, offset, size);
      if Covered(rs, offset) then
        Left(rs, offset) > 0 &&
        (if Left(rs, offset) % WORD == 0 then all == Routed([], Stuck)
         else
           var m := Take(Left(rs, offset), size); var r := Scan(rs, offset).value;
           0 < m <= size && offset + m <= r.base + r.size && Contains(r, offset) &&
           all == Route(t, offset + m, size - m).(pieces :=
             [Piece(offset, m, Forwarded(r, offset), Mapped(r))] + Route(t, offset + m, size - m).pieces))
      else if ErrorTakes(error, offset, offset + size) || default_.None? then all == Routed([], Rejected)
      else all == Routed([Piece(offset, size, Forwarded(default_.value, offset), Default(default_.value))], Complete)
  {
    hide Lookup, Disjoint, TableOn, Forwarded, ToInt, Scan;
    var t := TableOn(rs, error, default_);
    LookupOf(rs, error, default_, offset, size);
    LookupContains(t, offset, size);
    if Covered(rs, offset) {
      ScanHolds(rs, offset);
      TakeIs(Left(rs, offset), size);
    } else if !ErrorTakes(error, offset, offset + size) && default_.Some? {
      DefaultTakesTheRest(t, offset, size);
    }
  }

  // ---------------------------------------------------------------- the theorems

  lemma BytesRightCons(t: Table, p: Piece, rest: seq<Piece>)
    ensures AllBytesRight(t, [p] + rest) <==> AllBytesRight(t, [p]) && AllBytesRight(t, rest)
  {
    hide ByteRight;
    assert p in [p] && p in [p] + rest;
    assert forall q :: q in rest ==> q in [p] + rest;
  }

  lemma NoBytes(t: Table)
    ensures AllBytesRight(t, [])
  {
  }

  lemma NothingBehindLater(rs: seq<Region>, error: Option<Region>, offset: nat, next: nat, end: nat)
    requires offset <= next && forall x: nat :: offset <= x < next ==> Covered(rs, x)
    ensures NothingBehind(rs, error, offset, end) <==> NothingBehind(rs, error, next, end)
  {
    hide Covered, InError;
  }

  /**
   Main result: on disjoint regions every byte that is forwarded goes to the target and the address that
   it alone would go to exactly if the request is not completed, or nothing lies behind its first
   unmapped byte.
   */
  lemma {:induction false} BytesGoRightIff(
      rs: seq<Region>, error: Option<Region>, default_: Option<Region>, offset: nat, size: nat)
    requires Disjoint(rs) && size < HALF
    ensures var t := TableOn(rs, error, default_); var all := Route(t, offset, size);
      AllBytesRight(t, all.pieces) <==> all.ending != Complete || NothingBehind(rs, error, offset, offset + size)
    decreases size
  {
    hide Disjoint, Lookup, TableOn, Forwarded, Scan, AllBytesRight, NothingBehind, Route, Take, Left;
    var t := TableOn(rs, error, default_);
    NoBytes(t);
    if size == 0 {
      EmptyRoute(t, rs, error, offset);
    } else {
      RouteIs(rs, error, default_, offset, size);
      if Covered(rs, offset) {
        if Left(rs, offset) % WORD != 0 {
          var m := Take(Left(rs, offset), size);
          var r := Scan(rs, offset).value;
          MappedPiece(rs, error, default_, offset, m);
          PieceIsRight(t, Piece(offset, m, Forwarded(r, offset), Mapped(r)));
          BytesGoRightIff(rs, error, default_, offset + m, size - m);
          BytesRightCons(t, Piece(offset, m, Forwarded(r, offset), Mapped(r)), Route(t, offset + m, size - m).pieces);
          NothingBehindLater(rs, error, offset, offset + m, offset + size);
        }
      } else if !ErrorTakes(error, offset, offset + size) && default_.Some? {
        DefaultPieceIff(rs, error, default_, offset, size);
      }
    }
  }

  lemma PieceIsRight(t: Table, p: Piece)
    requires forall x: nat :: p.offset <= x < p.offset + p.size ==> ByteRight(t, p, x)
    ensures AllBytesRight(t, [p])
  {
    hide ByteRight;
  }

  lemma EmptyRoute(t: Table, rs: seq<Region>, error: Option<Region>, offset: nat)
    ensures Route(t, offset, 0) == Routed([], Complete) && NothingBehind(rs, error, offset, offset)
  {
  }

  /** Eight bytes of which the last four are mapped: all of them go to the default target. */
  lemma MappedBytesGoAstray()
    ensures var r := Region(4, 4, 0, 0x100); var t := TableOn([r], None, Some(Region(0, 0, 0, 0)));
      && Route(t, 0, 8) == Routed([Piece(0, 8, 0, Default(Region(0, 0, 0, 0)))], Complete)
      && Lookup(t, 4, 1) == Mapped(r) && !AllBytesRight(t, Route(t, 0, 8).pieces)
  {
    var r := Region(4, 4, 0, 0x100);
    var d := Some(Region(0, 0, 0, 0));
    var t := TableOn([r], None, d);
    assert [r][1..] == [] && Scan([], 0) == None && Scan([], 4) == None;
    assert Covered([r], 4) && !Covered([r], 0);
    RouteIs([r], None, d, 0, 8);
    LookupOf([r], None, d, 4, 1);
    BytesGoRightIff([r], None, d, 0, 8);
    assert !NothingBehind([r], None, 0, 8);
  }

  // ---------------------------------------------------------------- what is forwarded to its end

  /** All bytes up to `u` are mapped, and none lies a multiple of 2^32 before the end of its region. */
  ghost predicate Free(rs: seq<Region>, offset: nat, u: nat) {
    forall x: nat :: offset <= x < u ==> Covered(rs, x) && Left(rs, x) % WORD != 0
  }

  /** The rest of the request may start at `u`: nothing is left, or it goes to the default target. */
  predicate Ends(rs: seq<Region>, error: Option<Region>, default_: Option<Region>, u: nat, end: nat) {
    u == end || (u < end && !Covered(rs, u) && default_.Some? && !ErrorTakes(error, u, end))
  }

  ghost predicate Completes(rs: seq<Region>, error: Option<Region>, default_: Option<Region>, offset: nat, end: nat) {
    exists u: nat :: offset <= u && Free(rs, offset, u) && Ends(rs, error, default_, u, end)
  }

  /** Behind the first piece of a region the question is the same. */
  lemma CompletesLater(
      rs: seq<Region>, error: Option<Region>, default_: Option<Region>, offset: nat, next: nat, end: nat)
    requires offset <= next <= end && Free(rs, offset, next)
    ensures Completes(rs, error, default_, offset, end) <==> Completes(rs, error, default_, next, end)
  {
    hide Covered, Left;
    if u: nat :| offset <= u && Free(rs, offset, u) && Ends(rs, error, default_, u, end) {
      assert u >= next;
      assert Free(rs, next, u);
    }
    if u: nat :| next <= u && Free(rs, next, u) && Ends(rs, error, default_, u, end) {
      assert Free(rs, offset, u);
    }
  }

  /** The bytes of a piece are free. */
  lemma PieceIsFreeOf(rs: seq<Region>, offset: nat, size: nat)
    requires Disjoint(rs) && 0 < size < HALF && Covered(rs, offset)
    requires Left(rs, offset) > 0 && Left(rs, offset) % WORD != 0
    ensures Free(rs, offset, offset + Take(Left(rs, offset), size))
  {
    hide Scan, Disjoint, ToInt;
    ScanHolds(rs, offset);
    var left := Left(rs, offset);
    TakeIs(left, size);
    forall x: nat | offset <= x < offset + Take(left, size) ensures Covered(rs, x) && Left(rs, x) % WORD != 0 {
      ScanInRegion(rs, offset, x);
      PieceIsFree(left, size, x - offset);
    }
  }

  /** The first byte decides, where it is not free. */
  lemma CompletesAtOnce(
      rs: seq<Region>, error: Option<Region>, default_: Option<Region>, offset: nat, end: nat)
    requires offset < end
    ensures !Covered(rs, offset) ==>
      (Completes(rs, error, default_, offset, end) <==> default_.Some? && !ErrorTakes(error, offset, end))
    ensures Covered(rs, offset) && Left(rs, offset) % WORD == 0 ==> !Completes(rs, error, default_, offset, end)
  {
    hide Covered, Left, ErrorTakes;
    if !Covered(rs, offset) && default_.Some? && !ErrorTakes(error, offset, end) {
      assert Free(rs, offset, offset) && Ends(rs, error, default_, offset, end);
    }
    forall u: nat | offset < u && Free(rs, offset, u) ensures Covered(rs, offset) && Left(rs, offset) % WORD != 0 { }
  }

  /**
   On disjoint regions a request is forwarded to its end exactly if its bytes are mapped, none of them
   a multiple of 2^32 before the end of its region, up to the end or to one from which on the default
   target takes the rest.
   */
  lemma {:induction false} CompleteIff(
      rs: seq<Region>, error: Option<Region>, default_: Option<Region>, offset: nat, size: nat)
    requires Disjoint(rs) && size < HALF
    ensures Route(TableOn(rs, error, default_), offset, size).ending == Complete <==>
      Completes(rs, error, default_, offset, offset + size)
    decreases size
  {
    hide Disjoint, TableOn, Scan, Completes, Route, Take, Left, Forwarded, ErrorTakes;
    if size == 0 {
      EmptyRoute(TableOn(rs, error, default_), rs, error, offset);
      EndsHere(rs, error, default_, offset);
    } else {
      RouteIs(rs, error, default_, offset, size);
      CompletesAtOnce(rs, error, default_, offset, offset + size);
      if Covered(rs, offset) && Left(rs, offset) % WORD != 0 {
        var m := Take(Left(rs, offset), size);
        PieceIsFreeOf(rs, offset, size);
        CompletesLater(rs, error, default_, offset, offset + m, offset + size);
        CompleteIff(rs, error, default_, offset + m, size - m);
      }
    }
  }

  lemma EndsHere(rs: seq<Region>, error: Option<Region>, default_: Option<Region>, offset: nat)
    ensures Completes(rs, error, default_, offset, offset)
  {
    assert Free(rs, offset, offset) && Ends(rs, error, default_, offset, offset);
  }

  /**
   On disjoint regions some answers of the targets make a failed request look like a success exactly
   if it is forwarded to its end, its first byte is mapped, and the first piece, the rest of that
   byte's region cut down to 32 bits, ends before the request does.
   */
  lemma FailureIsHiddenIff(
      rs: seq<Region>, error: Option<Region>, default_: Option<Region>, offset: nat, size: nat)
    requires Disjoint(rs) && 0 < size < HALF
    ensures (exists answers: nat -> Status :: Hides(Route(TableOn(rs, error, default_), offset, size), answers)) <==>
      && Completes(rs, error, default_, offset, offset + size)
      && Covered(rs, offset) && Left(rs, offset) % WORD < size
  {
    hide Disjoint, TableOn, Scan, Completes, Route, Left, Hides, Forwarded, ErrorTakes;
    var t := TableOn(rs, error, default_);
    if Route(t, offset, size).ending == Stuck {
      StuckHidesNothing(Route(t, offset, size));
    } else {
      FailureCanBeHiddenIff(t, offset, size);
    }
    CompleteIff(rs, error, default_, offset, size);
    RouteIs(rs, error, default_, offset, size);
    if Covered(rs, offset) {
      var m := Take(Left(rs, offset), size);
      EmptyRoute(t, rs, error, offset + m);
      if m < size && Route(t, offset, size).ending == Complete { MorePieces(t, offset + m, size - m); }
    }
  }

  lemma StuckHidesNothing(r: Routed)
    requires r.ending == Stuck
    ensures forall answers: nat -> Status :: !Hides(r, answers)
  {
  }

  /** What is left of a completed request is in at least one more piece. */
  lemma MorePieces(t: Table, offset: nat, size: nat)
    requires size > 0 && Route(t, offset, size).ending == Complete
    ensures Route(t, offset, size).pieces != []
  {
    PiecesTile(t, offset, size);
  }

  // ---------------------------------------------------------------- what is rejected

  /** A byte that is reached over mapped ones belongs to nobody. */
  ghost predicate Rejects(rs: seq<Region>, error: Option<Region>, default_: Option<Region>, offset: nat, end: nat) {
    exists u: nat :: offset <= u < end && Free(rs, offset, u) && Nobodys(rs, error, default_, u, end)
  }

  predicate Nobodys(rs: seq<Region>, error: Option<Region>, default_: Option<Region>, u: nat, end: nat) {
    !Covered(rs, u) && (default_.None? || ErrorTakes(error, u, end))
  }

  lemma RejectsLater(
      rs: seq<Region>, error: Option<Region>, default_: Option<Region>, offset: nat, next: nat, end: nat)
    requires offset <= next <= end && Free(rs, offset, next)
    ensures Rejects(rs, error, default_, offset, end) <==> Rejects(rs, error, default_, next, end)
  {
    hide Covered, Left, ErrorTakes;
    if u: nat :| offset <= u < end && Free(rs, offset, u) && Nobodys(rs, error, default_, u, end) {
      assert u >= next;
      assert Free(rs, next, u);
    }
    if u: nat :| next <= u < end && Free(rs, next, u) && Nobodys(rs, error, default_, u, end) {
      assert Free(rs, offset, u);
    }
  }

  lemma RejectsAtOnce(
      rs: seq<Region>, error: Option<Region>, default_: Option<Region>, offset: nat, end: nat)
    requires offset < end
    ensures !Covered(rs, offset) ==>
      (Rejects(rs, error, default_, offset, end) <==> default_.None? || ErrorTakes(error, offset, end))
    ensures Covered(rs, offset) && Left(rs, offset) % WORD == 0 ==> !Rejects(rs, error, default_, offset, end)
  {
    hide Covered, Left, ErrorTakes;
    if !Covered(rs, offset) { assert Free(rs, offset, offset); }
    assert Nobodys(rs, error, default_, offset, end) <==>
      !Covered(rs, offset) && (default_.None? || ErrorTakes(error, offset, end));
    forall u: nat | offset < u && Free(rs, offset, u) ensures Covered(rs, offset) && Left(rs, offset) % WORD != 0 { }
  }

  /**
   On disjoint regions a request is reported as invalid by the router itself exactly if a byte that is
   reached over mapped ones is in no region and either the rest lies in the error region or there is no
   default target.
   */
  lemma {:induction false} RejectedIff(
      rs: seq<Region>, error: Option<Region>, default_: Option<Region>, offset: nat, size: nat)
    requires Disjoint(rs) && size < HALF
    ensures var r := Route(TableOn(rs, error, default_), offset, size);
      && (r.ending == Rejected <==> Rejects(rs, error, default_, offset, offset + size))
      && (r.ending == Rejected ==> forall answers: nat -> Status :: Reported(r, answers) == Invalid)
    decreases size
  {
    hide Disjoint, TableOn, Scan, Rejects, Route, Take, Left, Forwarded, ErrorTakes;
    if size == 0 {
      EmptyRoute(TableOn(rs, error, default_), rs, error, offset);
      NothingRejected(rs, error, default_, offset);
    } else {
      RouteIs(rs, error, default_, offset, size);
      RejectsAtOnce(rs, error, default_, offset, offset + size);
      if Covered(rs, offset) && Left(rs, offset) % WORD != 0 {
        var m := Take(Left(rs, offset), size);
        PieceIsFreeOf(rs, offset, size);
        RejectsLater(rs, error, default_, offset, offset + m, offset + size);
        RejectedIff(rs, error, default_, offset + m, size - m);
      }
    }
  }

  lemma NothingRejected(rs: seq<Region>, error: Option<Region>, default_: Option<Region>, offset: nat)
    ensures !Rejects(rs, error, default_, offset, offset)
  {
  }

  // ---------------------------------------------------------------- requests of any size

  /** A signed 32-bit number that differs by a multiple of 2^32; there is only one. */
  lemma ToIntIs(x: nat)
    ensures -HALF <= ToInt(x) < HALF && (x - ToInt(x)) % WORD == 0
  {
  }

  /** Where there is only the default target, a request is forwarded to its end exactly if it is below 2^31 bytes. */
  lemma DefaultCompletesIff(default_: Region, offset: nat, size: nat)
    ensures Route(Table(None, None, Some(default_)), offset, size).ending == Complete <==> size < HALF
    decreases size
  {
    var t := Table(None, None, Some(default_));
    if size > 0 {
      ToIntIs(size);
      var n := ToInt(size);
      if 0 < n < size {
        var rest := size - n;
        ToIntIs(rest);
        assert rest % WORD == 0 && ToInt(rest) == 0;
        assert Route(t, offset + n, rest).ending == Stuck;
      }
    }
  }
}
