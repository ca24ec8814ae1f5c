/**
 Address interleaving: one flat memory spread block by block over several banks, and the loop that
 splits a request. Offsets are 64-bit; masks and shifts are written as remainders and quotients by
 powers of two.
 */
module Interleaver {
  import opened Wrappers
  import opened Arithmetic
  import CacheModel

  /** `blockBits` is interleaving_bits. Both numbers of bits are used as shifts of a signed 32-bit one. */
  datatype Config = Config(blockBits: nat, stageBits: nat, removeOffset: nat)

  const WORD: int := 0x1_0000_0000_0000_0000

  ghost predicate Proper(c: Config) {
    c.blockBits + c.stageBits < 31 && c.removeOffset < WORD
  }

  function Block(c: Config): (n: nat)
    ensures n > 0
  {
    Pow2(c.blockBits)
  }

  function Ports(c: Config): (n: nat)
    ensures n > 0
  {
    Pow2(c.stageBits)
  }

  /** The number of stage bits when none is configured: the logarithm of the number of banks, rounded down. */
  function StageBits(banks: nat): nat {
    if banks < 2 then 0 else 1 + StageBits(banks / 2)
  }

  /** No port is out of range then; and every bank has one exactly if their number is a power of two. */
  lemma {:induction false} StageBitsFit(banks: nat)
    requires banks > 0
    ensures Pow2(StageBits(banks)) <= banks < 2 * Pow2(StageBits(banks))
    ensures Pow2(StageBits(banks)) == banks <==> exists k: nat :: Pow2(k) == banks
  {
    if banks >= 2 {
      StageBitsFit(banks / 2);
      if k: nat :| Pow2(k) == banks { assert k > 0 && Pow2(k - 1) == banks / 2; }
    } else {
      assert Pow2(0) == banks;
    }
  }

  // ---------------------------------------------------------------- the address map

  /** A bank and an offset in it. */
  datatype Place = Place(port: nat, local: nat)

  function Split(c: Config, offset: nat): Place
  {
    Place(offset / Block(c) % Ports(c), Floor(offset, Pow2(c.blockBits + c.stageBits)) / Ports(c) + offset % Block(c))
  }

  /** An offset from the number of its row, its bank and its offset in the block. */
  function Combine(row: nat, port: nat, low: nat, n: nat, b: nat): nat {
    (row * n + port) * b + low
  }

  /** The flat offset that a place in a bank stands for. */
  function Join(c: Config, p: Place): nat {
    JoinBy(p, Ports(c), Block(c))
  }

  function JoinBy(p: Place, n: nat, b: nat): nat
    requires b > 0
  {
    Combine(p.local / b, p.port, p.local % b, n, b)
  }

  lemma SplitParts(c: Config, row: nat, port: nat, low: nat)
    requires port < Ports(c) && low < Block(c)
    ensures Split(c, Combine(row, port, low, Ports(c), Block(c))) == Place(port, row * Block(c) + low)
  {
    hide Pow2, Floor, Block, Ports, Combine;
    WholeIs(c);
    PartsOf(row, port, low, Ports(c), Block(c));
  }

  lemma WholeIs(c: Config)
    ensures Pow2(c.blockBits + c.stageBits) == Block(c) * Ports(c)
  {
    Pow2Splits(c.blockBits, c.stageBits);
  }

  lemma PartsOf(row: nat, port: nat, low: nat, n: nat, b: nat)
    requires port < n && low < b
    ensures var x := Combine(row, port, low, n, b);
      b * n > 0 && x / b % n == port && x % b == low && Floor(x, b * n) / n == row * b
  {
    Mult(port + 1, n, b);
    RowsOut(row, port, low, n, b);
    DivAdd(row * n + port, low, b);
    DivAdd(row, port, n);
    DivAdd(row, port * b + low, b * n);
    DivAdd(row * b, 0, n);
    FloorIs(row, port * b + low, b * n);
  }

  lemma FloorIs(q: nat, r: nat, m: nat)
    requires r < m
    ensures Floor(q * m + r, m) == q * m
  {
    DivAdd(q, r, m);
  }

  lemma RowsOut(row: nat, port: nat, low: nat, n: nat, b: nat)
    ensures (row * n + port) * b + low == row * (b * n) + (port * b + low)
    ensures row * (b * n) == (row * b) * n
  {
  }

  lemma HasParts(c: Config, offset: nat) returns (row: nat, port: nat, low: nat)
    ensures port < Ports(c) && low < Block(c) && offset == Combine(row, port, low, Ports(c), Block(c))
    ensures row == offset / Block(c) / Ports(c) && low == offset % Block(c)
  {
    hide Pow2, Block, Ports, Combine;
    PartsBack(offset, Ports(c), Block(c));
    row, port, low := offset / Block(c) / Ports(c), offset / Block(c) % Ports(c), offset % Block(c);
  }

  lemma PartsBack(offset: nat, n: nat, b: nat)
    requires n > 0 && b > 0
    ensures offset / b % n < n && offset % b < b && Combine(offset / b / n, offset / b % n, offset % b, n, b) == offset
  {
    var q := offset / b;
    assert q == q / n * n + q % n && offset == q * b + offset % b;
  }

  /** No two offsets share a place ... */
  lemma JoinUndoesSplit(c: Config, offset: nat)
    ensures Split(c, offset).port < Ports(c) && Join(c, Split(c, offset)) == offset
  {
    var row, port, low := HasParts(c, offset);
    SplitParts(c, row, port, low);
    DivAdd(row, low, Block(c));
  }

  /** ... and every place in every bank stands for an offset: the map is a bijection. */
  lemma SplitUndoesJoin(c: Config, p: Place)
    requires p.port < Ports(c)
    ensures Split(c, Join(c, p)) == p
  {
    hide Pow2, Block, Ports, Combine;
    SplitParts(c, p.local / Block(c), p.port, p.local % Block(c));
    DivAdd(p.local / Block(c), p.local % Block(c), Block(c));
  }

  /** Within a block the bank stays the same and the local offset goes up with the flat one. */
  lemma SplitWithinBlock(c: Config, offset: nat, i: nat)
    requires offset % Block(c) + i < Block(c)
    ensures Split(c, offset + i) == Place(Split(c, offset).port, Split(c, offset).local + i)
  {
    hide Pow2, Block, Ports, Combine, Split;
    var row, port, low := HasParts(c, offset);
    SplitParts(c, row, port, low);
    SplitParts(c, row, port, low + i);
    CombineLow(row, port, low, Ports(c), Block(c));
    CombineLow(row, port, low + i, Ports(c), Block(c));
  }

  // ---------------------------------------------------------------- splitting a request

  /** A piece is sent to `port`, and takes up `size` bytes there from `local` on. */
  datatype Piece = Piece(port: nat, local: nat, size: nat)

  function Total(ps: seq<Piece>): nat {
    if ps == [] then 0 else ps[0].size + Total(ps[1..])
  }

  /** The first piece is `align` long, unless that is zero. Offsets wrap around. */
  function Pieces(c: Config, at: nat, align: nat, size: nat): (ps: seq<Piece>)
    decreases size
  {
    if size == 0 then []
    else
      var n := PieceSize(c, align, size);
      var place := Split(c, at);
      [Piece(place.port, place.local, n)] + Pieces(c, (at + n) % WORD, 0, size - n)
  }

  function PieceSize(c: Config, align: nat, size: nat): (n: nat)
    requires size > 0
    ensures 0 < n <= size
  {
    var loop := if align != 0 then align else Block(c);
    if loop > size then size else loop
  }

  /** How far it is to the next block. This is worked out before `removeOffset` is taken away. */
  function Align(c: Config, offset: nat): (n: nat)
    ensures n < Block(c)
  {
    if offset % Block(c) == 0 then 0 else Block(c) - offset % Block(c)
  }

  function Removed(c: Config, offset: nat): (r: nat)
    ensures r < WORD
  {
    (offset - c.removeOffset) % WORD
  }

  function PiecesOf(c: Config, offset: nat, size: nat): seq<Piece> {
    Pieces(c, Removed(c, offset), Align(c, offset), size)
  }

  /** Where byte `i` of the request goes. */
  function PlaceOf(ps: seq<Piece>, i: nat): Place
    requires i < Total(ps)
  {
    if i < ps[0].size then Place(ps[0].port, ps[0].local + i) else PlaceOf(ps[1..], i - ps[0].size)
  }

  lemma {:induction false} PiecesTile(c: Config, at: nat, align: nat, size: nat)
    ensures Total(Pieces(c, at, align, size)) == size
    decreases size
  {
    if size > 0 {
      var n := PieceSize(c, align, size);
      PiecesTile(c, (at + n) % WORD, 0, size - n);
      assert Pieces(c, at, align, size)[1..] == Pieces(c, (at + n) % WORD, 0, size - n);
    }
  }

  // ---------------------------------------------------------------- every byte in its place

  /** `align` leads to the next block. */
  predicate InStep(c: Config, at: nat, align: nat) {
    at < WORD && (at + align) % Block(c) == 0 && align < Block(c)
  }

  /** Every byte of a request goes to the place its flat offset has. */
  ghost predicate AllPlaced(c: Config, offset: nat, size: nat) {
    && Total(PiecesOf(c, offset, size)) == size
    && forall i: nat :: i < size ==> PlaceOf(PiecesOf(c, offset, size), i) == Split(c, (Removed(c, offset) + i) % WORD)
  }

  lemma {:induction false} WordIsPower()
    ensures Pow2(64) == WORD
  {
    hide Pow2;
    Pow2Of32();
    Pow2Splits(32, 32);
  }

  /** Wrapping around does not change an offset's place in its block. */
  lemma WrapKeepsLow(c: Config, x: int)
    requires Proper(c)
    ensures x % WORD % Block(c) == x % Block(c) && WORD % Block(c) == 0
  {
    hide Pow2;
    WordIsPower();
    Pow2Splits(c.blockBits, 64 - c.blockBits);
    WrapLow(x, Pow2(c.blockBits), Pow2(64 - c.blockBits));
  }

  lemma WrapLow(x: int, b: nat, d: nat)
    requires b > 0 && d > 0 && b * d == WORD
    ensures x % WORD % b == x % b && WORD % b == 0
  {
    ModOfProduct(x, b, d);
    ModUnique(WORD, b, d, 0);
  }

  lemma ModAdd(x: int, d: int, b: nat)
    requires b > 0
    ensures (x % b + d) % b == (x + d) % b
  {
    var q, e, f := x / b, (x % b + d) / b, (x % b + d) % b;
    assert x == b * q + x % b && x % b + d == b * e + f;
    Distribute(b, q, e);
    ModUnique(x + d, b, q + e, f);
  }

  lemma Distribute(b: int, q: int, r: int)
    ensures b * (q + r) == b * q + b * r
  {
  }

  /**
   A piece that starts in step ends in its block, and where it does not end the request the next one
   begins a block.
   */
  lemma StaysInStep(c: Config, at: nat, align: nat, size: nat)
    requires Proper(c) && InStep(c, at, align) && size > 0
    ensures var n := PieceSize(c, align, size); at % Block(c) + n <= Block(c) && at + n <= WORD
    ensures var n := PieceSize(c, align, size); n < size ==> InStep(c, (at + n) % WORD, 0)
  {
    hide Pow2;
    var b, n := Block(c), PieceSize(c, align, size);
    var q := at / b;
    assert at == b * q + at % b;
    if align == 0 { assert at % b == 0; } else { RoomIs(at, align, b); }
    WrapKeepsLow(c, at + n);
    WrapKeepsLow(c, WORD);
    EndFits(at, n, b);
    if n < size && align == 0 { ModUnique(at + b, b, q + 1, 0) by { Distribute(b, q, 1); } }
  }

  lemma RoomIs(at: nat, align: nat, b: nat)
    requires 0 < align < b && (at + align) % b == 0
    ensures at % b + align == b
  {
    ModAdd(at, align, b);
    SmallMod(at % b + align, b);
  }

  lemma SmallMod(x: nat, b: nat)
    requires 0 < x < 2 * b && x % b == 0
    ensures x == b
  {
    if x < b { ModUnique(x, b, 0, x); } else if x > b { ModUnique(x, b, 1, x - b); }
  }

  lemma EndFits(at: nat, n: nat, b: nat)
    requires b > 0 && WORD % b == 0 && at < WORD && at % b + n <= b
    ensures at + n <= WORD
  {
    var q, w := at / b, WORD / b;
    assert at == q * b + at % b && WORD == w * b;
    if q >= w { Mult(w, q, b); }
    Mult(q + 1, w, b);
  }

  lemma WrapOn(at: nat, n: nat, i: int)
    ensures ((at + n) % WORD + (i - n)) % WORD == (at + i) % WORD
  {
    ModAdd(at + n, i - n, WORD);
  }

  lemma {:induction false} PlacedInStep(c: Config, at: nat, align: nat, size: nat, i: nat)
    requires Proper(c) && InStep(c, at, align) && i < size
    ensures Total(Pieces(c, at, align, size)) == size
    ensures PlaceOf(Pieces(c, at, align, size), i) == Split(c, (at + i) % WORD)
    decreases size
  {
    hide Split, Pow2, InStep, PieceSize, Block;
    var n := PieceSize(c, align, size);
    var next := (at + n) % WORD;
    PiecesTile(c, at, align, size);
    StaysInStep(c, at, align, size);
    assert Pieces(c, at, align, size)[1..] == Pieces(c, next, 0, size - n);
    if i < n {
      SplitWithinBlock(c, at, i);
      ModUnique(at + i, WORD, 0, at + i);
    } else {
      PlacedInStep(c, next, 0, size - n, i - n);
      WrapOn(at, n, i);
    }
  }

  lemma {:induction false} StaysInBlocks(c: Config, at: nat, align: nat, size: nat)
    requires Proper(c) && InStep(c, at, align)
    ensures NoneCrosses(c, Pieces(c, at, align, size))
    decreases size
  {
    hide Split, Pow2, InStep;
    if size > 0 {
      var n := PieceSize(c, align, size);
      StaysInStep(c, at, align, size);
      LowIs(c, at);
      if n < size { StaysInBlocks(c, (at + n) % WORD, 0, size - n); }
    }
  }

  /** No piece crosses the end of a block. */
  predicate NoneCrosses(c: Config, ps: seq<Piece>) {
    forall k :: 0 <= k < |ps| ==> ps[k].local % Block(c) + ps[k].size <= Block(c)
  }

  lemma LowIs(c: Config, at: nat)
    ensures Split(c, at).local % Block(c) == at % Block(c)
  {
    hide Pow2;
    var row, port, low := HasParts(c, at);
    SplitParts(c, row, port, low);
    DivAdd(row, low, Block(c));
  }

  lemma AlignedInStep(c: Config, offset: nat)
    requires Proper(c) && c.removeOffset % Block(c) == 0
    ensures InStep(c, Removed(c, offset), Align(c, offset))
  {
    hide Pow2;
    var align := Align(c, offset);
    WrapKeepsLow(c, offset - c.removeOffset);
    ModAdd(Removed(c, offset), align, Block(c));
    ModAdd(offset - c.removeOffset, align, Block(c));
    NextBlock(offset, c.removeOffset, align, Block(c));
  }

  lemma NextBlock(offset: nat, remove: nat, align: nat, b: nat)
    requires b > 0 && remove % b == 0 && align == if offset % b == 0 then 0 else b - offset % b
    ensures (offset - remove + align) % b == 0
  {
    var q, k := offset / b, remove / b;
    assert offset == b * q + offset % b && remove == b * k;
    if align == 0 {
      assert offset - remove == b * (q - k);
      ModUnique(offset - remove, b, q - k, 0);
    } else {
      assert offset - remove + align == b * (q + 1 - k);
      ModUnique(offset - remove + align, b, q + 1 - k, 0);
    }
  }

  /** A request that goes wrong when `removeOffset` is not a multiple of the block size. */
  function Misaligned(c: Config): (offset: nat)
    requires Proper(c)
    ensures offset < WORD
  {
    (c.removeOffset - c.removeOffset % Block(c) + Block(c)) % WORD
  }

  /** One block at the misaligned offset is a single piece that starts in the middle of the first block. */
  lemma MisalignedPiece(c: Config)
    requires Proper(c) && c.removeOffset % Block(c) != 0
    ensures var m := Block(c) - c.removeOffset % Block(c);
      0 < m < Block(c) && m == Removed(c, Misaligned(c)) &&
        PiecesOf(c, Misaligned(c), Block(c)) == [Piece(0, m, Block(c))]
  {
    hide Pow2, Split;
    var b := Block(c);
    var r: int := c.removeOffset;
    var m := b - r % b;
    var q := r / b;
    assert r == b * q + r % b;
    assert r - r % b + b == b * (q + 1) + 0 by { Distribute(b, q, 1); }
    ModUnique(r + m, b, q + 1, 0);
    WrapKeepsLow(c, r + m);
    ModAdd(r + m, -r, WORD);
    BlockIsSmall(c);
    ModUnique(m, WORD, 0, m);
    SplitParts(c, 0, 0, m);
    FirstRow(0, m, Ports(c), b);
    OnePiece(c, m);
    assert Align(c, Misaligned(c)) == 0 && Removed(c, Misaligned(c)) == m;
  }

  lemma OnePiece(c: Config, at: nat)
    ensures Pieces(c, at, 0, Block(c)) == [Piece(Split(c, at).port, Split(c, at).local, Block(c))]
  {
    hide Split, Pow2;
    assert Pieces(c, (at + Block(c)) % WORD, 0, 0) == [];
  }

  lemma BlockIsSmall(c: Config)
    requires Proper(c)
    ensures Block(c) < WORD
  {
    WordIsPower();
    Pow2Splits(c.blockBits, 64 - c.blockBits);
    Mult(2, Pow2(64 - c.blockBits), Block(c));
  }

  lemma FirstRow(port: nat, low: nat, n: nat, b: nat)
    ensures Combine(0, port, low, n, b) == port * b + low
  {
  }

  /** No piece of any request crosses the end of a block exactly if `removeOffset` is a multiple of the block size. */
  lemma NoPieceCrossesIff(c: Config)
    requires Proper(c)
    ensures (forall offset: nat, size: nat :: offset < WORD ==> NoneCrosses(c, PiecesOf(c, offset, size)))
      <==> c.removeOffset % Block(c) == 0
  {
    hide Pow2, Split, Align, Removed, InStep, Misaligned, Pieces, NoneCrosses;
    if c.removeOffset % Block(c) == 0 {
      forall offset: nat, size: nat | offset < WORD ensures NoneCrosses(c, PiecesOf(c, offset, size)) {
        AlignedInStep(c, offset);
        StaysInBlocks(c, Removed(c, offset), Align(c, offset), size);
      }
    } else {
      MisalignedPiece(c);
      var m := Block(c) - c.removeOffset % Block(c);
      OnePieceCrosses(c, m);
      assert !NoneCrosses(c, PiecesOf(c, Misaligned(c), Block(c)));
    }
  }

  lemma OnePieceCrosses(c: Config, m: nat)
    requires 0 < m < Block(c)
    ensures !NoneCrosses(c, [Piece(0, m, Block(c))])
  {
    ModUnique(m, Block(c), 0, m);
    assert [Piece(0, m, Block(c))][0].local % Block(c) + Block(c) > Block(c);
  }

  /**
   Main result: with more than one bank, every byte of every request goes to the place of its flat
   offset exactly if `removeOffset` is a multiple of the block size.
   */
  lemma EveryByteIsPlacedIff(c: Config)
    requires Proper(c) && Ports(c) > 1
    ensures (forall offset: nat, size: nat :: offset < WORD ==> AllPlaced(c, offset, size)) <==>
      c.removeOffset % Block(c) == 0
  {
    hide Pow2, Split, AllPlaced;
    if c.removeOffset % Block(c) == 0 {
      forall offset: nat, size: nat | offset < WORD ensures AllPlaced(c, offset, size) {
        AlignedIsPlaced(c, offset, size);
      }
    } else {
      MisalignedIsMisplaced(c);
    }
  }

  lemma AlignedIsPlaced(c: Config, offset: nat, size: nat)
    requires Proper(c) && c.removeOffset % Block(c) == 0
    ensures AllPlaced(c, offset, size)
  {
    hide Pow2, Split, InStep, Pieces, PlaceOf;
    AlignedInStep(c, offset);
    PiecesTile(c, Removed(c, offset), Align(c, offset), size);
    forall i: nat | i < size ensures PlaceOf(PiecesOf(c, offset, size), i) ==
      Split(c, (Removed(c, offset) + i) % WORD) {
      PlacedInStep(c, Removed(c, offset), Align(c, offset), size, i);
    }
  }

  lemma MisalignedIsMisplaced(c: Config)
    requires Proper(c) && Ports(c) > 1 && c.removeOffset % Block(c) != 0
    ensures !AllPlaced(c, Misaligned(c), Block(c))
  {
    hide Pow2, Split, Pieces, Misaligned, Removed, Align;
    var b := Block(c);
    var m := b - c.removeOffset % b;
    MisalignedPiece(c);
    SplitParts(c, 0, 1, 0);
    FirstRow(1, 0, Ports(c), b);
    BlockIsSmall(c);
    ModUnique(b, WORD, 0, b);
    assert PlaceOf([Piece(0, m, b)], b - m) == Place(0, b);
    assert (Removed(c, Misaligned(c)) + (b - m)) % WORD == b;
    assert PlaceOf(PiecesOf(c, Misaligned(c), b), b - m) != Split(c, b);
  }

  // ---------------------------------------------------------------- one flat memory

  type Byte = CacheModel.Byte

  /** The contents of all banks. */
  type Banks = Place -> Byte

  /** The memory that a requester sees through the banks. */
  function Flat(c: Config, banks: Banks): nat -> Byte {
    (offset: nat) => banks(Split(c, offset))
  }

  predicate Covers(p: Piece, place: Place) {
    place.port == p.port && p.local <= place.local < p.local + p.size
  }

  /** The banks after the pieces of a write have been carried out in order. */
  function Written(banks: Banks, ps: seq<Piece>, data: seq<Byte>): Banks
    requires |data| == Total(ps)
    decreases |ps|
  {
    if ps == [] then banks
    else
      var p := ps[0];
      var banks' := (place: Place) => if Covers(p, place) then data[place.local - p.local] else banks(place);
      Written(banks', ps[1..], data[p.size..])
  }

  /** How far past `at` an offset is, going round at the end of the address space. */
  function Past(offset: nat, at: nat): (d: nat)
    ensures d < WORD
  {
    (offset - at) % WORD
  }

  /** What a write of `data` at `at` leaves in a flat memory. */
  function Overwritten(old_: Byte, data: seq<Byte>, d: nat): Byte {
    if d < |data| then data[d] else old_
  }

  /** A piece in step covers exactly the places of the offsets it is for. */
  lemma CoversIff(c: Config, at: nat, n: nat, offset: nat)
    requires Proper(c) && at % Block(c) + n <= Block(c) && at + n <= WORD && at < WORD && offset < WORD
    ensures var place := Split(c, offset); var start := Split(c, at);
      Covers(Piece(start.port, start.local, n), place) <==> Past(offset, at) < n
    ensures Past(offset, at) < n ==> Split(c, offset).local - Split(c, at).local == Past(offset, at)
  {
    hide Pow2, Split, Block;
    var place, start := Split(c, offset), Split(c, at);
    if Past(offset, at) < n {
      PastIs(offset, at, n);
      SplitWithinBlock(c, at, Past(offset, at));
    } else if Covers(Piece(start.port, start.local, n), place) {
      var i: nat := place.local - start.local;
      SplitWithinBlock(c, at, i);
      JoinUndoesSplit(c, at + i);
      JoinUndoesSplit(c, offset);
      ModUnique(i, WORD, 0, i);
      assert false;
    }
  }

  lemma PastIs(offset: nat, at: nat, n: nat)
    requires at + n <= WORD && offset < WORD && at < WORD && Past(offset, at) < n
    ensures offset == at + Past(offset, at)
  {
    if offset >= at { ModUnique(offset - at, WORD, 0, offset - at); }
      else { ModUnique(offset - at, WORD, -1, offset - at + WORD); }
  }

  lemma PastNext(offset: nat, at: nat, n: nat)
    requires 0 < n <= WORD
    ensures Past(offset, (at + n) % WORD) == if Past(offset, at) < n then Past(offset, at) - n + WORD
      else Past(offset, at) - n
  {
  }

  lemma {:induction false} WriteInStep(c: Config, banks: Banks, at: nat, align: nat, data: seq<Byte>, offset: nat)
    requires Proper(c) && InStep(c, at, align) && |data| <= WORD && offset < WORD
    ensures Total(Pieces(c, at, align, |data|)) == |data|
    ensures Written(banks, Pieces(c, at, align, |data|), data)(Split(c, offset)) ==
      Overwritten(banks(Split(c, offset)), data, Past(offset, at))
    decreases |data|
  {
    hide Split, Pow2, InStep, PieceSize, Block, Past;
    PiecesTile(c, at, align, |data|);
    if data != [] {
      var n := PieceSize(c, align, |data|);
      var next := (at + n) % WORD;
      var p := Piece(Split(c, at).port, Split(c, at).local, n);
      var banks' := (place: Place) => if Covers(p, place) then data[place.local - p.local] else banks(place);
      StaysInStep(c, at, align, |data|);
      assert Pieces(c, at, align, |data|) == [p] + Pieces(c, next, 0, |data| - n);
      assert Pieces(c, at, align, |data|)[1..] == Pieces(c, next, 0, |data| - n);
      CoversIff(c, at, n, offset);
      PastNext(offset, at, n);
      if n < |data| {
        WriteInStep(c, banks', next, 0, data[n..], offset);
      }
    }
  }

  /** Main result: with blocks in step, a write through the banks is a write to one flat memory. */
  lemma WriteIsFlat(c: Config, banks: Banks, offset: nat, data: seq<Byte>, x: nat)
    requires Proper(c) && c.removeOffset % Block(c) == 0 && |data| <= WORD && x < WORD
    ensures var ps := PiecesOf(c, offset, |data|);
      Total(ps) == |data|
      && Flat(c, Written(banks, ps, data))(x) == Overwritten(Flat(c, banks)(x), data, Past(x, Removed(c, offset)))
  {
    hide Split, Pow2, InStep, Written;
    AlignedInStep(c, offset);
    WriteInStep(c, banks, Removed(c, offset), Align(c, offset), data, x);
  }

  /** What a read through the banks gets. */
  function ReadBack(banks: Banks, ps: seq<Piece>): seq<Byte> {
    if ps == [] then []
    else seq(ps[0].size, i requires 0 <= i => banks(Place(ps[0].port, ps[0].local + i))) + ReadBack(banks, ps[1..])
  }

  lemma {:induction false} ReadsPlaces(banks: Banks, ps: seq<Piece>)
    ensures |ReadBack(banks, ps)| == Total(ps)
    ensures forall i: nat :: i < Total(ps) ==> ReadBack(banks, ps)[i] == banks(PlaceOf(ps, i))
  {
    if ps != [] { ReadsPlaces(banks, ps[1..]); }
  }

  /** A read through the banks is a read of the flat memory. */
  lemma ReadIsFlat(c: Config, banks: Banks, offset: nat, size: nat)
    requires Proper(c) && c.removeOffset % Block(c) == 0
    ensures |ReadBack(banks, PiecesOf(c, offset, size))| == size
    ensures forall i: nat :: i < size ==>
      ReadBack(banks, PiecesOf(c, offset, size))[i] == Flat(c, banks)((Removed(c, offset) + i) % WORD)
  {
    hide Split, Pow2, PiecesOf;
    AlignedIsPlaced(c, offset, size);
    ReadsPlaces(banks, PiecesOf(c, offset, size));
  }

  // ---------------------------------------------------------------- the loop

  datatype Status = Accepted | Invalid | Pending | Denied

  /** How many pieces are sent, and what the requester is told, when piece `k` is answered with `answers(k)`. */
  datatype Outcome = Outcome(sent: nat, status: Status)

  ghost predicate IsOutcome(count: nat, answers: nat -> Status, o: Outcome) {
    && o.sent <= count
    && (forall k: nat :: k + 1 < o.sent ==> answers(k) == Accepted)
    && (o.status == Accepted <==> o.sent == count && forall k: nat :: k < count ==> answers(k) == Accepted)
    && (o.status != Accepted ==> o.sent > 0 && answers(o.sent - 1) != Accepted)
    && (o.status == Pending <==>
          o.sent == count && count > 0 && answers(count - 1) == Pending &&
          forall k: nat :: k < count - 1 ==> answers(k) == Accepted)
    && o.status != Denied
  }

  /**
   Splits a request. An answer that is not an acceptance ends it: only from the last piece may it be
   that the answer will come later. The request itself is rewritten for every piece, and put back as
   it was only when all are accepted.
   */
  method Req(c: Config, addr: nat, size: nat, answers: nat -> Status)
    returns (sent: seq<Piece>, status: Status, addr': nat, size': nat)
    requires Proper(c) && addr < WORD
    ensures |sent| <= |PiecesOf(c, addr, size)| && sent == PiecesOf(c, addr, size)[..|sent|]
    ensures IsOutcome(|PiecesOf(c, addr, size)|, answers, Outcome(|sent|, status))
    ensures addr' == (if status == Accepted then addr else sent[|sent| - 1].local)
    ensures size' == if status == Accepted then size else sent[|sent| - 1].size
  {
    hide Pow2, Split, Block, Align, Removed, IsOutcome, Pieces, PieceSize;
    ghost var all := PiecesOf(c, addr, size);
    var align: nat, rest: nat, offset: nat := Align(c, addr), size, Removed(c, addr);
    sent, addr', size' := [], addr, size;
    while rest > 0
      invariant all == sent + Pieces(c, offset, align, rest)
      invariant forall k: nat :: k < |sent| ==> answers(k) == Accepted
      decreases rest
    {
      var n := PieceSize(c, align, rest);
      PiecesCons(c, offset, align, rest, sent);
      align := 0;
      var place := Split(c, offset);
      addr', size' := place.local, n;
      sent := sent + [Piece(place.port, place.local, n)];
      var answer := answers(|sent| - 1);
      if answer != Accepted {
        status := if answer == Pending && n == rest then Pending else Invalid;
        Refused(|all|, answers, |sent|, status);
        return;
      }
      rest, offset := rest - n, (offset + n) % WORD;
    }
    PiecesEnd(c, offset, align);
    addr', size', status := addr, size, Accepted;
    AllAnswered(|all|, answers);
  }

  lemma PiecesCons(c: Config, at: nat, align: nat, size: nat, sent: seq<Piece>)
    requires size > 0
    ensures var n := PieceSize(c, align, size); var rest := Pieces(c, (at + n) % WORD, 0, size - n);
      && sent + Pieces(c, at, align, size) == (sent + [Piece(Split(c, at).port, Split(c, at).local, n)]) + rest
      && (rest == [] <==> n == size)
  {
  }

  lemma PiecesEnd(c: Config, at: nat, align: nat)
    ensures Pieces(c, at, align, 0) == []
  {
  }

  lemma Refused(count: nat, answers: nat -> Status, sent: nat, status: Status)
    requires 0 < sent <= count && (forall k: nat :: k < sent - 1 ==> answers(k) == Accepted) &&
      answers(sent - 1) != Accepted
    requires status == if answers(sent - 1) == Pending && sent == count then Pending else Invalid
    ensures IsOutcome(count, answers, Outcome(sent, status))
  {
  }

  lemma AllAnswered(count: nat, answers: nat -> Status)
    requires forall k: nat :: k < count ==> answers(k) == Accepted
    ensures IsOutcome(count, answers, Outcome(count, Accepted))
  {
  }

  // ---------------------------------------------------------------- behind the banks of a cache

  /** The first-level bank behind port `port`: lines are as long as blocks, and refills undo the interleaving. */
  function BankConfig(c: Config, port: nat, sets: nat, ways: nat): CacheModel.Config {
    CacheModel.Config(Block(c), sets, ways, Ports(c), port * Block(c))
  }

  /** The address a bank that is switched off forwards an access with. */
  function BypassAddr(c: Config, p: Place): nat {
    p.local * Ports(c) + p.port * Block(c)
  }

  /** What a bank fetches for a place, in terms of the parts of its flat offset. */
  lemma RefillIs(row: nat, port: nat, low: nat, n: nat, b: nat, sets: nat, ways: nat)
    requires port < n && low < b && sets > 0 && ways > 0 && (row * b + low) * n < CacheModel.WORD
    ensures CacheModel.RefillAddr(CacheModel.Config(b, sets, ways, n, port * b), row * b + low) ==
      (Combine(row, port, 0, n, b) + Floor(low * n, b)) % CacheModel.WORD
  {
    hide CacheModel.RefillAddr;
    Shift(row, low, n, b);
    Mult(1, n, row * b + low);
    ModAddMultiple(row * n, low * n, b);
    CacheModel.RefillOf(CacheModel.Config(b, sets, ways, n, port * b), row * b + low, row * n * b, low * n);
    Distribute(b, row * n, port);
    SumsAgree(row * n * b, Floor(low * n, b), port * b, Combine(row, port, 0, n, b));
  }

  lemma SumsAgree(a: nat, f: nat, p: nat, x: nat)
    requires x == a + p
    ensures (a + f + p) % CacheModel.WORD == (x + f) % CacheModel.WORD
  {
    assert a + f + p == x + f;
  }

  lemma Shift(row: nat, low: nat, n: nat, b: nat)
    ensures (row * b + low) * n == row * n * b + low * n
  {
  }

  lemma ModAddMultiple(q: nat, x: nat, b: nat)
    requires b > 0
    ensures (q * b + x) % b == x % b
  {
    assert q * b + x == (q + x / b) * b + x % b;
    DivAdd(q + x / b, x % b, b);
  }

  lemma RowFits(row: nat, low: nat, port: nat, n: nat, b: nat, k: nat)
    requires port < n && low < b && b * n * k == CacheModel.WORD && Combine(row, port, low, n, b) < CacheModel.WORD
    ensures (row * b + low) * n < CacheModel.WORD && low * n < CacheModel.WORD
  {
    Shift(row, low, n, b);
    RowsOut(row, port, low, n, b);
    Mult(low + 1, b, n);
    assert low * n + n == (low + 1) * n;
    Below(row, k, b * n, port * b + low, low * n);
  }

  lemma Below(row: nat, k: nat, m: nat, x: nat, y: nat)
    requires row * m + x < m * k && y < m
    ensures row * m + y < m * k && y < m * k
  {
    assert m * k == k * m && (row + 1) * m == row * m + m;
    if row >= k { Mult(k, row, m); }
    Mult(row + 1, k, m);
    Mult(0, row, m);
  }

  lemma WordParts(c: Config) returns (k: nat)
    requires Proper(c)
    ensures k > 0 && Ports(c) * k > 0 && Block(c) * (Ports(c) * k) == Block(c) * Ports(c) * k == CacheModel.WORD
  {
    hide Pow2;
    var bits := c.blockBits + c.stageBits;
    k := Pow2(32 - bits);
    Pow2Of32();
    Pow2Splits(bits, 32 - bits);
    WholeIs(c);
    Associate(Block(c), Ports(c), k);
  }

  lemma Associate(a: nat, b: nat, d: nat)
    ensures a * (b * d) == a * b * d && (b > 0 && d > 0 ==> b * d > 0)
  {
  }

  /** What the bank of an offset fetches for it. */
  lemma BankRefills(c: Config, offset: nat, sets: nat, ways: nat) returns (row: nat, port: nat, low: nat)
    requires Proper(c) && offset < CacheModel.WORD && sets > 0 && ways > 0
    ensures port < Ports(c) && low < Block(c) && low == offset % Block(c) && low * Ports(c) < CacheModel.WORD
    ensures offset == Combine(row, port, low, Ports(c), Block(c))
    ensures Split(c, offset) == Place(port, row * Block(c) + low)
    ensures CacheModel.RefillAddr(BankConfig(c, port, sets, ways), Split(c, offset).local) ==
      (Combine(row, port, 0, Ports(c), Block(c)) + Floor(low * Ports(c), Block(c))) % CacheModel.WORD
  {
    hide Pow2, Block, Ports, Combine, Split, Floor, CacheModel.RefillAddr;
    row, port, low := HasParts(c, offset);
    SplitParts(c, row, port, low);
    var k := WordParts(c);
    RowFits(row, low, port, Ports(c), Block(c), k);
    RefillIs(row, port, low, Ports(c), Block(c), sets, ways);
  }

  lemma CombineLow(row: nat, port: nat, low: nat, n: nat, b: nat)
    ensures Combine(row, port, low, n, b) == Combine(row, port, 0, n, b) + low
    ensures b > 0 ==> Combine(row, port, 0, n, b) % b == 0
  {
    if b > 0 { DivAdd(row * n + port, 0, b); }
  }

  /**
   A miss makes the bank fetch the line of its flat offset exactly if the low bits, shifted like the
   rest, stay within a line.
   */
  lemma RefillsOwnLineIff(c: Config, offset: nat, sets: nat, ways: nat)
    requires Proper(c) && offset < CacheModel.WORD && sets > 0 && ways > 0
    ensures CacheModel.RefillAddr(BankConfig(c, Split(c, offset).port, sets, ways), Split(c, offset).local) ==
      Floor(offset, Block(c))
      <==> offset % Block(c) * Ports(c) < Block(c)
  {
    hide Pow2, Block, Ports, Combine, Split, CacheModel.RefillAddr;
    var row, port, low := BankRefills(c, offset, sets, ways);
    CombineLow(row, port, low, Ports(c), Block(c));
    CacheModel.FloorDiffers(Combine(row, port, 0, Ports(c), Block(c)), low * Ports(c), Block(c));
  }

  /** The interleaver followed by the refill of the bank is the identity exactly on the starts of lines. */
  lemma RefillIsIdentityIff(c: Config, offset: nat, sets: nat, ways: nat)
    requires Proper(c) && offset < CacheModel.WORD && sets > 0 && ways > 0
    ensures CacheModel.RefillAddr(BankConfig(c, Split(c, offset).port, sets, ways), Split(c, offset).local) == offset
      <==> offset % Block(c) == 0
  {
    hide Pow2, Block, Ports, Combine, Split, Floor, CacheModel.RefillAddr;
    var row, port, low := BankRefills(c, offset, sets, ways);
    var base, b := Combine(row, port, 0, Ports(c), Block(c)), Block(c);
    CombineLow(row, port, low, Ports(c), b);
    var k := WordParts(c);
    if low == 0 {
      FloorOfZero(b);
    } else {
      FloorIsMultiple(low * Ports(c), b);
      MultiplesStay(base, Floor(low * Ports(c), b), b, Ports(c) * k);
    }
  }

  lemma FloorOfZero(b: nat)
    requires b > 0
    ensures Floor(0, b) == 0
  {
  }

  lemma FloorIsMultiple(x: nat, b: nat)
    requires b > 0
    ensures Floor(x, b) % b == 0
  {
    assert Floor(x, b) == x / b * b + 0;
    DivAdd(x / b, 0, b);
  }

  lemma MultiplesStay(x: nat, y: nat, b: nat, k: nat)
    requires b > 0 && k > 0 && b * k == CacheModel.WORD && x % b == 0 && y % b == 0
    ensures (x + y) % CacheModel.WORD % b == 0
  {
    ModOfProduct(x + y, b, k);
    assert x == b * (x / b) && y == b * (y / b);
    Distribute(b, x / b, y / b);
    ModUnique(x + y, b, x / b + y / b, 0);
  }

  /**
   A bank that is switched off passes an access on to its flat offset exactly if that starts a line, or
   there is one bank.
   */
  lemma BypassIsIdentityIff(c: Config, offset: nat)
    ensures BypassAddr(c, Split(c, offset)) == offset <==> offset % Block(c) == 0 || Ports(c) == 1
  {
    hide Pow2, Block, Ports, Split;
    var row, port, low := HasParts(c, offset);
    SplitParts(c, row, port, low);
    Shift(row, low, Ports(c), Block(c));
    Distribute(Block(c), row * Ports(c), port);
    BypassSum(row, port, low, Ports(c), Block(c));
  }

  lemma BypassSum(row: nat, port: nat, low: nat, n: nat, b: nat)
    requires n > 0
    ensures (row * b + low) * n + port * b == Combine(row, port, low, n, b) <==> low == 0 || n == 1
  {
    Shift(row, low, n, b);
    assert row * n * b == row * b * n;
    assert (row * n + port) * b == row * n * b + port * b;
    if low > 0 && n > 1 { Mult(2, n, low); }
  }
}
