/**
 The router's search tree: built from the base-ordered list of mapped regions by merging neighbours
 two by two until one entry is left.
 */
module RouterTree {
  import opened Sequences
  import opened Wrappers
  import opened Arithmetic

  datatype Region = Region(base: nat, size: nat, removeOffset: nat, addOffset: nat)

  /** An inner entry's `base` is where its right half begins. */
  datatype Tree = Leaf(region: Region) | Node(base: nat, left: Tree, right: Tree)

  function Lowest(t: Tree): nat {
    match t case Leaf(r) => r.base case Node(_, left, _) => Lowest(left)
  }

  function Leaves(t: Tree): (s: seq<Region>)
    ensures s != []
  {
    match t case Leaf(r) => [r] case Node(_, left, right) => Leaves(left) + Leaves(right)
  }

  function AllLeaves(ts: seq<Tree>): seq<Region> {
    if ts == [] then [] else Leaves(ts[0]) + AllLeaves(ts[1..])
  }

  function Depth(t: Tree): nat {
    match t
    case Leaf(_) => 0
    case Node(_, left, right) => 1 + if Depth(left) < Depth(right) then Depth(right) else Depth(left)
  }

  /** One pass: neighbours are merged; one that is left over stays at the end. */
  function MergeLevel(ts: seq<Tree>): (r: seq<Tree>)
    ensures |r| == (|ts| + 1) / 2
  {
    if |ts| < 2 then ts else [Node(Lowest(ts[1]), ts[0], ts[1])] + MergeLevel(ts[2..])
  }

  /** Passes until one entry is left. */
  function Build(ts: seq<Tree>): Option<Tree>
    decreases |ts|
  {
    if ts == [] then None else if |ts| == 1 then Some(ts[0]) else Build(MergeLevel(ts))
  }

  /** The descent. */
  function Descend(t: Tree, offset: nat): Region {
    match t
    case Leaf(r) => r
    case Node(base, left, right) => if offset >= base then Descend(right, offset) else Descend(left, offset)
  }

  // ---------------------------------------------------------------- what the descent finds

  predicate Sorted(rs: seq<Region>) {
    forall i, j :: 0 <= i < j < |rs| ==> rs[i].base <= rs[j].base
  }

  /** The last region that begins at or before the offset; the first one if none does. */
  function LastBefore(rs: seq<Region>, offset: nat): Region
    requires rs != []
  {
    if |rs| == 1 then rs[0]
    else if rs[|rs| - 1].base <= offset then rs[|rs| - 1]
    else LastBefore(rs[..|rs| - 1], offset)
  }

  /** Each inner entry splits its regions where its right half begins. */
  predicate Splits(t: Tree) {
    match t
    case Leaf(_) => true
    case Node(base, left, right) => base == Lowest(right) && Splits(left) && Splits(right)
  }

  lemma {:induction false} LowestIsFirst(t: Tree)
    ensures Lowest(t) == Leaves(t)[0].base
  {
    match t
    case Leaf(_) =>
    case Node(_, left, right) => LowestIsFirst(left);
  }

  lemma {:induction false} LastBeforeSplit(a: seq<Region>, b: seq<Region>, offset: nat)
    requires a != [] && b != [] && Sorted(a + b)
    ensures LastBefore(a + b, offset) == if offset >= b[0].base then LastBefore(b, offset) else LastBefore(a, offset)
    decreases |b|
  {
    var n := |b| - 1;
    var whole := a + b;
    assert whole[..|whole| - 1] == a + b[..n] && whole[|whole| - 1] == b[n];
    if n == 0 {
      assert a + b[..0] == a;
    } else {
      forall i, j | 0 <= i < j < |a + b[..n]| ensures (a + b[..n])[i].base <= (a + b[..n])[j].base {
        assert whole[i].base <= whole[j].base;
      }
      if b[n].base <= offset { assert whole[|a|].base <= whole[|a| + n].base; }
      LastBeforeSplit(a, b[..n], offset);
    }
  }

  lemma SortedParts(a: seq<Region>, b: seq<Region>)
    requires Sorted(a + b)
    ensures Sorted(a) && Sorted(b)
  {
    forall i, j | 0 <= i < j < |a| ensures a[i].base <= a[j].base { assert (a + b)[i].base <= (a + b)[j].base; }
    forall i, j | 0 <= i < j < |b| ensures b[i].base <= b[j].base {
      assert (a + b)[|a| + i].base <= (a + b)[|a| + j].base;
    }
  }

  /** Descending a tree that splits its sorted regions finds the last one that begins at or before the offset. */
  lemma {:induction false} DescendFinds(t: Tree, offset: nat)
    requires Splits(t) && Sorted(Leaves(t))
    ensures Descend(t, offset) == LastBefore(Leaves(t), offset)
  {
    match t
    case Leaf(_) =>
    case Node(base, left, right) =>
      SortedParts(Leaves(left), Leaves(right));
      LowestIsFirst(right);
      LastBeforeSplit(Leaves(left), Leaves(right), offset);
      DescendFinds(left, offset);
      DescendFinds(right, offset);
  }

  // ---------------------------------------------------------------- what the passes keep

  lemma {:induction false} MergeKeepsLeaves(ts: seq<Tree>)
    ensures AllLeaves(MergeLevel(ts)) == AllLeaves(ts)
  {
    if |ts| >= 2 {
      MergeKeepsLeaves(ts[2..]);
      var m := MergeLevel(ts);
      assert m[1..] == MergeLevel(ts[2..]);
      assert ts[1..][1..] == ts[2..] && ts[1..][0] == ts[1];
      Associate(Leaves(ts[0]), Leaves(ts[1]), AllLeaves(ts[2..]));
    }
  }

  lemma {:induction false} MergeKeepsSplits(ts: seq<Tree>, d: nat)
    requires forall i :: 0 <= i < |ts| ==> Splits(ts[i]) && Depth(ts[i]) <= d
    ensures forall i :: 0 <= i < |MergeLevel(ts)| ==> Splits(MergeLevel(ts)[i]) && Depth(MergeLevel(ts)[i]) <= d + 1
  {
    if |ts| >= 2 { MergeKeepsSplits(ts[2..], d); }
  }

  function CeilLog2(n: nat): nat {
    if n <= 1 then 0 else 1 + CeilLog2((n + 1) / 2)
  }

  /** The least power of two that is not below `n`. */
  lemma {:induction false} CeilLog2Is(n: nat)
    requires n > 0
    ensures n <= Pow2(CeilLog2(n)) && (n > 1 ==> Pow2(CeilLog2(n) - 1) < n)
  {
    if n > 1 {
      CeilLog2Is((n + 1) / 2);
      if n > 2 { assert Pow2(CeilLog2(n) - 1) == 2 * Pow2(CeilLog2((n + 1) / 2) - 1); }
    }
  }

  lemma {:induction false} BuildKeeps(ts: seq<Tree>, d: nat)
    requires ts != [] && forall i :: 0 <= i < |ts| ==> Splits(ts[i]) && Depth(ts[i]) <= d
    ensures Build(ts).Some? && Splits(Build(ts).value) && Leaves(Build(ts).value) == AllLeaves(ts)
    ensures Depth(Build(ts).value) <= d + CeilLog2(|ts|)
    decreases |ts|
  {
    if |ts| == 1 {
      assert ts[1..] == [] && AllLeaves(ts) == Leaves(ts[0]) + [];
    } else {
      MergeKeepsSplits(ts, d);
      MergeKeepsLeaves(ts);
      BuildKeeps(MergeLevel(ts), d + 1);
    }
  }

  function AsLeaves(rs: seq<Region>): (ts: seq<Tree>)
    ensures |ts| == |rs| && forall i :: 0 <= i < |ts| ==> ts[i] == Leaf(rs[i])
  {
    seq(|rs|, i requires 0 <= i < |rs| => Leaf(rs[i]))
  }

  lemma {:induction false} AllLeavesOf(rs: seq<Region>)
    ensures AllLeaves(AsLeaves(rs)) == rs
  {
    if rs != [] {
      AllLeavesOf(rs[1..]);
      assert AsLeaves(rs)[1..] == AsLeaves(rs[1..]);
      assert rs == [rs[0]] + rs[1..];
    }
  }

  /**
   Main result: for every base-ordered table, descent in the tree built by pairwise merging finds the
   last region that begins at or before the offset, in at most ceil(log2 n) steps.
   */
  lemma TreeFindsLast(rs: seq<Region>, offset: nat)
    requires rs != [] && Sorted(rs)
    ensures var t := Build(AsLeaves(rs));
      t.Some? && Descend(t.value, offset) == LastBefore(rs, offset) && Steps(t.value, offset) <= CeilLog2(|rs|)
  {
    BuildKeeps(AsLeaves(rs), 0);
    AllLeavesOf(rs);
    DescendFinds(Build(AsLeaves(rs)).value, offset);
    StepsBelowDepth(Build(AsLeaves(rs)).value, offset);
  }

  /** How many entries the descent passes on its way down. */
  function Steps(t: Tree, offset: nat): nat {
    match t
    case Leaf(_) => 0
    case Node(base, left, right) => 1 + if offset >= base then Steps(right, offset) else Steps(left, offset)
  }

  lemma {:induction false} StepsBelowDepth(t: Tree, offset: nat)
    ensures Steps(t, offset) <= Depth(t)
  {
    match t
    case Leaf(_) =>
    case Node(_, left, right) =>
      StepsBelowDepth(left, offset);
      StepsBelowDepth(right, offset);
  }

  // ---------------------------------------------------------------- disjoint regions

  predicate Contains(r: Region, offset: nat) {
    r.base <= offset < r.base + r.size
  }

  predicate Disjoint(rs: seq<Region>) {
    forall i, j :: 0 <= i < j < |rs| ==> rs[i].base + rs[i].size <= rs[j].base
  }

  /** What a scan of the whole table would find. */
  function Scan(rs: seq<Region>, offset: nat): Option<Region> {
    if rs == [] then None else if Contains(rs[0], offset) then Some(rs[0]) else Scan(rs[1..], offset)
  }

  lemma {:induction false} ScanIs(rs: seq<Region>, offset: nat)
    ensures Scan(rs, offset).None? <==> forall i :: 0 <= i < |rs| ==> !Contains(rs[i], offset)
    ensures Scan(rs, offset).Some? ==>
      exists i :: 0 <= i < |rs| && rs[i] == Scan(rs, offset).value && Contains(rs[i], offset)
  {
    if rs != [] {
      ScanIs(rs[1..], offset);
      if !Contains(rs[0], offset) && Scan(rs, offset).Some? {
        var i :| 0 <= i < |rs[1..]| && rs[1..][i] == Scan(rs[1..], offset).value && Contains(rs[1..][i], offset);
        assert rs[i + 1] == Scan(rs, offset).value;
      }
    }
  }

  /** Region `k` is the last of the table that begins at or before the offset, or the first if none does. */
  predicate IsLastBefore(rs: seq<Region>, k: nat, offset: nat) {
    k < |rs| && (forall j :: k < j < |rs| ==> rs[j].base > offset) && (k > 0 ==> rs[k].base <= offset)
  }

  lemma {:induction false} LastBeforeIs(rs: seq<Region>, offset: nat)
    requires rs != [] && Sorted(rs)
    ensures exists k: nat :: IsLastBefore(rs, k, offset) && rs[k] == LastBefore(rs, offset)
    decreases |rs|
  {
    var n := |rs| - 1;
    if n == 0 || rs[n].base <= offset {
      assert IsLastBefore(rs, n, offset) && rs[n] == LastBefore(rs, offset);
    } else {
      assert Sorted(rs[..n]);
      LastBeforeIs(rs[..n], offset);
      var k: nat :| IsLastBefore(rs[..n], k, offset) && rs[..n][k] == LastBefore(rs[..n], offset);
      forall j | k < j < |rs| ensures rs[j].base > offset { if j < n { assert rs[..n][j].base > offset; } }
      assert IsLastBefore(rs, k, offset) && rs[k] == LastBefore(rs, offset);
    }
  }

  /** On disjoint regions the descent, followed by the check of the bounds, agrees with a scan of the table. */
  lemma TreeAgreesWithScan(rs: seq<Region>, offset: nat)
    requires rs != [] && Sorted(rs) && Disjoint(rs)
    ensures var t := Build(AsLeaves(rs));
      t.Some? && Scan(rs, offset) == if Contains(Descend(t.value, offset), offset) then
        Some(Descend(t.value, offset)) else None
  {
    TreeFindsLast(rs, offset);
    LastBeforeIs(rs, offset);
    ScanIs(rs, offset);
    var k: nat :| IsLastBefore(rs, k, offset) && rs[k] == LastBefore(rs, offset);
    forall i | 0 <= i < |rs| && i != k ensures !Contains(rs[i], offset) {
      if i < k { assert rs[i].base + rs[i].size <= rs[k].base; }
    }
    assert Contains(rs[k], offset) <==> Scan(rs, offset).Some?;
  }

  // ---------------------------------------------------------------- how the table comes about

  /** A region goes before the first one whose base is not below its own. */
  function InsertRegion(rs: seq<Region>, r: Region): (result: seq<Region>)
    ensures |result| == |rs| + 1
  {
    if rs != [] && rs[0].base < r.base then [rs[0]] + InsertRegion(rs[1..], r) else [r] + rs
  }

  /** What has been registered: the table, and the latest error region and default target. */
  datatype Mappings = Mappings(table: seq<Region>, error: Option<Region>, default_: Option<Region>)

  function Register(m: Mappings, r: Region, connected: bool): Mappings {
    if r.size == 0 then m.(default_ := Some(r))
    else if !connected then m.(error := Some(r))
    else m.(table := InsertRegion(m.table, r))
  }

  function TableOf(regions: seq<Region>): seq<Region> {
    if regions == [] then [] else InsertRegion(TableOf(regions[..|regions| - 1]), regions[|regions| - 1])
  }

  lemma SortedCons(r: Region, rs: seq<Region>)
    requires Sorted(rs) && (rs != [] ==> r.base <= rs[0].base)
    ensures Sorted([r] + rs)
  {
    forall i, j | 0 <= i < j < |[r] + rs| ensures ([r] + rs)[i].base <= ([r] + rs)[j].base {
      assert rs[0].base <= rs[j - 1].base;
    }
  }

  lemma SortedRest(rs: seq<Region>)
    requires rs != [] && Sorted(rs)
    ensures Sorted(rs[1..]) && (|rs| > 1 ==> rs[0].base <= rs[1].base)
  {
  }

  lemma {:induction false} InsertKeeps(rs: seq<Region>, r: Region)
    requires Sorted(rs)
    ensures Sorted(InsertRegion(rs, r)) && multiset(InsertRegion(rs, r)) == multiset(rs) + multiset{r}
    ensures InsertRegion(rs, r)[0] == if rs != [] && rs[0].base < r.base then rs[0] else r
  {
    hide Sorted;
    if rs != [] && rs[0].base < r.base {
      assert rs == [rs[0]] + rs[1..];
      SortedRest(rs);
      InsertKeeps(rs[1..], r);
      SortedCons(rs[0], InsertRegion(rs[1..], r));
    } else {
      SortedCons(r, rs);
    }
  }

  /** What an offset finds: the last region that begins at or before it, if there is one. */
  function Found(rs: seq<Region>, offset: nat): Option<Region> {
    if rs == [] || rs[0].base > offset then None else Some(LastBefore(rs, offset))
  }

  lemma {:induction false} FoundCons(r: Region, rs: seq<Region>, offset: nat)
    requires Sorted([r] + rs)
    ensures Found([r] + rs, offset) == if Found(rs, offset).Some? then Found(rs, offset)
      else if r.base <= offset then Some(r) else None
  {
    if rs != [] {
      assert ([r] + rs)[0].base <= ([r] + rs)[1].base;
      LastBeforeSplit([r], rs, offset);
    }
  }

  lemma {:induction false} FoundIsLow(rs: seq<Region>, offset: nat)
    requires Sorted(rs) && Found(rs, offset).Some?
    ensures rs[0].base <= Found(rs, offset).value.base <= offset
  {
    LastBeforeIs(rs, offset);
    var k: nat :| IsLastBefore(rs, k, offset) && rs[k] == LastBefore(rs, offset);
  }

  /** A new region is found instead of the old one only if it begins later. */
  lemma {:induction false} FoundAfterInsert(rs: seq<Region>, r: Region, offset: nat)
    requires Sorted(rs)
    ensures Found(InsertRegion(rs, r), offset) ==
      if r.base <= offset && (Found(rs, offset).None? || Found(rs, offset).value.base < r.base) then Some(r)
        else Found(rs, offset)
  {
    InsertKeeps(rs, r);
    if Found(rs, offset).Some? { FoundIsLow(rs, offset); }
    if rs != [] && rs[0].base < r.base {
      assert rs == [rs[0]] + rs[1..];
      if Found(rs[1..], offset).Some? { FoundIsLow(rs[1..], offset); }
      FoundAfterInsert(rs[1..], r, offset);
      FoundCons(rs[0], rs[1..], offset);
      FoundCons(rs[0], InsertRegion(rs[1..], r), offset);
    } else {
      FoundCons(r, rs, offset);
    }
  }

  /** The region, of those that begin at or before the offset, that begins last; of equals the one registered first. */
  predicate IsBest(regions: seq<Region>, k: nat, offset: nat) {
    && k < |regions| && regions[k].base <= offset
    && (forall j :: 0 <= j < |regions| && regions[j].base <= offset ==> regions[j].base <= regions[k].base)
    && forall j :: 0 <= j < k ==> regions[j].base != regions[k].base
  }

  /** The table holds every registered region once, in the order of the bases. */
  lemma {:induction false} TableIsSorted(regions: seq<Region>)
    ensures Sorted(TableOf(regions)) && multiset(TableOf(regions)) == multiset(regions)
  {
    if regions != [] {
      var n := |regions| - 1;
      TableIsSorted(regions[..n]);
      InsertKeeps(TableOf(regions[..n]), regions[n]);
      assert regions == regions[..n] + [regions[n]];
    }
  }

  /** `found` is the best region for the offset, or there is none that begins at or before it. */
  ghost predicate FindsBest(regions: seq<Region>, offset: nat, found: Option<Region>) {
    match found
    case None => forall k :: 0 <= k < |regions| ==> regions[k].base > offset
    case Some(r) => exists k: nat :: IsBest(regions, k, offset) && regions[k] == r
  }

  lemma BestStep(regions: seq<Region>, last: Region, offset: nat, before: Option<Region>)
    requires FindsBest(regions, offset, before)
    ensures FindsBest(regions + [last], offset,
      if last.base <= offset && (before.None? || before.value.base < last.base) then Some(last) else before)
  {
    var all := regions + [last];
    if last.base <= offset && (before.None? || before.value.base < last.base) {
      assert IsBest(all, |regions|, offset) && all[|regions|] == last;
    } else if before.Some? {
      var k: nat :| IsBest(regions, k, offset) && regions[k] == before.value;
      assert IsBest(all, k, offset) && all[k] == before.value;
    }
  }

  /**
   Whatever the order of registration, an offset finds the region that begins last before it; of equals
   the first registered.
   */
  lemma {:induction false} TableFindsBest(regions: seq<Region>, offset: nat)
    ensures FindsBest(regions, offset, Found(TableOf(regions), offset))
  {
    if regions != [] {
      var n := |regions| - 1;
      TableFindsBest(regions[..n], offset);
      TableIsSorted(regions[..n]);
      FoundAfterInsert(TableOf(regions[..n]), regions[n], offset);
      BestStep(regions[..n], regions[n], offset, Found(TableOf(regions[..n]), offset));
      assert regions == regions[..n] + [regions[n]];
    }
  }

  // ---------------------------------------------------------------- splitting a request

  const WORD: int := 0x1_0000_0000
  const HALF: int := 0x8000_0000

  /** The router's table: the mapped regions, and perhaps an error region and a default target. */
  datatype Table = Table(tree: Option<Tree>, error: Option<Region>, default_: Option<Region>)

  /** Where a byte goes. */
  datatype Target = Mapped(region: Region) | Default(region: Region) | Nowhere

  function Lookup(t: Table, offset: nat, size: nat): Target
    requires size > 0
  {
    var found := if t.tree.Some? then Some(Descend(t.tree.value, offset)) else None;
    if found.Some? && Contains(found.value, offset) then Mapped(found.value)
    else if t.error.Some? && t.error.value.base <= offset && offset + size <= t.error.value.base + t.error.value.size
      then Nowhere
    else if t.default_.Some? then Default(t.default_.value) else Nowhere
  }

  /** A 64-bit count cut down to a signed 32-bit one. */
  function ToInt(n: nat): int {
    var low := n % WORD;
    if low < HALF then low else low - WORD
  }

  /** The size of the next piece: a signed 32-bit number, compared with the unsigned rest. */
  function PieceSize(target: Target, offset: nat, size: nat): int
    requires !target.Nowhere? && (target.Mapped? ==> Contains(target.region, offset))
  {
    var n := ToInt(if target.Default? then size else target.region.size - (offset - target.region.base));
    if n < 0 || n > size then ToInt(size) else n
  }

  /** The address a piece is forwarded to. */
  function Forwarded(r: Region, offset: nat): int {
    if r.addOffset != 0 then offset + r.addOffset else offset - r.removeOffset
  }

  /** Both offsets are honoured exactly if one of them is zero. */
  lemma ForwardedIsRightIff(r: Region, offset: nat)
    ensures Forwarded(r, offset) == offset - r.removeOffset + r.addOffset <==> r.removeOffset == 0 || r.addOffset == 0
  {
  }

  datatype Piece = Piece(offset: nat, size: nat, address: int, target: Target)

  /** How a request ends: all of it forwarded, an error on the way, or a loop that makes no more progress. */
  datatype Ending = Complete | Rejected | Stuck

  datatype Routed = Routed(pieces: seq<Piece>, ending: Ending)

  function Route(t: Table, offset: nat, size: nat): Routed
    decreases size
  {
    if size == 0 then Routed([], Complete)
    else
      var target := Lookup(t, offset, size);
      if target.Nowhere? then Routed([], Rejected)
      else
        var n := PieceSize(target, offset, size);
        if n <= 0 || n > size then Routed([], Stuck)
        else
          var rest := Route(t, offset + n, size - n);
          rest.(pieces := [Piece(offset, n, Forwarded(target.region, offset), target)] + rest.pieces)
  }

  /** The pieces follow each other without gap or overlap, from `offset` on. */
  predicate Tile(pieces: seq<Piece>, offset: nat) {
    pieces == [] || (pieces[0].offset == offset && pieces[0].size > 0 && Tile(pieces[1..], offset + pieces[0].size))
  }

  function Total(pieces: seq<Piece>): nat {
    if pieces == [] then 0 else pieces[0].size + Total(pieces[1..])
  }

  /** The pieces of an accepted request tile it exactly; those of any other tile its beginning. */
  lemma {:induction false} PiecesTile(t: Table, offset: nat, size: nat)
    ensures var r := Route(t, offset, size);
      Tile(r.pieces, offset) && Total(r.pieces) <= size && (r.ending == Complete <==> Total(r.pieces) == size)
    decreases size
  {
    hide Contains, Descend, PieceSize;
    if size > 0 {
      var target := Lookup(t, offset, size);
      if !target.Nowhere? {
        var n := PieceSize(target, offset, size);
        if 0 < n <= size {
          PiecesTile(t, offset + n, size - n);
          var r := Route(t, offset, size);
          assert r.pieces[1..] == Route(t, offset + n, size - n).pieces;
        }
      }
    }
  }

  /** The first piece, and the rest. */
  lemma RouteCons(t: Table, offset: nat, size: nat)
    requires Route(t, offset, size).pieces != []
    ensures size > 0 && !Lookup(t, offset, size).Nowhere?
    ensures 0 < PieceSize(Lookup(t, offset, size), offset, size) <= size
    ensures var target := Lookup(t, offset, size); var n := PieceSize(target, offset, size);
      Route(t, offset, size).pieces == [Piece(offset, n, Forwarded(target.region, offset), target)] +
        Route(t, offset + n, size - n).pieces
  {
  }

  /** The `k`-th piece, its target and how much is left from it on. */
  predicate IsRouted(t: Table, p: Piece, end: nat) {
    && p.size > 0 && p.offset + p.size <= end
    && var target := Lookup(t, p.offset, end - p.offset);
       !target.Nowhere? && p.address == Forwarded(target.region, p.offset)
       && (target.Mapped? ==> p.offset + p.size <= target.region.base + target.region.size)
  }

  /** A piece stays within the region its first byte is in, and goes to where that region maps it. */
  lemma {:induction false} PiecesAreRouted(t: Table, offset: nat, size: nat, k: nat)
    requires k < |Route(t, offset, size).pieces| && size < HALF
    ensures IsRouted(t, Route(t, offset, size).pieces[k], offset + size)
    decreases size
  {
    hide Route;
    RouteCons(t, offset, size);
    var target := Lookup(t, offset, size);
    var n := PieceSize(target, offset, size);
    if k == 0 {
      if target.Mapped? { PieceFits(target.region.size - (offset - target.region.base), size); }
    } else {
      PiecesAreRouted(t, offset + n, size - n, k - 1);
    }
  }

  lemma PieceFits(left: nat, size: nat)
    requires 0 < size < HALF && left > 0
    ensures var n := ToInt(left); var m := if n < 0 || n > size then ToInt(size) else n; 0 <= m <= left && m <= size
    ensures var n := ToInt(left); var m := if n < 0 || n > size then ToInt(size) else n; m == 0 <==> left % WORD == 0
  {
  }

  lemma LookupContains(t: Table, offset: nat, size: nat)
    requires size > 0
    ensures Lookup(t, offset, size).Mapped? ==> Contains(Lookup(t, offset, size).region, offset)
  {
  }

  /** For any tree, overlapping regions included: progress stops exactly where a piece would begin at such a byte. */
  lemma {:induction false} StuckAtPieceIff(t: Table, offset: nat, size: nat)
    requires size < HALF
    ensures Route(t, offset, size).ending == Stuck <==> Blocked(t, offset, size)
    decreases size
  {
    hide Lookup;
    if size > 0 {
      LookupContains(t, offset, size);
      var target := Lookup(t, offset, size);
      if !target.Nowhere? {
        var n := PieceSize(target, offset, size);
        if target.Mapped? { PieceFits(target.region.size - (offset - target.region.base), size); }
        if n > 0 { StuckAtPieceIff(t, offset + n, size - n); }
      }
    }
  }

  /** Somewhere on the way a piece begins whose region ends a multiple of 2^32 bytes further on. */
  predicate Blocked(t: Table, offset: nat, size: nat)
    decreases size
  {
    if size == 0 || Lookup(t, offset, size).Nowhere? then false
    else
      var target := Lookup(t, offset, size);
      var n := PieceSize(target, offset, size);
      (target.Mapped? && Blocks(target.region, offset)) || (0 < n <= size && Blocked(t, offset + n, size - n))
  }

  predicate Blocks(r: Region, offset: nat) {
    Contains(r, offset) && (r.base + r.size - offset) % WORD == 0
  }

  /** A scan finds a region for the byte. */
  predicate Covered(rs: seq<Region>, x: nat) {
    Scan(rs, x).Some?
  }

  /** Byte `x` lies a multiple of 2^32 before the end of its region, and all bytes from `offset` to it are mapped. */
  predicate BlockedAt(rs: seq<Region>, offset: nat, x: nat) {
    offset <= x && (forall y :: offset <= y <= x ==> Covered(rs, y)) && Scan(rs, x).Some? &&
      Blocks(Scan(rs, x).value, x)
  }

  ghost predicate SomeBlocked(rs: seq<Region>, offset: nat, end: nat) {
    exists x: nat :: x < end && BlockedAt(rs, offset, x)
  }

  function TableOn(rs: seq<Region>, error: Option<Region>, default_: Option<Region>): Table {
    Table(Build(AsLeaves(rs)), error, default_)
  }

  /** On disjoint regions a byte is mapped to the region a scan finds. */
  lemma LookupIsScan(rs: seq<Region>, error: Option<Region>, default_: Option<Region>, offset: nat, size: nat)
    requires Disjoint(rs) && size > 0
    ensures var target := Lookup(TableOn(rs, error, default_), offset, size);
      (target.Mapped? <==> Scan(rs, offset).Some?) && (target.Mapped? ==> target.region == Scan(rs, offset).value)
  {
    if rs != [] { TreeAgreesWithScan(rs, offset); }
  }

  lemma ScanInRegion(rs: seq<Region>, x: nat, y: nat)
    requires Disjoint(rs) && Scan(rs, x).Some? && Contains(Scan(rs, x).value, y)
    ensures Scan(rs, y) == Scan(rs, x)
  {
    ScanIs(rs, x);
    ScanIs(rs, y);
    var i :| 0 <= i < |rs| && rs[i] == Scan(rs, x).value && Contains(rs[i], x);
    var k :| 0 <= k < |rs| && rs[k] == Scan(rs, y).value && Contains(rs[k], y);
    assert !(i < k) && !(k < i);
  }

  /** The bytes of a piece are not blocked, except the first. */
  lemma PieceIsFree(left: nat, size: nat, j: nat)
    requires 0 < size < HALF && left > 0 && left % WORD != 0
    ensures var n := ToInt(left); var m := if n < 0 || n > size then ToInt(size) else n; 0 < m <= left && m <= size
    ensures var n := ToInt(left); var m := if n < 0 || n > size then ToInt(size)
      else n; j < m ==> (left - j) % WORD != 0
  {
    var q, r := left / WORD, left % WORD;
    assert left == WORD * q + r;
    if j < r { ModUnique(left - j, WORD, q, r - j); }
  }

  /**
   Main result on disjoint regions, whatever the error region and the default target: a request makes
   no more progress exactly if one of its bytes, reached over mapped bytes only, lies a multiple of
   2^32 before the end of its region.
   */
  lemma {:induction false} StuckIff(rs: seq<Region>, error: Option<Region>,
    default_: Option<Region>, offset: nat, size: nat)
    requires Disjoint(rs) && size < HALF
    ensures Route(TableOn(rs, error, default_), offset, size).ending == Stuck <==>
      SomeBlocked(rs, offset, offset + size)
    decreases size
  {
    hide SomeBlocked, TableOn, Lookup, Scan, Disjoint, ToInt, BlockedAt;
    NoneBlocked(rs, offset);
    if size > 0 {
      var t := TableOn(rs, error, default_);
      LookupIsScan(rs, error, default_, offset, size);
      LookupContains(t, offset, size);
      var target := Lookup(t, offset, size);
      if !target.Mapped? {
        NotMappedAtAll(rs, offset);
        if target.Default? { WholeSize(size); }
      } else {
        var left := target.region.base + target.region.size - offset;
        if left % WORD == 0 {
          PieceFits(left, size);
          BlockedFirst(rs, offset);
        } else {
          PieceIsFree(left, size, 0);
          var m := PieceSize(target, offset, size);
          StuckIff(rs, error, default_, offset + m, size - m);
          BlockedLater(rs, offset, size, left, m);
        }
      }
    }
  }

  lemma NoneBlocked(rs: seq<Region>, offset: nat)
    ensures !SomeBlocked(rs, offset, offset)
  {
  }

  lemma WholeSize(size: nat)
    requires size < HALF
    ensures ToInt(size) == size
  {
  }

  lemma NotMappedAtAll(rs: seq<Region>, offset: nat)
    requires Scan(rs, offset).None?
    ensures forall end: nat :: !SomeBlocked(rs, offset, end)
  {
    assert !Covered(rs, offset);
  }

  lemma BlockedFirst(rs: seq<Region>, offset: nat)
    requires Scan(rs, offset).Some? && Blocks(Scan(rs, offset).value, offset)
    ensures forall end: nat :: offset < end ==> SomeBlocked(rs, offset, end)
  {
    assert BlockedAt(rs, offset, offset);
  }

  /** Behind the first piece of a region the question is the same. */
  lemma BlockedLater(rs: seq<Region>, offset: nat, size: nat, left: nat, m: nat)
    requires Disjoint(rs) && 0 < size < HALF && Scan(rs, offset).Some? && Contains(Scan(rs, offset).value, offset)
    requires left == Scan(rs, offset).value.base + Scan(rs, offset).value.size - offset && left % WORD != 0
    requires m == (var n := ToInt(left); if n < 0 || n > size then ToInt(size) else n) && m <= size
    ensures SomeBlocked(rs, offset, offset + size) <==> SomeBlocked(rs, offset + m, offset + size)
  {
    hide Scan, Disjoint, ToInt;
    PieceIsFree(left, size, 0);
    forall y: nat | offset <= y < offset + m ensures Covered(rs, y) && !BlockedAt(rs, offset, y) {
      PieceIsFree(left, size, y - offset);
      ScanInRegion(rs, offset, y);
    }
    var next := offset + m;
    assert forall x: nat :: next <= x ==> (BlockedAt(rs, next, x) <==> BlockedAt(rs, offset, x));
  }

  /** Once a byte goes to the default target, so does the rest of the request, mapped or not. */
  lemma DefaultTakesTheRest(t: Table, offset: nat, size: nat)
    requires 0 < size < HALF && Lookup(t, offset, size).Default?
    ensures Route(t, offset, size) ==
      Routed(
        [Piece(offset, size, Forwarded(Lookup(t, offset, size).region, offset), Lookup(t, offset, size))], Complete)
  {
    hide Lookup, Forwarded;
    WholeSize(size);
    assert Route(t, offset + size, 0) == Routed([], Complete);
  }

  /** Such a request: eight bytes from the start of a region of 2^32 + 4. */
  lemma StuckHappens(error: Option<Region>, default_: Option<Region>)
    ensures Route(TableOn([Region(0, WORD + 4, 0, 0)], error, default_), 0, 8).ending == Stuck
  {
    var rs := [Region(0, WORD + 4, 0, 0)];
    assert forall x: nat :: x < 8 ==> Covered(rs, x);
    assert BlockedAt(rs, 0, 4) && SomeBlocked(rs, 0, 8);
    StuckIff(rs, error, default_, 0, 8);
  }

  /** Regions smaller than 2^32 never block: every request is then forwarded completely or rejected. */
  lemma {:induction false} SmallRegionsNeverBlock(t: Table, offset: nat, size: nat)
    requires size < HALF
    requires t.tree.Some? ==> forall r :: r in Leaves(t.tree.value) ==> r.size < WORD
    ensures Route(t, offset, size).ending != Stuck
    decreases size
  {
    if size > 0 {
      var target := Lookup(t, offset, size);
      if !target.Nowhere? {
        if t.tree.Some? { DescendIsLeaf(t.tree.value, offset); }
        if target.Mapped? { PieceFits(target.region.size - (offset - target.region.base), size); }
        var n := PieceSize(target, offset, size);
        SmallRegionsNeverBlock(t, offset + n, size - n);
      }
    }
  }

  lemma {:induction false} DescendIsLeaf(t: Tree, offset: nat)
    ensures Descend(t, offset) in Leaves(t)
  {
    match t
    case Leaf(_) =>
    case Node(base, left, right) =>
      DescendIsLeaf(left, offset);
      DescendIsLeaf(right, offset);
  }

  // ---------------------------------------------------------------- what the requester is told

  datatype Status = Accepted | Invalid | Pending | Denied

  /** What a routed request reports, when piece `k` was answered with `answers(k)`. */
  function Reported(r: Routed, answers: nat -> Status): Status
    requires r.ending == Rejected || (r.ending == Complete && r.pieces != [])
  {
    if r.ending == Rejected then Invalid else answers(|r.pieces| - 1)
  }

  /** A failure can be hidden from the requester exactly if the request goes to its end in more than one piece. */
  lemma FailureCanBeHiddenIff(t: Table, offset: nat, size: nat)
    requires 0 < size < HALF && Route(t, offset, size).ending != Stuck
    ensures var r := Route(t, offset, size);
      (exists answers: nat -> Status :: Hides(r, answers)) <==> r.ending == Complete && |r.pieces| > 1
  {
    var r := Route(t, offset, size);
    PiecesTile(t, offset, size);
    if r.ending == Complete && |r.pieces| > 1 {
      var answers := (k: nat) => if k == 0 then Invalid else Accepted;
      assert answers(0) != Accepted && answers(|r.pieces| - 1) == Accepted;
      assert Hides(r, answers);
    }
  }

  /** Success is reported although not all of the request succeeded. */
  ghost predicate Hides(r: Routed, answers: nat -> Status) {
    && (r.ending == Rejected || (r.ending == Complete && r.pieces != []))
    && Reported(r, answers) == Accepted && !AllAccepted(r, answers)
  }

  ghost predicate AllAccepted(r: Routed, answers: nat -> Status) {
    r.ending == Complete && forall k: nat :: k < |r.pieces| ==> answers(k) == Accepted
  }
}
