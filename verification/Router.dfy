/**
 The router as the program has it: entries linked into a base-ordered list, then merged level by level
 into a tree by relinking `next` pointers, and the loop that splits a request.
 */
module Router {
  import opened Sequences
  import opened Wrappers
  import opened RouterTree

  class MapEntry {
    const region: Region
    const base: nat
    const lowestBase: nat
    const left: MapEntry?
    const right: MapEntry?
    ghost const tree: Tree
    var next: MapEntry?

    /** An entry of the routing table. */
    constructor Mapped(r: Region)
      ensures next == null && tree == Leaf(r) && Shaped(this)
    {
      region, base, lowestBase, left, right := r, r.base, r.base, null, null;
      tree, next := Leaf(r), null;
    }

    /** An entry that merges two neighbours. */
    constructor Merged(l: MapEntry, r: MapEntry)
      requires Shaped(l) && Shaped(r)
      ensures next == null && tree == Node(Lowest(r.tree), l.tree, r.tree) && Shaped(this)
    {
      LowestIs(l);
      LowestIs(r);
      region := l.region;
      base, lowestBase, left, right := r.lowestBase, l.lowestBase, l, r;
      tree, next := Node(Lowest(r.tree), l.tree, r.tree), null;
    }
  }

  /** The pointers spell out the entry's tree. */
  ghost predicate Shaped(e: MapEntry)
    decreases e.tree
  {
    match e.tree
    case Leaf(r) => e.left == null && e.region == r && e.base == r.base == e.lowestBase
    case Node(base, l, r) =>
      && e.left != null && e.right != null && e.left.tree == l && e.right.tree == r
      && e.base == base && e.lowestBase == Lowest(e.tree) && Shaped(e.left) && Shaped(e.right)
  }

  lemma LowestIs(e: MapEntry)
    requires Shaped(e)
    ensures e.lowestBase == Lowest(e.tree)
  {
  }

  ghost function Trees(q: seq<MapEntry>): (ts: seq<Tree>)
    ensures |ts| == |q| && forall i :: 0 <= i < |q| ==> ts[i] == q[i].tree
  {
    seq(|q|, i requires 0 <= i < |q| => q[i].tree)
  }

  ghost predicate Linked(first: MapEntry?, q: seq<MapEntry>)
    reads (set e | e in q)`next
  {
    && first == (if q == [] then null else q[0])
    && forall i {:trigger q[i].next} :: 0 <= i < |q| ==> q[i].next == if i + 1 < |q| then q[i + 1] else null
  }

  ghost predicate AllShaped(q: seq<MapEntry>) {
    (forall e :: e in q ==> Shaped(e)) && NoRepeats(q)
  }

  /** Follows the tree down to the entry for an offset. */
  method Descent(top: MapEntry, offset: nat) returns (entry: MapEntry)
    requires Shaped(top)
    ensures entry.left == null && entry.region == Descend(top.tree, offset)
  {
    entry := top;
    while entry.left != null
      invariant Shaped(entry) && Descend(entry.tree, offset) == Descend(top.tree, offset)
      decreases entry.tree
    {
      if offset >= entry.base { entry := entry.right; } else { entry := entry.left; }
    }
  }

  // ---------------------------------------------------------------- one level

  /** Puts an entry at the end of a list whose last entry is known. */
  method Append(head: MapEntry?, last: MapEntry?, entry: MapEntry, ghost q: seq<MapEntry>) returns (head': MapEntry)
    requires Linked(head, q) && AllShaped(q) && last == (if q == [] then null else q[|q| - 1])
    requires Shaped(entry) && entry !in q && entry.next == null
    modifies (if last == null then {} else {last})`next
    ensures Linked(head', q + [entry]) && AllShaped(q + [entry])
  {
    if last != null {
      last.next := entry;
      head' := head;
    } else {
      head' := entry;
    }
  }

  lemma InLevel(q: seq<MapEntry>, k: nat)
    requires k < |q| && AllShaped(q)
    ensures q[k] in q && Shaped(q[k])
  {
  }

  /** The first pairs of a level have been merged. */
  ghost predicate MergedSoFar(q: seq<MapEntry>, merged: seq<MapEntry>) {
    2 * |merged| <= |q| && MergeLevel(Trees(q)) == Trees(merged) + MergeLevel(Trees(q)[2 * |merged|..])
  }

  lemma MergeStart(q: seq<MapEntry>)
    ensures MergedSoFar(q, []) && AllShaped([])
  {
    assert Trees(q)[0..] == Trees(q) && Trees([]) == [];
  }

  lemma MergeStep(q: seq<MapEntry>, merged: seq<MapEntry>, left: MapEntry, right: MapEntry, entry: MapEntry)
    requires MergedSoFar(q, merged) && 2 * |merged| + 2 <= |q| && left == q[2 * |merged|]
    requires right == q[2 * |merged| + 1]
    requires entry.tree == Node(Lowest(right.tree), left.tree, right.tree)
    ensures MergedSoFar(q, merged + [entry])
  {
    var ts := Trees(q);
    assert ts[2 * |merged|..][2..] == ts[2 * |merged| + 2..];
    Associate(Trees(merged), [entry.tree], MergeLevel(ts[2 * |merged| + 2..]));
    TreesAppend(merged, entry);
  }

  lemma NoneLeft(q: seq<MapEntry>, merged: seq<MapEntry>)
    requires |q| == 2 * |merged| && MergedSoFar(q, merged)
    ensures Trees(merged) == MergeLevel(Trees(q))
  {
  }

  lemma LastLeft(q: seq<MapEntry>, merged: seq<MapEntry>, last: MapEntry)
    requires |q| == 2 * |merged| + 1 && q[2 * |merged|] == last && MergedSoFar(q, merged)
    ensures Trees(merged + [last]) == MergeLevel(Trees(q))
  {
    TreesAppend(merged, last);
  }

  lemma TreesAppend(q: seq<MapEntry>, e: MapEntry)
    ensures Trees(q + [e]) == Trees(q) + [e.tree]
  {
  }

  /** Merges two neighbours and puts the new entry at the end of its level. */
  method MergeTwo(head: MapEntry?, last: MapEntry?, left: MapEntry, right: MapEntry,
    ghost q: seq<MapEntry>, ghost merged: seq<MapEntry>)
    returns (head': MapEntry?, entry: MapEntry)
    requires Linked(head, merged) && AllShaped(merged) && last == (if merged == [] then null else merged[|merged| - 1])
    requires AllShaped(q) && MergedSoFar(q, merged) && 2 * |merged| + 2 <= |q|
    requires left == q[2 * |merged|] && right == q[2 * |merged| + 1]
    modifies (if last == null then {} else {last})`next
    ensures fresh(entry) && Linked(head', merged + [entry]) && AllShaped(merged + [entry])
    ensures MergedSoFar(q, merged + [entry])
  {
    InLevel(q, 2 * |merged|);
    InLevel(q, 2 * |merged| + 1);
    hide MergeLevel, MergedSoFar, Shaped, Trees, AllShaped;
    entry := new MapEntry.Merged(left, right);
    MergeStep(q, merged, left, right, entry);
    head' := Append(head, last, entry, merged);
  }

  /** Merges a level two by two; the old entries are left as they are, and the last one may be left over. */
  method MergePairs(first: MapEntry, ghost q: seq<MapEntry>)
    returns (firstInLevel: MapEntry?, currentInLevel: MapEntry?, left: MapEntry?, ghost merged: seq<MapEntry>)
    requires Linked(first, q) && AllShaped(q)
    ensures Linked(firstInLevel, merged) && AllShaped(merged) && |merged| == |q| / 2 &&
      forall e :: e in merged ==> fresh(e)
    ensures currentInLevel == (if merged == [] then null else merged[|merged| - 1])
    ensures left == (if |q| == 2 * |merged| then null else q[|q| - 1])
    ensures MergedSoFar(q, merged)
  {
    hide MergeLevel, MergedSoFar, Shaped, Trees, AllShaped;
    var current: MapEntry? := first;
    firstInLevel, currentInLevel, left, merged := null, null, null, [];
    ghost var k := 0;
    MergeStart(q);
    while current != null
      invariant k <= |q| && current == (if k < |q| then q[k] else null) && Linked(first, q)
      invariant 2 * |merged| <= k <= 2 * |merged| + 1 && left == (if k == 2 * |merged| then null else q[k - 1])
      invariant currentInLevel == (if merged == [] then null else merged[|merged| - 1])
      invariant forall e :: e in merged ==> fresh(e)
      invariant Linked(firstInLevel, merged) && AllShaped(merged) && MergedSoFar(q, merged)
      decreases |q| - k
    {
      assert current in q;
      if left == null {
        left := current;
      } else {
        assert currentInLevel != null ==> currentInLevel in merged;
        var entry;
        firstInLevel, entry := MergeTwo(firstInLevel, currentInLevel, left, current, q, merged);
        left, currentInLevel, merged := null, entry, merged + [entry];
      }
      current := current.next;
      k := k + 1;
    }
  }

  /** One level: merged two by two, with an entry that is left over put at the end. */
  method MergeOnce(first: MapEntry, ghost q: seq<MapEntry>) returns (firstInLevel: MapEntry,
    ghost merged: seq<MapEntry>)
    requires Linked(first, q) && AllShaped(q) && |q| >= 2
    ensures Linked(firstInLevel, merged) && AllShaped(merged) && Trees(merged) == MergeLevel(Trees(q))
  {
    hide MergeLevel, MergedSoFar, Shaped, Trees;
    var head: MapEntry?, last: MapEntry?, left: MapEntry?;
    head, last, left, merged := MergePairs(first, q);
    if left == null {
      firstInLevel := head;
      NoneLeft(q, merged);
    } else {
      assert left in q && left.next == null;
      assert last in merged;
      firstInLevel := Append(head, last, left, merged);
      LastLeft(q, merged, left);
      merged := merged + [left];
    }
  }

  /** Builds the search tree by merging level after level until one entry is left. */
  method InitEntries(firstMapEntry: MapEntry?, ghost table: seq<MapEntry>) returns (topMapEntry: MapEntry?)
    requires Linked(firstMapEntry, table) && AllShaped(table)
    ensures topMapEntry == null <==> table == []
    ensures topMapEntry != null ==> Shaped(topMapEntry) && Build(Trees(table)) == Some(topMapEntry.tree)
  {
    hide MergeLevel, Shaped;
    if firstMapEntry == null { return null; }
    var current: MapEntry := firstMapEntry;
    ghost var level := table;
    while current.next != null
      invariant level != [] && Linked(current, level) && AllShaped(level)
      invariant Build(Trees(level)) == Build(Trees(table))
      decreases |level|
    {
      current, level := MergeOnce(current, level);
    }
    assert level[0].next == null;
    topMapEntry := current;
  }

  // ---------------------------------------------------------------- the component

  ghost function Regions(q: seq<MapEntry>): (rs: seq<Region>)
    ensures |rs| == |q| && forall i :: 0 <= i < |q| ==> rs[i] == q[i].region
  {
    seq(|q|, i requires 0 <= i < |q| => q[i].region)
  }

  ghost predicate AllMapped(q: seq<MapEntry>) {
    forall e :: e in q ==> e.tree == Leaf(e.region) && e.base == e.region.base
  }

  /** Links an entry in before the first one whose base is not below its own; `k` is where that is. */
  method LinkIn(first: MapEntry?, entry: MapEntry, ghost q: seq<MapEntry>) returns (first': MapEntry, ghost k: nat)
    requires Linked(first, q) && entry !in q && NoRepeats(q)
    modifies (set e | e in q)`next, entry`next
    ensures k <= |q| && Linked(first', q[..k] + [entry] + q[k..])
    ensures (forall i :: 0 <= i < k ==> q[i].base < entry.base) && (k < |q| ==> q[k].base >= entry.base)
  {
    hide Linked;
    var current: MapEntry?, prev: MapEntry? := first, null;
    k := 0;
    LinkedAt(first, q, 0);
    while current != null && current.base < entry.base
      invariant k <= |q| && current == (if k < |q| then q[k] else null)
      invariant prev == (if k == 0 then null else q[k - 1]) && Linked(first, q)
      invariant forall i :: 0 <= i < k ==> q[i].base < entry.base
      decreases |q| - k
    {
      LinkedAt(first, q, k);
      prev, current := current, current.next;
      k := k + 1;
    }
    if prev == null {
      entry.next := first;
      first' := entry;
      LinkedFirst(first, entry, q);
    } else {
      assert prev in q && forall i: nat :: i < |q| ==> q[i] in q && (i != k - 1 ==> q[i] != prev);
      AllPointOn(first, q);
      entry.next := current;
      prev.next := entry;
      first' := first;
      LinkedWithin(first, entry, q, k);
    }
  }

  /** Position `i` of a list points to the one after it. */
  ghost predicate PointsOn(q: seq<MapEntry>, i: nat)
    requires i < |q|
    reads {q[i]}`next
  {
    q[i].next == if i + 1 < |q| then q[i + 1] else null
  }

  lemma LinkedWithin(first: MapEntry?, entry: MapEntry, q: seq<MapEntry>, k: nat)
    requires 0 < k <= |q| && first == q[0] && (forall i: nat :: i < |q| && i != k - 1 ==> PointsOn(q, i))
    requires entry.next == (if k < |q| then q[k] else null) && q[k - 1].next == entry
    ensures Linked(first, q[..k] + [entry] + q[k..])
  {
    var r := q[..k] + [entry] + q[k..];
    forall i: nat | i < |r| ensures PointsOn(r, i) {
      if i < k - 1 { assert PointsOn(q, i) && r[i] == q[i] && r[i + 1] == q[i + 1]; }
      else if i == k - 1 { assert r[i] == q[i] && r[i + 1] == entry; }
      else if i == k { assert r[i] == entry && (k < |q| ==> r[i + 1] == q[k]); }
      else { assert PointsOn(q, i - 1) && r[i] == q[i - 1] && (i < |q| ==> r[i + 1] == q[i]); }
    }
    assert r[0] == first;
    PointingOn(first, r);
  }

  lemma PointingOn(first: MapEntry?, q: seq<MapEntry>)
    requires q != [] && first == q[0] && forall i: nat :: i < |q| ==> PointsOn(q, i)
    ensures Linked(first, q)
  {
    forall i {:trigger q[i].next} | 0 <= i < |q| ensures q[i].next == if i + 1 < |q| then q[i + 1] else null {
      assert PointsOn(q, i);
    }
  }

  lemma AllPointOn(first: MapEntry?, q: seq<MapEntry>)
    requires Linked(first, q)
    ensures forall i: nat :: i < |q| ==> PointsOn(q, i)
  {
  }

  lemma LinkedFirst(first: MapEntry?, entry: MapEntry, q: seq<MapEntry>)
    requires Linked(first, q) && entry.next == first
    ensures Linked(entry, q[..0] + [entry] + q[0..])
  {
    assert q[..0] + [entry] + q[0..] == [entry] + q;
  }

  lemma LinkedAt(first: MapEntry?, q: seq<MapEntry>, k: nat)
    requires Linked(first, q)
    ensures first == if q == [] then null else q[0]
    ensures k < |q| ==> q[k] in q && q[k].next == if k + 1 < |q| then q[k + 1] else null
  {
  }

  lemma {:induction false} InsertPosition(rs: seq<Region>, r: Region, k: nat)
    requires k <= |rs| && (forall i :: 0 <= i < k ==> rs[i].base < r.base) && (k < |rs| ==> rs[k].base >= r.base)
    ensures InsertRegion(rs, r) == rs[..k] + [r] + rs[k..]
  {
    if k > 0 {
      InsertPosition(rs[1..], r, k - 1);
      assert rs == [rs[0]] + rs[1..];
    }
  }

  lemma RegionsInserted(q: seq<MapEntry>, e: MapEntry, k: nat)
    requires k <= |q|
    ensures Regions(q[..k] + [e] + q[k..]) == Regions(q)[..k] + [e.region] + Regions(q)[k..]
  {
  }

  lemma KindsInserted(q: seq<MapEntry>, e: MapEntry)
    requires AllShaped(q) && AllMapped(q) && e !in q && Shaped(e) && e.tree == Leaf(e.region) && e.base == e.region.base
    ensures forall k: nat :: k <= |q| ==> AllShaped(q[..k] + [e] + q[k..]) && AllMapped(q[..k] + [e] + q[k..])
  {
  }

  lemma BasesAre(q: seq<MapEntry>)
    requires AllMapped(q)
    ensures forall i :: 0 <= i < |q| ==> q[i].base == Regions(q)[i].base
  {
  }

  function Continued(done: seq<Piece>, rest: Routed): Routed {
    rest.(pieces := done + rest.pieces)
  }

  lemma RouteStart(r: Routed)
    ensures r == Continued([], r)
  {
  }

  lemma RouteEnd(t: Table, at: nat, done: seq<Piece>)
    ensures Continued(done, Route(t, at, 0)) == Routed(done, Complete)
  {
  }

  lemma RouteStep(t: Table, at: nat, rest: nat, done: seq<Piece>)
    requires rest > 0
    ensures var target := Lookup(t, at, rest);
      target.Nowhere? ==> Continued(done, Route(t, at, rest)) == Routed(done, Rejected)
    ensures var target := Lookup(t, at, rest);
      !target.Nowhere? && !(0 < PieceSize(target, at, rest) <= rest) ==>
        Continued(done, Route(t, at, rest)) == Routed(done, Stuck)
    ensures var target := Lookup(t, at, rest);
      !target.Nowhere? && 0 < PieceSize(target, at, rest) <= rest ==>
        Continued(done, Route(t, at, rest)) ==
          Continued(done + [Piece(at, PieceSize(target, at, rest), Forwarded(target.region, at), target)],
            Route(t, at + PieceSize(target, at, rest), rest - PieceSize(target, at, rest)))
  {
  }

  class Router {
    var firstMapEntry: MapEntry?
    var errorMapEntry: Option<Region>
    var defaultMapEntry: Option<Region>
    var topMapEntry: MapEntry?
    ghost var table: seq<MapEntry>

    constructor ()
      ensures Valid() && Ready() && table == [] && errorMapEntry == defaultMapEntry == None
    {
      firstMapEntry, errorMapEntry, defaultMapEntry, topMapEntry, table := null, None, None, null, [];
    }

    ghost predicate Valid()
      reads this, (set e | e in table)`next
    {
      Linked(firstMapEntry, table) && AllShaped(table) && AllMapped(table)
    }

    /** The tree has been built. */
    ghost predicate Ready()
      reads this
    {
      && (topMapEntry == null <==> table == [])
      && (topMapEntry != null ==> Shaped(topMapEntry) && Build(AsLeaves(Regions(table))) == Some(topMapEntry.tree))
    }

    ghost function Abstract(): Table
      reads this
    {
      Table(if topMapEntry == null then None else Some(topMapEntry.tree), errorMapEntry, defaultMapEntry)
    }

    ghost function Registered(): Mappings
      reads this
    {
      RouterTree.Mappings.Mappings(Regions(table), errorMapEntry, defaultMapEntry)
    }

    method InsertSorted(entry: MapEntry)
      requires Valid() && Shaped(entry) && entry.tree == Leaf(entry.region) && entry.next == null && entry !in table
      requires entry.base == entry.region.base
      modifies this`firstMapEntry, this`table, (set e | e in table)`next, entry`next
      ensures Valid() && Regions(table) == InsertRegion(old(Regions(table)), entry.region)
    {
      hide Shaped, InsertRegion, Regions, Linked;
      ghost var k;
      BasesAre(table);
      KindsInserted(table, entry);
      firstMapEntry, k := LinkIn(firstMapEntry, entry, table);
      InsertPosition(Regions(table), entry.region, k);
      RegionsInserted(table, entry, k);
      table := table[..k] + [entry] + table[k..];
    }

    method Insert(entry: MapEntry, connected: bool)
      requires Valid() && Shaped(entry) && entry.tree == Leaf(entry.region) && entry.next == null && entry !in table
      modifies this, (set e | e in table)`next, entry`next
      ensures Valid() && Registered() == Register(old(Registered()), entry.region, connected)
    {
      if entry.region.size == 0 {
        defaultMapEntry := Some(entry.region);
      } else if !connected {
        errorMapEntry := Some(entry.region);
      } else {
        InsertSorted(entry);
      }
    }

    /** Builds the tree, once the table is complete. */
    method BuildTree()
      requires Valid()
      modifies this`topMapEntry
      ensures Valid() && Ready()
    {
      TreesAreLeaves(table);
      topMapEntry := InitEntries(firstMapEntry, table);
    }

    /** Splits a request; a piece is answered as soon as it is forwarded, piece `k` with `answers(k)`. */
    method Req(offset: nat, size: nat, answers: nat -> Status) returns (pieces: seq<Piece>,
      ending: Ending, status: Status)
      requires Valid() && Ready() && size > 0
      ensures Routed(pieces, ending) == Route(Abstract(), offset, size)
      ensures ending != Stuck ==>
        (ending == Complete ==> pieces != []) && status == Reported(Routed(pieces, ending), answers)
    {
      hide Route, Lookup, PieceSize, Continued, Forwarded, Valid, Ready, Abstract;
      ghost var t := Abstract();
      ghost var all := Route(t, offset, size);
      var at: nat, rest: nat := offset, size;
      pieces, ending, status := [], Complete, Accepted;
      RouteStart(all);
      while rest > 0
        invariant pieces == [] ==> rest > 0
        invariant pieces != [] ==> status == answers(|pieces| - 1)
        invariant all == Continued(pieces, Route(t, at, rest))
      {
        var target := Find(at, rest);
        RouteStep(t, at, rest, pieces);
        if target.Nowhere? {
          return pieces, Rejected, Invalid;
        }
        var n := PieceSize(target, at, rest);
        if n <= 0 || n > rest {
          return pieces, Stuck, status;
        }
        status := answers(|pieces|);
        pieces := pieces + [Piece(at, n, Forwarded(target.region, at), target)];
        at, rest := at + n, rest - n;
      }
      RouteEnd(t, at, pieces);
    }

    /** The entry that an offset is routed to. */
    method Find(offset: nat, size: nat) returns (target: Target)
      requires Valid() && Ready() && size > 0
      ensures target == Lookup(Abstract(), offset, size) && (target.Mapped? ==> Contains(target.region, offset))
    {
      var found: Option<Region> := None;
      if topMapEntry != null {
        var entry := Descent(topMapEntry, offset);
        found := Some(entry.region);
        if offset < entry.region.base || offset > entry.region.base + entry.region.size - 1 { found := None; }
      }
      if found.Some? {
        target := Mapped(found.value);
      } else if errorMapEntry.Some? && offset >= errorMapEntry.value.base
        && offset + size - 1 <= errorMapEntry.value.base + errorMapEntry.value.size - 1 {
        target := Nowhere;
      } else {
        target := if defaultMapEntry.Some? then Default(defaultMapEntry.value) else Nowhere;
      }
    }
  }

  lemma TreesAreLeaves(q: seq<MapEntry>)
    requires AllMapped(q)
    ensures Trees(q) == AsLeaves(Regions(q))
  {
    assert forall i :: 0 <= i < |q| ==> q[i] in q;
  }
}
