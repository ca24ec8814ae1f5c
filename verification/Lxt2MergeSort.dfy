/**
 The in-place merge sort that orders the facilities before the header is written. It must keep
 facilities of equal name in their order, so that chained ones do not migrate.
 */
module Lxt2MergeSort {
  import opened Sequences
  import opened Lxt2Writer

  /** A facility as the sort sees it: its name, and which one it is. */
  datatype Fac = Fac(name: string, id: nat)

  predicate NotAfter(x: Fac, y: Fac) { Strcmp(x.name, y.name) <= 0 }

  ghost predicate Ordered(s: seq<Fac>) {
    forall i, j :: 0 <= i < j < |s| ==> NotAfter(s[i], s[j])
  }

  predicate IsNamed(f: Fac, name: string) { f.name == name }

  ghost function One(f: Fac, name: string): seq<Fac> { if IsNamed(f, name) then [f] else [] }

  /** The facilities named `name`, in their order. */
  ghost function Named(s: seq<Fac>, name: string): seq<Fac> {
    if s == [] then [] else One(s[0], name) + Named(s[1..], name)
  }

  /** `r` is `s` sorted, equal names keeping their order; so it is a permutation as well. */
  ghost predicate SortedStably(s: seq<Fac>, r: seq<Fac>) {
    Ordered(r) && forall name :: Named(r, name) == Named(s, name)
  }

  /** Same names in the same order, name by name, means same facilities with same multiplicity. */
  lemma {:induction false} StableIsPermutation(s: seq<Fac>, r: seq<Fac>)
    requires forall name :: Named(r, name) == Named(s, name)
    ensures multiset(r) == multiset(s)
  {
    forall x: Fac ensures multiset(r)[x] == multiset(s)[x] {
      CountNamed(s, x);
      CountNamed(r, x);
      assert Named(r, x.name) == Named(s, x.name);
    }
  }

  lemma {:induction false} CountNamed(s: seq<Fac>, x: Fac)
    ensures multiset(s)[x] == multiset(Named(s, x.name))[x]
  {
    if s != [] {
      hide Named;
      CountNamed(s[1..], x);
      NamedOf(s, x.name);
      CountCons(s[0], s[1..], x);
      CountOne(s[0], Named(s[1..], x.name), x);
    }
  }

  lemma NamedOf(s: seq<Fac>, name: string)
    requires s != []
    ensures s == [s[0]] + s[1..] && Named(s, name) == One(s[0], name) + Named(s[1..], name)
  {
  }

  lemma CountCons(f: Fac, s: seq<Fac>, x: Fac)
    ensures multiset([f] + s)[x] == multiset(s)[x] + if f == x then 1 else 0
  {
  }

  lemma CountOne(f: Fac, s: seq<Fac>, x: Fac)
    ensures multiset(One(f, x.name) + s)[x] == multiset(s)[x] + if f == x then 1 else 0
  {
    if IsNamed(f, x.name) { CountCons(f, s, x); } else { assert [] + s == s; }
  }

  lemma NamedCons(f: Fac, s: seq<Fac>, name: string)
    ensures Named([f] + s, name) == One(f, name) + Named(s, name)
  {
    hide One;
    assert ([f] + s)[1..] == s;
  }

  lemma {:induction false} NamedOfConcat(s: seq<Fac>, t: seq<Fac>, name: string)
    ensures Named(s + t, name) == Named(s, name) + Named(t, name)
  {
    hide One;
    if s == [] { assert s + t == t; }
    else {
      NamedOfConcat(s[1..], t, name);
      assert s + t == [s[0]] + (s[1..] + t);
      NamedCons(s[0], s[1..] + t, name);
      Associate(One(s[0], name), Named(s[1..], name), Named(t, name));
    }
  }

  // ---------------------------------------------------------------- merging

  ghost function Merge(x: seq<Fac>, y: seq<Fac>): (r: seq<Fac>)
    ensures |r| == |x| + |y|
  {
    if x == [] then y
    else if y == [] then x
    else if NotAfter(x[0], y[0]) then [x[0]] + Merge(x[1..], y)
    else [y[0]] + Merge(x, y[1..])
  }

  lemma NotAfterTransitive(x: Fac, y: Fac, z: Fac)
    requires NotAfter(x, y) && NotAfter(y, z)
    ensures NotAfter(x, z)
  {
    StrcmpLaws(x.name, y.name);
    StrcmpLaws(y.name, z.name);
    if Strcmp(x.name, y.name) < 0 && Strcmp(y.name, z.name) < 0 { StrcmpTransitive(x.name, y.name, z.name); }
  }

  /** Merging only takes elements of either part, so bounds carry over. */
  lemma {:induction false} MergeKeepsBound(f: Fac, x: seq<Fac>, y: seq<Fac>)
    requires forall i :: 0 <= i < |x| ==> NotAfter(f, x[i])
    requires forall i :: 0 <= i < |y| ==> NotAfter(f, y[i])
    ensures forall i :: 0 <= i < |Merge(x, y)| ==> NotAfter(f, Merge(x, y)[i])
    decreases |x| + |y|
  {
    if x != [] && y != [] {
      if NotAfter(x[0], y[0]) { MergeKeepsBound(f, x[1..], y); } else { MergeKeepsBound(f, x, y[1..]); }
    }
  }

  lemma {:induction false} MergeIsOrdered(x: seq<Fac>, y: seq<Fac>)
    requires Ordered(x) && Ordered(y)
    ensures Ordered(Merge(x, y))
    decreases |x| + |y|
  {
    if x != [] && y != [] {
      if NotAfter(x[0], y[0]) {
        MergeIsOrdered(x[1..], y);
        forall i | 0 <= i < |y| ensures NotAfter(x[0], y[i]) {
          if i > 0 { NotAfterTransitive(x[0], y[0], y[i]); }
        }
        MergeKeepsBound(x[0], x[1..], y);
        HeadFirst(x[0], Merge(x[1..], y));
      } else {
        MergeIsOrdered(x, y[1..]);
        StrcmpLaws(x[0].name, y[0].name);
        assert NotAfter(y[0], x[0]);
        forall i | 0 <= i < |x| ensures NotAfter(y[0], x[i]) {
          if i > 0 { NotAfterTransitive(y[0], x[0], x[i]); }
        }
        MergeKeepsBound(y[0], x, y[1..]);
        HeadFirst(y[0], Merge(x, y[1..]));
      }
    }
  }

  lemma HeadFirst(f: Fac, s: seq<Fac>)
    requires Ordered(s) && forall i :: 0 <= i < |s| ==> NotAfter(f, s[i])
    ensures Ordered([f] + s)
  {
    var r := [f] + s;
    forall i, j | 0 <= i < j < |r| ensures NotAfter(r[i], r[j]) {
      assert r[j] == s[j - 1];
      if i > 0 { assert r[i] == s[i - 1]; }
    }
  }

  /** No facility of `x` named like `f` once a smaller name heads the other part. */
  lemma {:induction false} NoneNamed(x: seq<Fac>, name: string)
    requires forall i :: 0 <= i < |x| ==> !IsNamed(x[i], name)
    ensures Named(x, name) == []
  {
    if x != [] { NoneNamed(x[1..], name); }
  }

  lemma LargerNames(x: seq<Fac>, f: Fac, name: string)
    requires Ordered(x) && x != [] && !NotAfter(x[0], f) && IsNamed(f, name)
    ensures forall i :: 0 <= i < |x| ==> !IsNamed(x[i], name)
  {
    hide Strcmp;
    StrcmpLaws(f.name, f.name);
    forall i | 0 <= i < |x| ensures !IsNamed(x[i], name) {
      assert i > 0 ==> NotAfter(x[0], x[i]);
    }
  }

  lemma TailOrdered(x: seq<Fac>)
    requires Ordered(x) && x != []
    ensures Ordered(x[1..])
  {
  }

  /** On ties the left part goes first: merging is stable. */
  lemma {:induction false} MergeIsStable(x: seq<Fac>, y: seq<Fac>, name: string)
    requires Ordered(x)
    ensures Named(Merge(x, y), name) == Named(x, name) + Named(y, name)
    decreases |x| + |y|
  {
    if x != [] && y != [] {
      if NotAfter(x[0], y[0]) {
        TailOrdered(x);
        MergeIsStable(x[1..], y, name);
        StableLeft(x, y, name);
      } else {
        MergeIsStable(x, y[1..], name);
        StableRight(x, y, name);
      }
    }
  }

  lemma StableLeft(x: seq<Fac>, y: seq<Fac>, name: string)
    requires x != [] && y != [] && NotAfter(x[0], y[0])
    requires Named(Merge(x[1..], y), name) == Named(x[1..], name) + Named(y, name)
    ensures Named(Merge(x, y), name) == Named(x, name) + Named(y, name)
  {
    hide NotAfter, One;
    NamedCons(x[0], Merge(x[1..], y), name);
    Associate(One(x[0], name), Named(x[1..], name), Named(y, name));
  }

  lemma StableRight(x: seq<Fac>, y: seq<Fac>, name: string)
    requires Ordered(x) && x != [] && y != [] && !NotAfter(x[0], y[0])
    requires Named(Merge(x, y[1..]), name) == Named(x, name) + Named(y[1..], name)
    ensures Named(Merge(x, y), name) == Named(x, name) + Named(y, name)
  {
    hide NotAfter, IsNamed, Ordered;
    NamedCons(y[0], Merge(x, y[1..]), name);
    if IsNamed(y[0], name) {
      LargerNames(x, y[0], name);
      NoneNamed(x, name);
    }
    EmptyCommutes(One(y[0], name), Named(x, name), Named(y[1..], name));
  }

  lemma EmptyCommutes(a: seq<Fac>, b: seq<Fac>, c: seq<Fac>)
    requires a == [] || b == []
    ensures a + (b + c) == b + (a + c)
  {
    if a == [] { assert a + (b + c) == b + c && a + c == c; }
    if b == [] { assert b + c == c && b + (a + c) == a + c; }
  }

  // ---------------------------------------------------------------- the sort

  /** `a[lo..k]` is merged; the rest of `x` waits in `b`, the rest of `y` in place. */
  ghost predicate Merging(s: seq<Fac>, w: seq<Fac>, x: seq<Fac>, y: seq<Fac>, i: nat, j: nat, k: nat) {
    && |s| == |x| + |y| && |x| <= |w| && w[..|x|] == x
    && i <= |x| && j <= |y| && k == i + j
    && s[|x| + j..] == y[j..]
    && s[..k] + Merge(x[i..], y[j..]) == Merge(x, y)
  }

  lemma MergeHeads(s: seq<Fac>, w: seq<Fac>, x: seq<Fac>, y: seq<Fac>, i: nat, j: nat, k: nat)
    requires Merging(s, w, x, y, i, j, k)
    ensures i < |x| ==> i < |w| && w[i] == x[i]
    ensures j < |y| ==> s[|x| + j] == y[j]
  {
    if i < |x| { assert w[i] == w[..|x|][i]; }
    if j < |y| { assert s[|x| + j] == s[|x| + j..][0]; }
  }

  lemma MergeTakesLeft(s: seq<Fac>, w: seq<Fac>, x: seq<Fac>, y: seq<Fac>, i: nat, j: nat, k: nat)
    requires Merging(s, w, x, y, i, j, k) && i < |x| && j < |y| && NotAfter(x[i], y[j])
    ensures Merging(s[k := x[i]], w, x, y, i + 1, j, k + 1)
  {
    hide Strcmp, NotAfter;
    var p, q := x[i..], y[j..];
    assert p[0] == x[i] && q[0] == y[j] && p[1..] == x[i + 1..];
    var s' := s[k := x[i]];
    assert s'[..k + 1] == s[..k] + [x[i]];
    assert s'[|x| + j..] == s[|x| + j..];
    Associate(s[..k], [x[i]], Merge(x[i + 1..], q));
  }

  lemma MergeTakesRight(s: seq<Fac>, w: seq<Fac>, x: seq<Fac>, y: seq<Fac>, i: nat, j: nat, k: nat)
    requires Merging(s, w, x, y, i, j, k) && i < |x| && j < |y| && !NotAfter(x[i], y[j])
    ensures Merging(s[k := y[j]], w, x, y, i, j + 1, k + 1)
  {
    hide Strcmp, NotAfter;
    var p, q := x[i..], y[j..];
    assert p[0] == x[i] && q[0] == y[j] && q[1..] == y[j + 1..];
    var s' := s[k := y[j]];
    assert s'[..k + 1] == s[..k] + [y[j]];
    assert s'[|x| + (j + 1)..] == s[|x| + j..][1..];
    Associate(s[..k], [y[j]], Merge(p, y[j + 1..]));
  }

  /** Once `y` is used up the rest of `x` is copied back. */
  lemma MergeDrains(s: seq<Fac>, w: seq<Fac>, x: seq<Fac>, y: seq<Fac>, i: nat, k: nat)
    requires Merging(s, w, x, y, i, |y|, k) && i < |x|
    ensures Merging(s[k := x[i]], w, x, y, i + 1, |y|, k + 1)
  {
    var s' := s[k := x[i]];
    assert s'[..k + 1] == s[..k] + [x[i]];
    assert x[i..] == [x[i]] + x[i + 1..] && y[|y|..] == [];
    assert s'[|x| + |y|..] == s[|x| + |y|..];
    Associate(s[..k], [x[i]], x[i + 1..]);
  }

  lemma MergeEnds(s: seq<Fac>, w: seq<Fac>, x: seq<Fac>, y: seq<Fac>, j: nat, k: nat)
    requires Merging(s, w, x, y, |x|, j, k)
    ensures s == Merge(x, y)
  {
    assert x[|x|..] == [] && k == |x| + j;
    assert s == s[..k] + s[k..];
  }

  lemma MergedStably(s: seq<Fac>, x0: seq<Fac>, y0: seq<Fac>, x: seq<Fac>, y: seq<Fac>)
    requires s == x0 + y0 && SortedStably(x0, x) && SortedStably(y0, y)
    ensures SortedStably(s, Merge(x, y))
  {
    MergeIsOrdered(x, y);
    forall name ensures Named(Merge(x, y), name) == Named(s, name) {
      MergeIsStable(x, y, name);
      NamedOfConcat(x0, y0, name);
    }
  }

  lemma MergeStarts(s: seq<Fac>, w: seq<Fac>, x: seq<Fac>, y: seq<Fac>)
    requires s == x + y && |x| <= |w| && w[..|x|] == x
    ensures Merging(s, w, x, y, 0, 0, 0)
  {
    assert s[..0] == [] && x[0..] == x && y[0..] == y && s[|x|..] == y;
  }

  /** Copies the left run to the buffer. */
  method Park(a: array<Fac>, b: array<Fac>, lo: nat, mid: nat)
    requires a != b && lo <= mid < a.Length && mid - lo < b.Length
    modifies b
    ensures b[..mid + 1 - lo] == a[lo..mid + 1]
  {
    var i, j := 0, lo;
    while j <= mid
      invariant lo <= j <= mid + 1 && i == j - lo
      invariant b[..i] == a[lo..j]
    {
      b[i] := a[j];
      i, j := i + 1, j + 1;
    }
  }

  /** The merge under way in the arrays: `n` is where the right run starts. */
  ghost predicate Underway(a: array<Fac>, b: array<Fac>, lo: nat, n: nat, hi: nat, x: seq<Fac>, y: seq<Fac>,
                           i: nat, j: nat, k: nat)
    reads a, b
  {
    && a != b && lo < n <= j <= hi + 1 <= a.Length && |x| == n - lo && |y| == hi + 1 - n && k == lo + i + (j - n)
    && Merging(a[lo..hi + 1], b[..], x, y, i, j - n, k - lo)
  }

  method TakeLeft(a: array<Fac>, b: array<Fac>, lo: nat, ghost n: nat, hi: nat, ghost x: seq<Fac>, ghost y: seq<Fac>,
                  i: nat, j: nat, k: nat)
    requires Underway(a, b, lo, n, hi, x, y, i, j, k) && i < |x|
    requires j <= hi ==> NotAfter(x[i], y[j - n])
    modifies a
    ensures Underway(a, b, lo, n, hi, x, y, i + 1, j, k + 1)
    ensures a[..lo] == old(a[..lo]) && a[hi + 1..] == old(a[hi + 1..])
  {
    hide Merging, Merge, Strcmp;
    ghost var s, w := a[lo..hi + 1], b[..];
    MergeHeads(s, w, x, y, i, j - n, k - lo);
    if j <= hi { MergeTakesLeft(s, w, x, y, i, j - n, k - lo); } else { MergeDrains(s, w, x, y, i, k - lo); }
    a[k] := b[i];
    assert a[lo..hi + 1] == s[k - lo := x[i]] && b[..] == w;
  }

  method TakeRight(a: array<Fac>, b: array<Fac>, lo: nat, ghost n: nat, hi: nat, ghost x: seq<Fac>, ghost y: seq<Fac>,
                   i: nat, j: nat, k: nat)
    requires Underway(a, b, lo, n, hi, x, y, i, j, k) && i < |x| && j <= hi && !NotAfter(x[i], y[j - n])
    modifies a
    ensures Underway(a, b, lo, n, hi, x, y, i, j + 1, k + 1)
    ensures a[..lo] == old(a[..lo]) && a[hi + 1..] == old(a[hi + 1..])
  {
    hide Merging, Merge, Strcmp;
    ghost var s, w := a[lo..hi + 1], b[..];
    MergeHeads(s, w, x, y, i, j - n, k - lo);
    MergeTakesRight(s, w, x, y, i, j - n, k - lo);
    a[k] := a[j];
    assert a[lo..hi + 1] == s[k - lo := y[j - n]] && b[..] == w;
  }

  lemma UnderwayHeads(a: array<Fac>, b: array<Fac>, lo: nat, n: nat, hi: nat, x: seq<Fac>,
    y: seq<Fac>, i: nat, j: nat, k: nat)
    requires Underway(a, b, lo, n, hi, x, y, i, j, k)
    ensures lo < n <= j <= hi + 1 <= a.Length && k == lo + i + (j - n) && i <= |x| == n - lo && |y| == hi + 1 - n
    ensures i < |x| ==> i < b.Length && b[i] == x[i]
    ensures j <= hi ==> a[j] == y[j - n]
  {
    MergeHeads(a[lo..hi + 1], b[..], x, y, i, j - n, k - lo);
    assert j <= hi ==> a[lo..hi + 1][j - lo] == a[j];
  }

  method ParkLeft(a: array<Fac>, b: array<Fac>, lo: nat, mid: nat, hi: nat, ghost x: seq<Fac>, ghost y: seq<Fac>)
    requires a != b && lo <= mid < hi < a.Length && mid - lo < b.Length
    requires x == a[lo..mid + 1] && y == a[mid + 1..hi + 1]
    modifies b
    ensures Underway(a, b, lo, mid + 1, hi, x, y, 0, mid + 1, lo)
  {
    hide Merging, Merge, Strcmp;
    Park(a, b, lo, mid);
    assert a[lo..hi + 1] == x + y;
    MergeStarts(a[lo..hi + 1], b[..], x, y);
  }

  /** The merge step of the sort: two sorted runs in `a` become one, with half of it parked in `b`. */
  method MergeRuns(a: array<Fac>, b: array<Fac>, lo: nat, mid: nat, hi: nat, ghost x: seq<Fac>, ghost y: seq<Fac>)
    requires a != b && lo <= mid < hi < a.Length && mid - lo < b.Length
    requires x == a[lo..mid + 1] && y == a[mid + 1..hi + 1]
    modifies a, b
    ensures a[..lo] == old(a[..lo]) && a[hi + 1..] == old(a[hi + 1..])
    ensures a[lo..hi + 1] == Merge(x, y)
  {
    hide Merging, Merge, Strcmp, Underway;
    ghost var n, before, after := mid + 1, a[..lo], a[hi + 1..];
    ParkLeft(a, b, lo, mid, hi, x, y);
    var i, j, k := 0, mid + 1, lo;
    while k < j && j <= hi
      invariant Underway(a, b, lo, n, hi, x, y, i, j, k) && k <= j <= hi + 1
      invariant a[..lo] == before && a[hi + 1..] == after
      decreases hi + 1 - j, j - k
    {
      UnderwayHeads(a, b, lo, n, hi, x, y, i, j, k);
      if Strcmp(b[i].name, a[j].name) <= 0 {
        TakeLeft(a, b, lo, n, hi, x, y, i, j, k);
        k, i := k + 1, i + 1;
      } else {
        TakeRight(a, b, lo, n, hi, x, y, i, j, k);
        k, j := k + 1, j + 1;
      }
    }
    while k < j
      invariant Underway(a, b, lo, n, hi, x, y, i, j, k) && k <= j <= hi + 1
      invariant k < j ==> j == hi + 1
      invariant a[..lo] == before && a[hi + 1..] == after
    {
      UnderwayHeads(a, b, lo, n, hi, x, y, i, j, k);
      TakeLeft(a, b, lo, n, hi, x, y, i, j, k);
      k, i := k + 1, i + 1;
    }
    UnderwayEnds(a, b, lo, n, hi, x, y, i, j, k);
  }

  lemma UnderwayEnds(a: array<Fac>, b: array<Fac>, lo: nat, n: nat, hi: nat, x: seq<Fac>,
    y: seq<Fac>, i: nat, j: nat, k: nat)
    requires Underway(a, b, lo, n, hi, x, y, i, j, k) && k == j
    ensures a[lo..hi + 1] == Merge(x, y)
  {
    MergeEnds(a[lo..hi + 1], b[..], x, y, j - n, k - lo);
  }

  lemma ShortIsSorted(s: seq<Fac>)
    requires |s| <= 1
    ensures SortedStably(s, s)
  {
  }

  /** Sorts `a[lo..hi+1]` in place; the buffer needs half as many cells, rounded up. */
  method Mergesort(a: array<Fac>, b: array<Fac>, lo: nat, hi: int)
    requires a != b && lo <= hi + 1 <= a.Length && (lo < hi ==> (hi - lo) / 2 < b.Length)
    modifies a, b
    ensures a[..lo] == old(a[..lo]) && a[hi + 1..] == old(a[hi + 1..])
    ensures SortedStably(old(a[lo..hi + 1]), a[lo..hi + 1])
    decreases hi + 1 - lo
  {
    hide Named, Strcmp, Ordered;
    if lo >= hi {
      ShortIsSorted(a[lo..hi + 1]);
    } else {
      var mid := (lo + hi) / 2;
      ghost var s, x0, y0 := a[lo..hi + 1], a[lo..mid + 1], a[mid + 1..hi + 1];
      assert s == x0 + y0;
      ghost var before, after := a[..lo], a[hi + 1..];
      Mergesort(a, b, lo, mid);
      ghost var x := a[lo..mid + 1];
      assert a[mid + 1..hi + 1] == a[mid + 1..][..hi - mid] == y0;
      assert a[hi + 1..] == a[mid + 1..][hi - mid..] == after;
      Mergesort(a, b, mid + 1, hi);
      ghost var y := a[mid + 1..hi + 1];
      assert a[lo..mid + 1] == a[..mid + 1][lo..] == x;
      assert a[..lo] == a[..mid + 1][..lo] == before;
      MergeRuns(a, b, lo, mid, hi, x, y);
      MergedStably(s, x0, y0, x, y);
    }
  }

  /** `wave_msort`: num/2+1 buffer cells are enough. */
  method Msort(a: array<Fac>)
    modifies a
    ensures SortedStably(old(a[..]), a[..])
  {
    var b := new Fac[a.Length / 2 + 1](_ => Fac("", 0));
    assert a[0..a.Length] == a[..];
    Mergesort(a, b, 0, a.Length - 1);
    assert a[0..a.Length] == a[..];
  }
}
