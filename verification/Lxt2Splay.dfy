/**
 The top-down splay tree of the LXT2 trace writer, on its real pointers.

 The writer keeps two of them: one keyed by strings (the value dictionary) and one keyed by
 change masks (the map dictionary). They run the same code with a different comparison, so the
 comparison is a parameter here and `Lxt2Dictionary` instantiates it twice.
 */
module Lxt2Splay {

  class Node<K> {
    var left: Node?<K>
    var right: Node?<K>
    var next: Node?<K>
    const item: K
    const val: nat

    constructor (item: K, val: nat)
      ensures this.item == item && this.val == val
      ensures left == null && right == null && next == null
    {
      this.item, this.val := item, val;
      left, right, next := null, null, null;
    }
  }

  // ---------------------------------------------------------------- orders

  /** Mentioned to use transitivity on three given keys; the verifier never does so unasked. */
  ghost predicate Chain<K>(a: K, b: K, c: K) { true }

  /** What the code needs of `strcmp` or of `<` on masks: a three-way comparison. */
  ghost predicate TotalOrder<K(!new)>(cmp: (K, K) -> int) {
    && (forall a, b :: cmp(a, b) == 0 <==> a == b)
    && (forall a, b :: cmp(a, b) < 0 <==> cmp(b, a) > 0)
    && (forall a, b, c {:trigger Chain(a, b, c)} :: Chain(a, b, c) && cmp(a, b) < 0 && cmp(b, c) < 0 ==> cmp(a, c) < 0)
  }

  /** Every key of `s` is below `k`, or above it. */
  ghost predicate Below<K>(cmp: (K, K) -> int, s: set<Node<K>>, k: K) {
    forall x :: x in s ==> cmp(x.item, k) < 0
  }

  ghost predicate Above<K>(cmp: (K, K) -> int, s: set<Node<K>>, k: K) {
    forall x :: x in s ==> cmp(k, x.item) < 0
  }

  lemma BelowTrans<K(!new)>(cmp: (K, K) -> int, s: set<Node<K>>, x: K, k: K)
    requires TotalOrder(cmp) && Below(cmp, s, x) && cmp(x, k) < 0
    ensures Below(cmp, s, k)
  {
    forall n | n in s ensures cmp(n.item, k) < 0 { assert Chain(n.item, x, k); }
  }

  lemma AboveTrans<K(!new)>(cmp: (K, K) -> int, s: set<Node<K>>, x: K, k: K)
    requires TotalOrder(cmp) && Above(cmp, s, x) && cmp(k, x) < 0
    ensures Above(cmp, s, k)
  {
    forall n | n in s ensures cmp(k, n.item) < 0 { assert Chain(k, x, n.item); }
  }

  ghost predicate HasKey<K>(s: set<Node<K>>, k: K) {
    exists n :: n in s && n.item == k
  }

  // ---------------------------------------------------------------- trees of nodes

  /** The shape a pointer stands for. `Bin` holds the node object itself. */
  datatype Tree<K(!new)> = Leaf | Bin(l: Tree<K>, n: Node<K>, r: Tree<K>)

  ghost function Nodes<K(!new)>(t: Tree<K>): set<Node<K>> {
    match t
    case Leaf => {}
    case Bin(l, n, r) => Nodes(l) + {n} + Nodes(r)
  }

  /** `p` is the root of the heap tree `t`. */
  ghost predicate Shape<K(!new)>(p: Node?<K>, t: Tree<K>)
    reads Nodes(t)
  {
    match t
    case Leaf => p == null
    case Bin(l, n, r) => p == n && Shape(n.left, l) && Shape(n.right, r)
  }

  /** Search order. It also keeps the nodes of a tree apart. */
  ghost predicate Search<K(!new)>(cmp: (K, K) -> int, t: Tree<K>) {
    match t
    case Leaf => true
    case Bin(l, n, r) =>
      && Below(cmp, Nodes(l), n.item) && Above(cmp, Nodes(r), n.item)
      && Search(cmp, l) && Search(cmp, r)
  }

  lemma Apart<K(!new)>(cmp: (K, K) -> int, a: set<Node<K>>, k: K, b: set<Node<K>>)
    requires TotalOrder(cmp) && Below(cmp, a, k) && Above(cmp, b, k)
    ensures a !! b && forall n :: n in a || n in b ==> n.item != k
  {
    forall n | n in a ensures n !in b {
      assert cmp(n.item, k) < 0;
    }
  }

  /** Both rotations keep nodes and search order. */
  lemma RotationKeepsSearch<K(!new)>(cmp: (K, K) -> int, a: Tree<K>, x: Node<K>, b: Tree<K>, y: Node<K>, c: Tree<K>)
    requires TotalOrder(cmp)
    ensures Nodes(Bin(Bin(a, x, b), y, c)) == Nodes(Bin(a, x, Bin(b, y, c)))
    ensures Search(cmp, Bin(Bin(a, x, b), y, c)) <==> Search(cmp, Bin(a, x, Bin(b, y, c)))
  {
    if Search(cmp, Bin(Bin(a, x, b), y, c)) {
      assert x in Nodes(Bin(a, x, b));
      AboveTrans(cmp, Nodes(c), y.item, x.item);
    }
    if Search(cmp, Bin(a, x, Bin(b, y, c))) {
      assert y in Nodes(Bin(b, y, c));
      BelowTrans(cmp, Nodes(a), x.item, y.item);
    }
  }

  // ---------------------------------------------------------------- the two spines

  /**
   A spine under construction: what has been linked below the header so far, innermost link
   last. In the left spine every link hangs from its parent's `right`, and `sub` is its left
   subtree; the right spine is the mirror image.
   */
  datatype Spine<K(!new)> = Top | Link(outer: Spine<K>, n: Node<K>, sub: Tree<K>)

  ghost function SpineNodes<K(!new)>(c: Spine<K>): set<Node<K>> {
    match c
    case Top => {}
    case Link(o, n, s) => SpineNodes(o) + {n} + Nodes(s)
  }

  ghost function Bottom<K(!new)>(header: Node<K>, c: Spine<K>): Node<K> {
    match c
    case Top => header
    case Link(_, n, _) => n
  }

  ghost predicate LeftSpine<K(!new)>(header: Node<K>, c: Spine<K>)
    reads header`right, SpineNodes(c)
  {
    match c
    case Top => true
    case Link(o, n, s) =>
      && n !in Nodes(s) && n !in SpineNodes(o)
      && Shape(n.left, s)
      && Bottom(header, o).right == n
      && LeftSpine(header, o)
  }

  ghost predicate RightSpine<K(!new)>(header: Node<K>, c: Spine<K>)
    reads header`left, SpineNodes(c)
  {
    match c
    case Top => true
    case Link(o, n, s) =>
      && n !in Nodes(s) && n !in SpineNodes(o)
      && Shape(n.right, s)
      && Bottom(header, o).left == n
      && RightSpine(header, o)
  }

  /** The tree a left spine becomes once `x` fills its open end; `PlugRight` is its mirror. */
  ghost function PlugLeft<K(!new)>(c: Spine<K>, x: Tree<K>): Tree<K> {
    match c
    case Top => x
    case Link(o, n, s) => PlugLeft(o, Bin(s, n, x))
  }

  ghost function PlugRight<K(!new)>(c: Spine<K>, x: Tree<K>): Tree<K> {
    match c
    case Top => x
    case Link(o, n, s) => PlugRight(o, Bin(x, n, s))
  }

  lemma {:induction false} PlugLeftNodes<K(!new)>(c: Spine<K>, x: Tree<K>)
    ensures Nodes(PlugLeft(c, x)) == SpineNodes(c) + Nodes(x)
  {
    match c
    case Top =>
    case Link(o, n, s) => PlugLeftNodes(o, Bin(s, n, x));
  }

  lemma {:induction false} PlugRightNodes<K(!new)>(c: Spine<K>, x: Tree<K>)
    ensures Nodes(PlugRight(c, x)) == SpineNodes(c) + Nodes(x)
  {
    match c
    case Top =>
    case Link(o, n, s) => PlugRightNodes(o, Bin(x, n, s));
  }

  lemma {:induction false} PlugLeftShape<K(!new)>(header: Node<K>, c: Spine<K>, x: Tree<K>)
    requires LeftSpine(header, c) && Shape(Bottom(header, c).right, x)
    ensures Shape(header.right, PlugLeft(c, x))
  {
    match c
    case Top =>
    case Link(o, n, s) => PlugLeftShape(header, o, Bin(s, n, x));
  }

  lemma {:induction false} PlugRightShape<K(!new)>(header: Node<K>, c: Spine<K>, x: Tree<K>)
    requires RightSpine(header, c) && Shape(Bottom(header, c).left, x)
    ensures Shape(header.left, PlugRight(c, x))
  {
    match c
    case Top =>
    case Link(o, n, s) => PlugRightShape(header, o, Bin(x, n, s));
  }

  // ---------------------------------------------------------------- splay

  /** A search tree split by `k`: smaller keys left of the root, larger keys right of it. */
  ghost predicate SplitAt<K(!new)>(cmp: (K, K) -> int, t: Tree<K>, k: K) {
    t.Bin? && Search(cmp, t) && Below(cmp, Nodes(t.l), k) && Above(cmp, Nodes(t.r), k)
  }

  ghost predicate Before<K(!new)>(cmp: (K, K) -> int, a: set<Node<K>>, b: set<Node<K>>) {
    forall x, y :: x in a && y in b ==> cmp(x.item, y.item) < 0
  }

  /** Search order along a left spine, outermost link smallest; along a right spine, largest. */
  ghost predicate Ascending<K(!new)>(cmp: (K, K) -> int, c: Spine<K>) {
    match c
    case Top => true
    case Link(o, n, s) =>
      && Search(cmp, s) && Below(cmp, Nodes(s), n.item)
      && Before(cmp, SpineNodes(o), Nodes(s) + {n})
      && Ascending(cmp, o)
  }

  ghost predicate Descending<K(!new)>(cmp: (K, K) -> int, c: Spine<K>) {
    match c
    case Top => true
    case Link(o, n, s) =>
      && Search(cmp, s) && Above(cmp, Nodes(s), n.item)
      && Before(cmp, Nodes(s) + {n}, SpineNodes(o))
      && Descending(cmp, o)
  }

  /** The loop's order invariant, free of the heap: left spine, tree in hand, right spine. */
  ghost predicate Parts<K(!new)>(cmp: (K, K) -> int, k: K, lc: Spine<K>, t: Tree<K>, rc: Spine<K>) {
    && Search(cmp, t) && Ascending(cmp, lc) && Descending(cmp, rc)
    && Before(cmp, SpineNodes(lc), Nodes(t)) && Before(cmp, Nodes(t), SpineNodes(rc))
    && Below(cmp, SpineNodes(lc), k) && Above(cmp, SpineNodes(rc), k)
  }

  lemma BeforeTrans<K(!new)>(cmp: (K, K) -> int, a: set<Node<K>>, k: K, b: set<Node<K>>)
    requires TotalOrder(cmp) && Below(cmp, a, k) && Above(cmp, b, k)
    ensures Before(cmp, a, b)
  {
    forall x, y | x in a && y in b ensures cmp(x.item, y.item) < 0 { assert Chain(x.item, k, y.item); }
  }

  lemma LinkLeftParts<K(!new)>(cmp: (K, K) -> int, k: K, lc: Spine<K>, t: Tree<K>, rc: Spine<K>)
    requires TotalOrder(cmp)
    requires t.Bin? && Parts(cmp, k, lc, t, rc) && cmp(k, t.n.item) > 0
    ensures Parts(cmp, k, Link(lc, t.n, t.l), t.r, rc)
  {
    BelowTrans(cmp, Nodes(t.l), t.n.item, k);
    BeforeTrans(cmp, Nodes(t.l), t.n.item, Nodes(t.r));
  }

  lemma LinkRightParts<K(!new)>(cmp: (K, K) -> int, k: K, lc: Spine<K>, t: Tree<K>, rc: Spine<K>)
    requires TotalOrder(cmp)
    requires t.Bin? && Parts(cmp, k, lc, t, rc) && cmp(k, t.n.item) < 0
    ensures Parts(cmp, k, lc, t.l, Link(rc, t.n, t.r))
  {
    AboveTrans(cmp, Nodes(t.r), t.n.item, k);
    BeforeTrans(cmp, Nodes(t.l), t.n.item, Nodes(t.r));
  }

  lemma {:induction false} PlugLeftSearch<K(!new)>(cmp: (K, K) -> int, c: Spine<K>, x: Tree<K>)
    requires Ascending(cmp, c) && Search(cmp, x) && Before(cmp, SpineNodes(c), Nodes(x))
    ensures Search(cmp, PlugLeft(c, x))
  {
    match c
    case Top =>
    case Link(o, n, s) => PlugLeftSearch(cmp, o, Bin(s, n, x));
  }

  lemma {:induction false} PlugRightSearch<K(!new)>(cmp: (K, K) -> int, c: Spine<K>, x: Tree<K>)
    requires Descending(cmp, c) && Search(cmp, x) && Before(cmp, Nodes(x), SpineNodes(c))
    ensures Search(cmp, PlugRight(c, x))
  {
    match c
    case Top =>
    case Link(o, n, s) => PlugRightSearch(cmp, o, Bin(x, n, s));
  }

  /** When the descent stops, assembling the parts gives a search tree split by the key. */
  lemma AssembledSplits<K(!new)>(cmp: (K, K) -> int, k: K, lc: Spine<K>, t: Tree<K>, rc: Spine<K>)
    requires TotalOrder(cmp)
    requires Parts(cmp, k, lc, t, rc) && Stopped(cmp, k, t)
    ensures SplitAt(cmp, Bin(PlugLeft(lc, t.l), t.n, PlugRight(rc, t.r)), k)
  {
    PlugLeftSearch(cmp, lc, t.l);
    PlugRightSearch(cmp, rc, t.r);
    PlugLeftNodes(lc, t.l);
    PlugRightNodes(rc, t.r);
    if cmp(k, t.n.item) < 0 {
      AboveTrans(cmp, Nodes(t.r), t.n.item, k);
    } else if cmp(k, t.n.item) > 0 {
      BelowTrans(cmp, Nodes(t.l), t.n.item, k);
    }
  }

  lemma Regroup<T>(a: set<T>, b: set<T>, x: T, c: set<T>, d: set<T>)
    ensures (a + b) + {x} + (d + c) == (b + {x} + c) + a + d
  {
    var p, q := (a + b) + {x} + (d + c), (b + {x} + c) + a + d;
    forall y ensures y in p <==> y in q { }
  }

  lemma AssembledNodes<K(!new)>(lc: Spine<K>, t: Tree<K>, rc: Spine<K>)
    requires t.Bin?
    ensures Nodes(Bin(PlugLeft(lc, t.l), t.n, PlugRight(rc, t.r))) == Nodes(t) + SpineNodes(lc) + SpineNodes(rc)
  {
    PlugLeftNodes(lc, t.l);
    PlugRightNodes(rc, t.r);
    Regroup(SpineNodes(lc), Nodes(t.l), t.n, Nodes(t.r), SpineNodes(rc));
  }

  lemma SplitDecides<K(!new)>(cmp: (K, K) -> int, t: Tree<K>, k: K)
    requires TotalOrder(cmp) && SplitAt(cmp, t, k)
    ensures HasKey(Nodes(t), k) <==> t.n.item == k
  {
    Apart(cmp, Nodes(t.l), k, Nodes(t.r));
    assert t.n in Nodes(t);
  }

  /** The tree in hand and the two spines share no node and make up `repr`, and the header is none of these. */
  ghost predicate Cover<K(!new)>(header: Node<K>, lc: Spine<K>, tt: Tree<K>, rc: Spine<K>, repr: set<Node<K>>) {
    && header !in repr
    && Nodes(tt) + SpineNodes(lc) + SpineNodes(rc) == repr
    && Nodes(tt) !! SpineNodes(lc) && Nodes(tt) !! SpineNodes(rc) && SpineNodes(lc) !! SpineNodes(rc)
  }

  lemma CoverKeeps<K(!new)>(header: Node<K>, lc: Spine<K>, tt: Tree<K>, rc: Spine<K>, repr: set<Node<K>>, tt': Tree<K>)
    requires Cover(header, lc, tt, rc, repr) && Nodes(tt') == Nodes(tt)
    ensures Cover(header, lc, tt', rc, repr)
    ensures forall m :: m in Nodes(tt) ==> m !in SpineNodes(lc) && m !in SpineNodes(rc) && m != header
  {
  }

  /** The root and one subtree move to a spine. */
  lemma CoverLinks<K(!new)>(header: Node<K>, lc: Spine<K>, tt: Tree<K>, rc: Spine<K>, repr: set<Node<K>>)
    requires Cover(header, lc, tt, rc, repr) && tt.Bin? && RootApart(tt)
    ensures Cover(header, lc, tt.l, Link(rc, tt.n, tt.r), repr) && Cover(header, Link(lc, tt.n, tt.l), tt.r, rc, repr)
    ensures forall c :: c == lc || c == rc ==> tt.n !in SpineNodes(c) && Bottom(header, c) !in Nodes(tt)
    ensures Bottom(header, lc) == header || Bottom(header, lc) !in SpineNodes(rc)
    ensures Bottom(header, rc) == header || Bottom(header, rc) !in SpineNodes(lc)
    ensures header !in Nodes(tt) && header !in SpineNodes(lc) && header !in SpineNodes(rc)
  {
  }

  lemma RotationKeepsNodes<K(!new)>(a: Tree<K>, x: Node<K>, b: Tree<K>, y: Node<K>, c: Tree<K>)
    ensures Nodes(Bin(Bin(a, x, b), y, c)) == Nodes(Bin(a, x, Bin(b, y, c)))
  {
  }

  /** The loop state on the heap: the tree in hand and the two spines, disjoint, covering `repr`. */
  ghost predicate Loop<K(!new)>(header: Node<K>, lc: Spine<K>, t: Node?<K>, tt: Tree<K>,
    rc: Spine<K>, repr: set<Node<K>>)
    reads header, repr
  {
    && Cover(header, lc, tt, rc, repr)
    && Shape(t, tt)
    && LeftSpine(header, lc) && RightSpine(header, rc)
  }

  /** The root of a tree lies in neither subtree, and these are disjoint. */
  ghost predicate RootApart<K(!new)>(t: Tree<K>) {
    t.Bin? ==> t.n !in Nodes(t.l) && t.n !in Nodes(t.r) && Nodes(t.l) !! Nodes(t.r)
  }

  lemma SearchApart<K(!new)>(cmp: (K, K) -> int, t: Tree<K>)
    requires TotalOrder(cmp) && Search(cmp, t)
    ensures RootApart(t) && (t.Bin? ==> RootApart(t.l) && RootApart(t.r))
  {
    if t.Bin? {
      Apart(cmp, Nodes(t.l), t.n.item, Nodes(t.r));
      if t.l.Bin? { Apart(cmp, Nodes(t.l.l), t.l.n.item, Nodes(t.l.r)); }
      if t.r.Bin? { Apart(cmp, Nodes(t.r.l), t.r.n.item, Nodes(t.r.r)); }
    }
  }

  method RotateRight<K(!new)>(t: Node<K>, y: Node<K>, ghost header: Node<K>,
                              ghost lc: Spine<K>, ghost tt: Tree<K>, ghost rc: Spine<K>, ghost repr: set<Node<K>>)
    requires Loop(header, lc, t, tt, rc, repr) && tt.Bin? && tt.l.Bin?
    requires RootApart(tt) && RootApart(tt.l)
    requires y == t.left
    modifies t`left, y`right
    ensures Loop(header, lc, y, Bin(tt.l.l, tt.l.n, Bin(tt.l.r, tt.n, tt.r)), rc, repr)
  {
    assert Shape(t.left, tt.l);
    RotationKeepsNodes(tt.l.l, tt.l.n, tt.l.r, tt.n, tt.r);
    CoverKeeps(header, lc, tt, rc, repr, Bin(tt.l.l, tt.l.n, Bin(tt.l.r, tt.n, tt.r)));
    assert t in Nodes(tt) && y in Nodes(tt);
    hide Cover;
    t.left := y.right;
    y.right := t;
    assert LeftSpine(header, lc) && RightSpine(header, rc);
    assert Shape(y.left, tt.l.l) && Shape(t.left, tt.l.r) && Shape(t.right, tt.r);
    assert Shape(y, Bin(tt.l.l, tt.l.n, Bin(tt.l.r, tt.n, tt.r)));
  }

  method RotateLeft<K(!new)>(t: Node<K>, y: Node<K>, ghost header: Node<K>,
                             ghost lc: Spine<K>, ghost tt: Tree<K>, ghost rc: Spine<K>, ghost repr: set<Node<K>>)
    requires Loop(header, lc, t, tt, rc, repr) && tt.Bin? && tt.r.Bin?
    requires RootApart(tt) && RootApart(tt.r)
    requires y == t.right
    modifies t`right, y`left
    ensures Loop(header, lc, y, Bin(Bin(tt.l, tt.n, tt.r.l), tt.r.n, tt.r.r), rc, repr)
  {
    assert Shape(t.right, tt.r);
    RotationKeepsNodes(tt.l, tt.n, tt.r.l, tt.r.n, tt.r.r);
    CoverKeeps(header, lc, tt, rc, repr, Bin(Bin(tt.l, tt.n, tt.r.l), tt.r.n, tt.r.r));
    assert t in Nodes(tt) && y in Nodes(tt);
    hide Cover;
    t.right := y.left;
    y.left := t;
    assert LeftSpine(header, lc) && RightSpine(header, rc);
    assert Shape(t.left, tt.l) && Shape(t.right, tt.r.l) && Shape(y.right, tt.r.r);
    assert Shape(y, Bin(Bin(tt.l, tt.n, tt.r.l), tt.r.n, tt.r.r));
  }

  method LinkRight<K(!new)>(t: Node<K>, r: Node<K>, ghost header: Node<K>,
                            ghost lc: Spine<K>, ghost tt: Tree<K>, ghost rc: Spine<K>, ghost repr: set<Node<K>>)
    requires RootApart(tt)
    requires Loop(header, lc, t, tt, rc, repr) && tt.Bin? && r == Bottom(header, rc)
    modifies r`left
    ensures Loop(header, lc, t.left, tt.l, Link(rc, tt.n, tt.r), repr) && t.left == old(t.left)
  {
    CoverLinks(header, lc, tt, rc, repr);
    hide Cover;
    r.left := t;
    assert LeftSpine(header, lc) && RightSpine(header, Link(rc, tt.n, tt.r));
  }

  method LinkLeft<K(!new)>(t: Node<K>, l: Node<K>, ghost header: Node<K>,
                           ghost lc: Spine<K>, ghost tt: Tree<K>, ghost rc: Spine<K>, ghost repr: set<Node<K>>)
    requires RootApart(tt)
    requires Loop(header, lc, t, tt, rc, repr) && tt.Bin? && l == Bottom(header, lc)
    modifies l`right
    ensures Loop(header, Link(lc, tt.n, tt.l), t.right, tt.r, rc, repr) && t.right == old(t.right)
  {
    CoverLinks(header, lc, tt, rc, repr);
    hide Cover;
    l.right := t;
    assert RightSpine(header, rc) && LeftSpine(header, Link(lc, tt.n, tt.l));
  }

  method CloseLeft<K(!new)>(t: Node<K>, l: Node<K>, ghost header: Node<K>,
                            ghost lc: Spine<K>, ghost tt: Tree<K>, ghost rc: Spine<K>, ghost repr: set<Node<K>>)
    requires RootApart(tt)
    requires Loop(header, lc, t, tt, rc, repr) && tt.Bin? && l == Bottom(header, lc)
    modifies l`right
    ensures Shape(header.right, PlugLeft(lc, tt.l))
    ensures Loop(header, lc, t, tt, rc, repr)
  {
    assert Shape(t.left, tt.l);
    l.right := t.left;
    assert LeftSpine(header, lc);
    PlugLeftShape(header, lc, tt.l);
  }

  method CloseRight<K(!new)>(t: Node<K>, r: Node<K>, ghost header: Node<K>,
                             ghost lc: Spine<K>, ghost tt: Tree<K>, ghost rc: Spine<K>, ghost repr: set<Node<K>>)
    requires RootApart(tt)
    requires Loop(header, lc, t, tt, rc, repr) && tt.Bin? && r == Bottom(header, rc)
    modifies r`left
    ensures Shape(header.left, PlugRight(rc, tt.r))
    ensures Loop(header, lc, t, tt, rc, repr)
  {
    assert Shape(t.right, tt.r);
    r.left := t.right;
    assert RightSpine(header, rc);
    PlugRightShape(header, rc, tt.r);
  }

  method CloseBoth<K(!new)>(t: Node<K>, l: Node<K>, r: Node<K>, ghost header: Node<K>,
                            ghost lc: Spine<K>, ghost tt: Tree<K>, ghost rc: Spine<K>, ghost repr: set<Node<K>>)
    requires RootApart(tt)
    requires Loop(header, lc, t, tt, rc, repr) && tt.Bin?
    requires l == Bottom(header, lc) && r == Bottom(header, rc)
    modifies l`right, r`left
    ensures Shape(header.right, PlugLeft(lc, tt.l)) && Shape(header.left, PlugRight(rc, tt.r))
  {
    PlugLeftNodes(lc, tt.l);
    CloseLeft(t, l, header, lc, tt, rc, repr);
    assert r !in Nodes(PlugLeft(lc, tt.l)) && Shape(header.right, PlugLeft(lc, tt.l));
    CloseRight(t, r, header, lc, tt, rc, repr);
  }

  /** The four closing assignments: the tree in hand becomes the root between the two spines. */
  method Assemble<K(!new)>(t: Node<K>, l: Node<K>, r: Node<K>, header: Node<K>,
                           ghost lc: Spine<K>, ghost tt: Tree<K>, ghost rc: Spine<K>, ghost repr: set<Node<K>>)
    requires RootApart(tt)
    requires Loop(header, lc, t, tt, rc, repr) && tt.Bin?
    requires l == Bottom(header, lc) && r == Bottom(header, rc)
    modifies l`right, r`left, t`left, t`right
    ensures Shape(t, Bin(PlugLeft(lc, tt.l), tt.n, PlugRight(rc, tt.r)))
  {
    PlugLeftNodes(lc, tt.l);
    PlugRightNodes(rc, tt.r);
    assert t == tt.n && t != header && t !in Nodes(PlugLeft(lc, tt.l)) && t !in Nodes(PlugRight(rc, tt.r));
    hide Loop, PlugLeft, PlugRight;
    CloseBoth(t, l, r, header, lc, tt, rc, repr);
    assert Shape(header.right, PlugLeft(lc, tt.l)) && Shape(header.left, PlugRight(rc, tt.r));
    t.left := header.right;
    t.right := header.left;
    assert Shape(t.left, PlugLeft(lc, tt.l)) && Shape(t.right, PlugRight(rc, tt.r));
  }

  /** The tree in hand, seen from its root. */
  lemma InHand<K(!new)>(header: Node<K>, lc: Spine<K>, t: Node<K>, tt: Tree<K>, rc: Spine<K>, repr: set<Node<K>>)
    requires Loop(header, lc, t, tt, rc, repr)
    ensures tt.Bin? && t == tt.n && t in repr
    ensures Shape(t.left, tt.l) && Shape(t.right, tt.r)
    ensures t.left != null ==> t.left in repr
    ensures t.right != null ==> t.right in repr
    ensures Bottom(header, lc) in repr + {header} && Bottom(header, rc) in repr + {header}
    ensures Nodes(tt) + SpineNodes(lc) + SpineNodes(rc) == repr
  {
  }

  lemma PartsSearch<K(!new)>(cmp: (K, K) -> int, k: K, lc: Spine<K>, t: Tree<K>, rc: Spine<K>)
    requires TotalOrder(cmp) && Parts(cmp, k, lc, t, rc)
    ensures Search(cmp, t) && RootApart(t) && (t.Bin? ==> RootApart(t.l) && RootApart(t.r))
  {
    SearchApart(cmp, t);
  }

  lemma PartsRotateRight<K(!new)>(cmp: (K, K) -> int, k: K, lc: Spine<K>, t: Tree<K>, rc: Spine<K>)
    requires TotalOrder(cmp) && Parts(cmp, k, lc, t, rc) && t.Bin? && t.l.Bin?
    ensures Parts(cmp, k, lc, Bin(t.l.l, t.l.n, Bin(t.l.r, t.n, t.r)), rc)
  {
    RotationKeepsSearch(cmp, t.l.l, t.l.n, t.l.r, t.n, t.r);
  }

  lemma PartsRotateLeft<K(!new)>(cmp: (K, K) -> int, k: K, lc: Spine<K>, t: Tree<K>, rc: Spine<K>)
    requires TotalOrder(cmp) && Parts(cmp, k, lc, t, rc) && t.Bin? && t.r.Bin?
    ensures Parts(cmp, k, lc, Bin(Bin(t.l, t.n, t.r.l), t.r.n, t.r.r), rc)
  {
    RotationKeepsSearch(cmp, t.l, t.n, t.r.l, t.r.n, t.r.r);
  }

  /** One turn of the loop when the key is left of `t`; `stop` says that the turn ended it. */
  method DescendLeft<K(!new)>(t0: Node<K>, r0: Node<K>, k: K, cmp: (K, K) -> int, ghost header: Node<K>,
                              ghost lc: Spine<K>, ghost tt0: Tree<K>, ghost rc0: Spine<K>, ghost repr: set<Node<K>>)
      returns (stop: bool, t: Node<K>, r: Node<K>, ghost tt: Tree<K>, ghost rc: Spine<K>)
    requires TotalOrder(cmp) && Parts(cmp, k, lc, tt0, rc0)
    requires Loop(header, lc, t0, tt0, rc0, repr) && tt0.Bin? && r0 == Bottom(header, rc0)
    requires cmp(k, t0.item) < 0
    modifies repr`left, repr`right, header`left
    ensures tt.Bin? && Loop(header, lc, t, tt, rc, repr) && r == Bottom(header, rc)
    ensures Parts(cmp, k, lc, tt, rc)
    ensures if stop then cmp(k, t.item) < 0 && tt.l.Leaf? else tt < tt0
    ensures forall n :: n in repr ==> n.next == old(n.next)
  {
    hide Loop, Parts, Search, RootApart;
    t, r, tt, rc := t0, r0, tt0, rc0;
    InHand(header, lc, t, tt, rc, repr);
    if t.left == null { return true, t, r, tt, rc; }
    if cmp(k, t.left.item) < 0 {
      var y := t.left;
      PartsSearch(cmp, k, lc, tt, rc);
      PartsRotateRight(cmp, k, lc, tt, rc);
      RotateRight(t, y, header, lc, tt, rc, repr);
      tt := Bin(tt.l.l, tt.l.n, Bin(tt.l.r, tt.n, tt.r));
      t := y;
      InHand(header, lc, t, tt, rc, repr);
      if t.left == null { return true, t, r, tt, rc; }
    }
    PartsSearch(cmp, k, lc, tt, rc);
    LinkRightParts(cmp, k, lc, tt, rc);
    LinkRight(t, r, header, lc, tt, rc, repr);
    stop, r, t := false, t, t.left;
    rc := Link(rc, tt.n, tt.r);
    tt := tt.l;
  }

  method DescendRight<K(!new)>(t0: Node<K>, l0: Node<K>, k: K, cmp: (K, K) -> int, ghost header: Node<K>,
                               ghost lc0: Spine<K>, ghost tt0: Tree<K>, ghost rc: Spine<K>, ghost repr: set<Node<K>>)
      returns (stop: bool, t: Node<K>, l: Node<K>, ghost tt: Tree<K>, ghost lc: Spine<K>)
    requires TotalOrder(cmp) && Parts(cmp, k, lc0, tt0, rc)
    requires Loop(header, lc0, t0, tt0, rc, repr) && tt0.Bin? && l0 == Bottom(header, lc0)
    requires cmp(k, t0.item) > 0
    modifies repr`left, repr`right, header`right
    ensures tt.Bin? && Loop(header, lc, t, tt, rc, repr) && l == Bottom(header, lc)
    ensures Parts(cmp, k, lc, tt, rc)
    ensures if stop then cmp(k, t.item) > 0 && tt.r.Leaf? else tt < tt0
    ensures forall n :: n in repr ==> n.next == old(n.next)
  {
    hide Loop, Parts, Search, RootApart;
    t, l, tt, lc := t0, l0, tt0, lc0;
    InHand(header, lc, t, tt, rc, repr);
    if t.right == null { return true, t, l, tt, lc; }
    if cmp(k, t.right.item) > 0 {
      var y := t.right;
      PartsSearch(cmp, k, lc, tt, rc);
      PartsRotateLeft(cmp, k, lc, tt, rc);
      RotateLeft(t, y, header, lc, tt, rc, repr);
      tt := Bin(Bin(tt.l, tt.n, tt.r.l), tt.r.n, tt.r.r);
      t := y;
      InHand(header, lc, t, tt, rc, repr);
      if t.right == null { return true, t, l, tt, lc; }
    }
    PartsSearch(cmp, k, lc, tt, rc);
    LinkLeftParts(cmp, k, lc, tt, rc);
    LinkLeft(t, l, header, lc, tt, rc, repr);
    stop, l, t := false, t, t.right;
    lc := Link(lc, tt.n, tt.l);
    tt := tt.r;
  }

  /** Where the loop stops: at the key, or next to where it would be. */
  ghost predicate Stopped<K(!new)>(cmp: (K, K) -> int, k: K, t: Tree<K>) {
    t.Bin? && (cmp(k, t.n.item) == 0 || (cmp(k, t.n.item) < 0 && t.l.Leaf?) || (cmp(k, t.n.item) > 0 && t.r.Leaf?))
  }

  method Descend<K(!new)>(cmp: (K, K) -> int, k: K, root: Node<K>, header: Node<K>,
    ghost t0: Tree<K>, ghost repr: set<Node<K>>)
      returns (t: Node<K>, l: Node<K>, r: Node<K>, ghost lc: Spine<K>, ghost tt: Tree<K>, ghost rc: Spine<K>)
    requires TotalOrder(cmp)
    requires t0.Bin? && Loop(header, Top, root, t0, Top, repr) && Parts(cmp, k, Top, t0, Top)
    modifies repr, header
    ensures Loop(header, lc, t, tt, rc, repr) && Parts(cmp, k, lc, tt, rc) && Stopped(cmp, k, tt)
    ensures l == Bottom(header, lc) && r == Bottom(header, rc)
    ensures forall n :: n in repr ==> n.next == old(n.next)
  {
    hide Loop, Parts, Search, TotalOrder, Shape, SpineNodes;
    l, r, t := header, header, root;
    tt, lc, rc := t0, Top, Top;
    while true
      invariant tt.Bin? && Loop(header, lc, t, tt, rc, repr) && Parts(cmp, k, lc, tt, rc)
      invariant l == Bottom(header, lc) && r == Bottom(header, rc)
      invariant forall n :: n in repr ==> n.next == old(n.next)
      decreases tt
    {
      InHand(header, lc, t, tt, rc, repr);
      var stop := true;
      if cmp(k, t.item) < 0 {
        stop, t, r, tt, rc := DescendLeft(t, r, k, cmp, header, lc, tt, rc, repr);
      } else if cmp(k, t.item) > 0 {
        stop, t, l, tt, lc := DescendRight(t, l, k, cmp, header, lc, tt, rc, repr);
      }
      InHand(header, lc, t, tt, rc, repr);
      if stop { break; }
    }
  }

  lemma StartLoop<K(!new)>(cmp: (K, K) -> int, k: K, header: Node<K>, root: Node<K>, t0: Tree<K>, repr: set<Node<K>>)
    requires Shape(root, t0) && Search(cmp, t0) && Nodes(t0) == repr && header !in repr
    ensures t0.Bin? && Loop(header, Top, root, t0, Top, repr) && Parts(cmp, k, Top, t0, Top)
  {
  }

  lemma AssembledIsSplayed<K(!new)>(cmp: (K, K) -> int, k: K, lc: Spine<K>, tt: Tree<K>,
    rc: Spine<K>, repr: set<Node<K>>)
    requires TotalOrder(cmp) && Parts(cmp, k, lc, tt, rc) && Stopped(cmp, k, tt)
    requires Nodes(tt) + SpineNodes(lc) + SpineNodes(rc) == repr
    ensures var t1 := Bin(PlugLeft(lc, tt.l), tt.n, PlugRight(rc, tt.r));
      SplitAt(cmp, t1, k) && Nodes(t1) == repr && (HasKey(repr, k) <==> tt.n.item == k)
  {
    hide Parts, TotalOrder, SplitAt, HasKey;
    AssembledSplits(cmp, k, lc, tt, rc);
    AssembledNodes(lc, tt, rc);
    SplitDecides(cmp, Bin(PlugLeft(lc, tt.l), tt.n, PlugRight(rc, tt.r)), k);
  }

  /**
   Top-down splay. Whatever the key, the same nodes stay in search order, the result is split
   by the key, and the key is at the root exactly when it is in the tree.
   */
  method Splay<K(!new)>(cmp: (K, K) -> int, k: K, root: Node<K>, ghost t0: Tree<K>, ghost repr: set<Node<K>>)
      returns (top: Node<K>, ghost t1: Tree<K>)
    requires TotalOrder(cmp)
    requires Shape(root, t0) && Search(cmp, t0) && Nodes(t0) == repr
    modifies repr
    ensures Shape(top, t1) && Nodes(t1) == repr
    ensures SplitAt(cmp, t1, k)
    ensures HasKey(repr, k) <==> top.item == k
    ensures forall n :: n in repr ==> n.next == old(n.next)
  {
    hide Loop, Parts, Search, TotalOrder, PlugLeft, PlugRight, SplitAt, HasKey, SpineNodes, Bottom, Nodes, Shape;
    var header := new Node(k, 0);
    StartLoop(cmp, k, header, root, t0, repr);
    var l, r;
    ghost var lc, tt, rc;
    top, l, r, lc, tt, rc := Descend(cmp, k, root, header, t0, repr);
    InHand(header, lc, top, tt, rc, repr);
    PartsSearch(cmp, k, lc, tt, rc);
    AssembledIsSplayed(cmp, k, lc, tt, rc, repr);
    Assemble(top, l, r, header, lc, tt, rc, repr);
    t1 := Bin(PlugLeft(lc, tt.l), tt.n, PlugRight(rc, tt.r));
  }
}
