/**
 The LXT2 writer's dictionaries: a splay tree for lookup threaded by an insertion-ordered list
 for output. A key's id is the count of keys before it, and readers find a key by that id.
 */
module Lxt2Dictionary {
  import opened Lxt2Splay

  // ---------------------------------------------------------------- the list of keys

  /** What interning `k` does to the keys in id order. */
  function Interned<K(==)>(keys: seq<K>, k: K): seq<K> {
    if k in keys then keys else keys + [k]
  }

  ghost predicate Distinct<K(!new)>(keys: seq<K>) {
    forall i, j :: 0 <= i < j < |keys| ==> keys[i] != keys[j]
  }

  /** Interning a list of keys, first to last. */
  function InternAll<K(==)>(keys: seq<K>, ks: seq<K>): seq<K>
    decreases ks
  {
    if ks == [] then keys else InternAll(Interned(keys, ks[0]), ks[1..])
  }

  /** Ids are final: interning more keys never moves a key that has one. */
  lemma {:induction false} IdsAreFinal<K(!new)>(keys: seq<K>, ks: seq<K>)
    requires Distinct(keys)
    ensures keys <= InternAll(keys, ks) && Distinct(InternAll(keys, ks))
    ensures forall k :: k in ks ==> k in InternAll(keys, ks)
    decreases ks
  {
    if ks != [] {
      var more := Interned(keys, ks[0]);
      assert ks[0] in more by { if ks[0] !in keys { assert more[|keys|] == ks[0]; } }
      IdsAreFinal(more, ks[1..]);
      var all := InternAll(keys, ks);
      assert all == InternAll(more, ks[1..]);
      assert more <= all;
      assert ks[0] in all by {
        var i :| 0 <= i < |more| && more[i] == ks[0];
        assert all[i] == ks[0];
      }
      assert forall k :: k in ks ==> k == ks[0] || k in ks[1..];
    }
  }

  // ---------------------------------------------------------------- insertion into the tree

  lemma {:induction false} SameKeySameNode<K(!new)>(cmp: (K, K) -> int, t: Tree<K>, a: Node<K>, b: Node<K>)
    requires TotalOrder(cmp) && Search(cmp, t)
    requires a in Nodes(t) && b in Nodes(t) && a.item == b.item
    ensures a == b
  {
    match t
    case Leaf =>
    case Bin(l, n, r) =>
      BeforeTrans(cmp, Nodes(l), n.item, Nodes(r));
      assert cmp(a.item, b.item) == 0;
      if a in Nodes(l) && b in Nodes(l) {
        SameKeySameNode(cmp, l, a, b);
      } else if a in Nodes(r) && b in Nodes(r) {
        SameKeySameNode(cmp, r, a, b);
      }
  }

  /** `n` becomes the root with the splayed tree on its right, whose left part moves to `n`. */
  method HangRight<K(!new)>(cmp: (K, K) -> int, n: Node<K>, t: Node<K>, ghost t1: Tree<K>)
      returns (ghost t2: Tree<K>)
    requires TotalOrder(cmp)
    requires Shape(t, t1) && SplitAt(cmp, t1, n.item) && cmp(n.item, t.item) < 0
    requires n !in Nodes(t1)
    modifies n, t
    ensures Shape(n, t2) && Search(cmp, t2) && Nodes(t2) == Nodes(t1) + {n}
    ensures n.next == old(n.next) && t.next == old(t.next)
  {
    Apart(cmp, Nodes(t1.l), t1.n.item, Nodes(t1.r));
    AboveTrans(cmp, Nodes(t1.r), t.item, n.item);
    assert Shape(t.left, t1.l) && Shape(t.right, t1.r);
    n.left := t.left;
    n.right := t;
    t.left := null;
    ghost var half := Bin(Leaf, t, t1.r);
    t2 := Bin(t1.l, n, half);
    assert Nodes(half) == {t} + Nodes(t1.r);
    assert Nodes(t2) == Nodes(t1) + {n};
  }

  method HangLeft<K(!new)>(cmp: (K, K) -> int, n: Node<K>, t: Node<K>, ghost t1: Tree<K>)
      returns (ghost t2: Tree<K>)
    requires TotalOrder(cmp)
    requires Shape(t, t1) && SplitAt(cmp, t1, n.item) && cmp(n.item, t.item) > 0
    requires n !in Nodes(t1)
    modifies n, t
    ensures Shape(n, t2) && Search(cmp, t2) && Nodes(t2) == Nodes(t1) + {n}
    ensures n.next == old(n.next) && t.next == old(t.next)
  {
    Apart(cmp, Nodes(t1.l), t1.n.item, Nodes(t1.r));
    BelowTrans(cmp, Nodes(t1.l), t.item, n.item);
    assert Shape(t.left, t1.l) && Shape(t.right, t1.r);
    n.right := t.right;
    n.left := t;
    t.right := null;
    ghost var half := Bin(t1.l, t, Leaf);
    t2 := Bin(half, n, t1.r);
    assert Nodes(half) == Nodes(t1.l) + {t};
    assert Nodes(t2) == Nodes(t1) + {n};
  }

  /**
   Adds `k` unless it is there; either way `k` ends at the root of a search tree. A new node is
   the only new object, and no other node's list pointer changes.
   */
  method Insert<K(!new)>(cmp: (K, K) -> int, k: K, root: Node?<K>, val: nat, ghost t0: Tree<K>,
    ghost repr: set<Node<K>>)
      returns (top: Node<K>, ghost t1: Tree<K>)
    requires TotalOrder(cmp)
    requires Shape(root, t0) && Search(cmp, t0) && Nodes(t0) == repr
    modifies repr
    ensures Shape(top, t1) && Search(cmp, t1)
    ensures top.item == k
    ensures HasKey(repr, k) ==> Nodes(t1) == repr && top in repr
    ensures !HasKey(repr, k) ==>
              fresh(top) && top.val == val && top.next == null && Nodes(t1) == repr + {top}
    ensures forall n :: n in repr ==> n.next == old(n.next)
  {
    var n := new Node(k, val);
    if root == null {
      t1 := Bin(Leaf, n, Leaf);
      return n, t1;
    }
    top, t1 := Splay(cmp, k, root, t0, repr);
    assert top in repr;
    if cmp(k, top.item) < 0 {
      t1 := HangRight(cmp, n, top, t1);
      top := n;
    } else if cmp(k, top.item) > 0 {
      t1 := HangLeft(cmp, n, top, t1);
      top := n;
    }
  }

  /** `Shape` over a snapshot of the child pointers. */
  ghost predicate ShapeIn<K(!new)>(left: map<Node<K>, Node?<K>>, right: map<Node<K>,
    Node?<K>>, p: Node?<K>, t: Tree<K>) {
    match t
    case Leaf => p == null
    case Bin(l, n, r) =>
      && p == n && n in left && n in right
      && ShapeIn(left, right, left[n], l) && ShapeIn(left, right, right[n], r)
  }

  /** A tree's shape depends on the child pointers only, not on the list pointers. */
  lemma {:induction false} ShapeIsChildren<K(!new)>(left: map<Node<K>, Node?<K>>, right: map<Node<K>, Node?<K>>,
                                                   p: Node?<K>, t: Tree<K>)
    requires forall n :: n in Nodes(t) ==> n in left && n in right && left[n] == n.left && right[n] == n.right
    ensures Shape(p, t) <==> ShapeIn(left, right, p, t)
    decreases t
  {
    match t
    case Leaf =>
    case Bin(l, n, r) =>
      ShapeIsChildren(left, right, n.left, l);
      ShapeIsChildren(left, right, n.right, r);
  }

  // ---------------------------------------------------------------- the dictionary

  class Dictionary<K(==, !new)> {
    const cmp: (K, K) -> int
    var root: Node?<K>
    var head: Node?<K>
    var curr: Node?<K>
    var num: nat
    ghost var tree: Tree<K>
    ghost var order: seq<Node<K>>  // the nodes in id order
    ghost var keys: seq<K>         // and their keys
    ghost var repr: set<Node<K>>

    /** The list part of the invariant: ids are dense in list order. */
    ghost predicate Threaded(nodes: set<Node<K>>)
      reads this, nodes
    {
      && |order| == num == |keys|
      && (forall i :: 0 <= i < num ==> order[i] in nodes && order[i].val == i && order[i].item == keys[i])
      && (forall i :: 0 <= i < num - 1 ==> order[i].next == order[i + 1])
      && (num == 0 ==> head == null && curr == null)
      && (num > 0 ==> head == order[0] && curr == order[num - 1])
    }

    ghost predicate Rooted()
      reads this, repr
    {
      TotalOrder(cmp) && Nodes(tree) == repr && Shape(root, tree) && Search(cmp, tree)
    }

    ghost predicate Valid()
      reads this, repr
    {
      && Rooted()
      && Threaded(repr)
      && (forall n :: n in repr ==> n in order)
    }

    constructor (cmp: (K, K) -> int)
      requires TotalOrder(cmp)
      ensures Valid() && keys == [] && this.cmp == cmp && repr == {}
    {
      this.cmp := cmp;
      root, head, curr, num := null, null, null, 0;
      tree, order, keys, repr := Leaf, [], [], {};
    }

    lemma KeysAreDistinct()
      requires Valid()
      ensures Distinct(keys)
    {
      forall i, j | 0 <= i < j < num ensures keys[i] != keys[j] {
        if order[i].item == order[j].item { SameKeySameNode(cmp, tree, order[i], order[j]); }
      }
    }

    lemma HasKeyIffListed(k: K)
      requires Valid()
      ensures HasKey(repr, k) <==> k in keys
    {
      if n :| n in repr && n.item == k {
        var i :| 0 <= i < |order| && order[i] == n;
        assert keys[i] == k;
      }
      if k in keys {
        var i :| 0 <= i < |order| && keys[i] == k;
        assert order[i] in repr && order[i].item == k;
      }
    }

    /** Puts `k` at the root of the tree, with the next id; the list is not touched. */
    method Grow(k: K)
      requires Valid() && !HasKey(repr, k)
      modifies `root, `tree, `repr, repr
      ensures Rooted() && root != null && root.item == k && root.val == num
      ensures fresh(root) && repr == old(repr) + {root}
      ensures forall n :: n in old(repr) ==> n.next == old(n.next)
    {
      hide Shape, Search, Nodes, TotalOrder;
      root, tree := Insert(cmp, k, root, num, tree, repr);
      repr := repr + {root};
    }

    /** `dict_curr->next = dict; dict_curr = dict`, or the first node of the list. */
    method Chain(n: Node<K>, ghost nodes: set<Node<K>>)
      requires Threaded(nodes) && n in nodes
      requires n !in order && n.val == num
      modifies `head, `curr, `num, `order, `keys, nodes
      ensures Threaded(nodes) && order == old(order) + [n] && keys == old(keys) + [n.item]
      ensures forall x :: x in nodes ==> x.left == old(x.left) && x.right == old(x.right)
    {
      if curr != null {
        curr.next := n;
        curr := n;
      } else {
        head, curr := n, n;
      }
      order, keys := order + [n], keys + [n.item];
      num := num + 1;
    }

    method Append(n: Node<K>)
      requires Rooted() && Threaded(repr)
      requires n in repr && n !in order && n.val == num
      requires forall x :: x in repr ==> x == n || x in order
      modifies `head, `curr, `num, `order, `keys, repr
      ensures Valid() && keys == old(keys) + [n.item]
    {
      ghost var left := map x | x in repr :: x.left;
      ghost var right := map x | x in repr :: x.right;
      ShapeIsChildren(left, right, root, tree);
      ghost var before := order;
      Chain(n, repr);
      ShapeIsChildren(left, right, root, tree);
      assert n in order by { assert order[|before|] == n; }
      forall x | x in repr ensures x in order {
        if x != n { var i :| 0 <= i < |before| && before[i] == x; assert order[i] == x; }
      }
    }

    lemma RootIsNode()
      requires Rooted() && root != null
      ensures root in repr
    {
    }

    /** Brings the key to the root, if it is there. */
    method Bring(k: K)
      requires Valid() && root != null
      modifies `root, `tree, repr
      ensures Valid() && root != null && root in repr && (root.item == k <==> HasKey(repr, k))
    {
      hide Shape, Search, Nodes, TotalOrder;
      root, tree := Splay(cmp, k, root, tree, repr);
      RootIsNode();
    }

    /** The splay that precedes every use: is `k` listed, and if so at the root. */
    method Find(k: K) returns (found: bool)
      requires Valid()
      modifies `root, `tree, repr
      ensures Valid()
      ensures found <==> k in keys
      ensures found ==> root != null && root.item == k && root in repr
    {
      hide Shape, Search, Nodes, TotalOrder, Rooted, Threaded;
      HasKeyIffListed(k);
      if root == null {
        EmptyHasNone(k);
        return false;
      }
      Bring(k);
      found := root.item == k;
    }

    lemma EmptyHasNone(k: K)
      requires Rooted() && root == null
      ensures !HasKey(repr, k)
    {
    }

    /** Inserts the absent key `k` with the next id and hangs it on the list. */
    method Add(k: K)
      requires Valid() && k !in keys
      modifies this, repr
      ensures Valid() && fresh(repr - old(repr))
      ensures keys == old(keys) + [k]
    {
      hide Shape, Search, Nodes, TotalOrder;
      HasKeyIffListed(k);
      Grow(k);
      assert Threaded(repr);
      Append(root);
    }

    /** Splay for `k`, and when it is absent add it. Returns its id. */
    method Intern(k: K) returns (id: nat)
      requires Valid()
      modifies this, repr
      ensures Valid() && fresh(repr - old(repr))
      ensures keys == Interned(old(keys), k)
      ensures id < |keys| && keys[id] == k
    {
      var found := Find(k);
      if !found {
        id := num;
        Add(k);
      } else {
        assert root in order;
        id := root.val;
      }
    }

    /** The id of a key known to be there. */
    method IdOf(k: K) returns (id: nat)
      requires Valid() && k in keys
      modifies `root, `tree, repr
      ensures Valid()
      ensures id < |keys| && keys[id] == k
    {
      var found := Find(k);
      assert root in order;
      id := root.val;
    }

    /** Writes the keys out in list order and empties the dictionary; the id check cannot fail. */
    method Drain() returns (items: seq<K>, internalError: bool)
      requires Valid()
      modifies this
      ensures items == old(keys) && !internalError
      ensures Valid() && keys == [] && repr == {}
    {
      items, internalError := [], false;
      var d := head;
      for i := 0 to num
        invariant unchanged(this) && Valid()
        invariant i < num ==> d == order[i]
        invariant |items| == i && forall j :: 0 <= j < i ==> items[j] == keys[j]
        invariant !internalError
      {
        if d.val != i {
          internalError := true;
          return;
        }
        items := items + [d.item];
        d := d.next;
      }
      Clear();
    }

    method Clear()
      requires TotalOrder(cmp)
      modifies this
      ensures Valid() && keys == [] && repr == {}
    {
      root, head, curr, num := null, null, null, 0;
      tree, order, keys, repr := Leaf, [], [], {};
    }
  }
}
