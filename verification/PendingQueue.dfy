/** The linked queue in which the cache keeps the requests it cannot handle yet. */
module PendingQueue {
  import opened Sequences
  import opened CacheModel

  /** An element carries its link itself, so it can be in one queue at a time. */
  class Elem {
    const req: Req
    var next: Elem?

    constructor (req: Req)
      ensures this.req == req
    {
      this.req, next := req, null;
    }
  }

  ghost predicate Linked(first: Elem?, q: seq<Elem>)
    reads (set e | e in q)`next
  {
    && first == (if q == [] then null else q[0])
    && forall i {:trigger q[i].next} :: 0 <= i < |q| ==> q[i].next == if i + 1 < |q| then q[i + 1] else null
  }

  ghost function RequestsOf(q: seq<Elem>): (r: seq<Req>)
    ensures |r| == |q| && forall i :: 0 <= i < |q| ==> r[i] == q[i].req
  {
    seq(|q|, i requires 0 <= i < |q| => q[i].req)
  }

  class Queue {
    var first: Elem?
    var last: Elem?
    ghost var elems: seq<Elem>

    /** `last` means something only while the queue is not empty. */
    ghost predicate Valid()
      reads this, (set e | e in elems)`next
    {
      Linked(first, elems) && NoRepeats(elems) && (elems != [] ==> last == elems[|elems| - 1])
    }

    constructor ()
      ensures Valid() && elems == []
    {
      first, last, elems := null, null, [];
    }

    /** The queue is empty for its users exactly if nothing is in it. */
    method Empty() returns (empty: bool)
      requires Valid()
      ensures empty <==> Requests() == []
    {
      empty := first == null;
    }

    /** The requests in the queue, in order. */
    ghost function Requests(): (r: seq<Req>)
      reads this
    {
      RequestsOf(elems)
    }

    ghost function Nodes(): set<Elem>
      reads this
    {
      set e | e in elems
    }

    method PushBack(elem: Elem)
      requires Valid() && elem !in elems
      modifies this, (set e | e in elems)`next, elem`next
      ensures Valid() && elems == old(elems) + [elem] && Requests() == old(Requests()) + [elem.req]
    {
      ghost var q := elems;
      if first != null {
        last.next := elem;
      } else {
        first := elem;
      }
      last := elem;
      elem.next := null;
      elems := elems + [elem];
      assert Requests() == old(Requests()) + [elem.req];
    }

    method PushFront(elem: Elem)
      requires Valid() && elem !in elems
      modifies this, elem`next
      ensures Valid() && elems == [elem] + old(elems) && Requests() == [elem.req] + old(Requests())
    {
      if first == null { last := elem; }
      elem.next := first;
      first := elem;
      elems := [elem] + elems;
      assert Requests() == [elem.req] + old(Requests());
    }

    /** Takes the first element off; the pointer to the last one is left as it is. */
    method Pop() returns (elem: Elem?)
      requires Valid()
      modifies this`first, this`elems
      ensures Valid() && (elem == null <==> old(Requests()) == [])
      ensures elem != null ==>
        elem !in elems && elem.req == old(Requests())[0] && Requests() == old(Requests())[1..]
      ensures if old(elems) == [] then elem == null && elems == []
        else elem == old(elems)[0] && elems == old(elems)[1..]
    {
      elem := first;
      if elem != null {
        first := elem.next;
        elems := elems[1..];
        assert Requests() == old(Requests())[1..];
      }
    }
  }
}
