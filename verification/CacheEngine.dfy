/**
 The cache as an object with its lines in an array. Each method does to the fields what `CacheModel`
 says; the refill port's answer and memory come in as parameters.
 */
module CacheEngine {
  import opened Wrappers
  import opened Arithmetic
  import opened CacheModel
  import opened PendingQueue

  class Engine {
    const c: Config
    const lines: array<Line>
    var pendingRefill: bool
    var refillLine: nat
    var refillTag: nat
    var refillAddr: nat
    var filled: bool
    const refillPendingReqs: Queue
    var fsmEnqueued: bool
    var lruOut: nat
    ghost var accepted: seq<nat>
    ghost var answered: seq<nat>
    ghost var dropped: seq<nat>

    ghost function View(): Cache
      reads this, lines, refillPendingReqs
    {
      Cache(lines[..], pendingRefill, refillLine, refillTag, refillAddr, filled, refillPendingReqs.Requests(),
            fsmEnqueued, accepted, answered, dropped)
    }

    ghost predicate Valid()
      reads this, lines, refillPendingReqs, refillPendingReqs.Nodes()`next
    {
      refillPendingReqs.Valid() && Sized(c, View())
    }

    constructor (c: Config)
      requires Proper(c)
      ensures fresh(lines) && fresh(refillPendingReqs) && this.c == c && Valid() && View() == Start(c)
    {
      this.c := c;
      lines := new Line[c.sets * c.ways](_ => Line(INVALID, Zeros(c.lineSize)));
      pendingRefill, refillLine, refillTag, refillAddr, filled := false, 0, 0, 0, false;
      refillPendingReqs := new Queue();
      fsmEnqueued, lruOut := false, 0;
      accepted, answered, dropped := [], [], [];
      new;
      assert lines[..] == Start(c).lines;
    }

    /** The replacement counter: an 8-bit shift register with feedback. Any of the ways may come out. */
    method StepLru() returns (way: nat)
      requires c.ways > 0
      modifies this`lruOut
      ensures way < c.ways && lruOut < 256
    {
      var odd := (lruOut / 128 + lruOut / 8 + lruOut / 4 + lruOut / 2) % 2;
      lruOut := (lruOut * 2 + (1 - odd)) % 256;
      way := (lruOut / 2) % c.ways;
    }

    /** The first way of the set that holds the tag. */
    method GetLine(addr: nat) returns (hit: Option<nat>)
      requires Valid()
      ensures forall req: Req :: req.addr == addr ==> hit == HitLine(c, View(), req)
    {
      hide Index;
      var tag := TagOf(c, addr);
      var w := 0;
      while w < c.ways && lines[Index(c, SetOf(c, tag), w)].tag != tag
        invariant 0 <= w <= c.ways
        invariant FindWay(c, lines[..], tag, 0) == FindWay(c, lines[..], tag, w)
      {
        w := w + 1;
      }
      hit := if w < c.ways then Some(Index(c, SetOf(c, tag), w)) else None;
    }

    /** Copies between the requester's buffer and the start of a line. */
    method Copy(i: nat, req: Req) returns (data: Option<seq<Byte>>)
      requires i < lines.Length
      modifies lines
      ensures Outcome(View(), Ok, data) == Serve(old(View()), i, req)
    {
      match req.data {
        case None => data := None;
        case Some(d) =>
          if req.isWrite {
            lines[i] := CopyIn(lines[i], d);
            data := Some(d);
          } else {
            data := Some(CopyOut(lines[i], req.size));
          }
      }
    }

    /** The request comes with its element of the queue, in which it is not yet. */
    method HandleReq(mem: Memory, elem: Elem, way: nat, answer: Status)
      returns (status: Status, data: Option<seq<Byte>>)
      requires Valid() && way < c.ways && elem !in refillPendingReqs.elems
      modifies this, lines, refillPendingReqs, refillPendingReqs.Nodes()`next, elem`next
      ensures Valid()
      ensures Outcome(View(), status, data) == CacheModel.HandleReq(c, old(View()), mem, elem.req, way, answer)
      ensures refillPendingReqs.Nodes() <= old(refillPendingReqs.Nodes()) + {elem}
    {
      hide HitLine, Serve, CacheModel.Refill, TagOf, Index, FindWay, CacheModel.HandleReq;
      hide Queue.Requests, Linked;
      var req := elem.req;
      HandleReqIs(c, View(), mem, req, way, answer);
      HitInside(c, View(), req);
      var hit := GetLine(req.addr);
      status, data := Ok, None;
      if hit.Some? {
        data := Copy(hit.value, req);
      } else if pendingRefill {
        refillPendingReqs.PushBack(elem);
        status := Pending;
      } else {
        status, data := Refill(mem, elem, Index(c, SetOf(c, TagOf(c, req.addr)), way), answer);
      }
    }

    method Refill(mem: Memory, elem: Elem, i: nat, answer: Status) returns (status: Status, data: Option<seq<Byte>>)
      requires Valid() && i < lines.Length && elem !in refillPendingReqs.elems
      modifies this, lines, refillPendingReqs, refillPendingReqs.Nodes()`next, elem`next
      ensures Valid()
      ensures Outcome(View(), status, data) == CacheModel.Refill(c, old(View()), mem, elem.req, i, answer)
      ensures refillPendingReqs.Nodes() <= old(refillPendingReqs.Nodes()) + {elem}
    {
      hide Serve, RefillAddr, TagOf, MemLine, Queue.Requests, Linked;
      var req := elem.req;
      var tag := TagOf(c, req.addr);
      var addr := RefillAddr(c, req.addr);
      status, data := Ok, None;
      match answer {
        case Ok =>
          lines[i] := Line(tag, MemLine(c, mem, addr));
          data := Copy(i, req);
        case Pending =>
          refillPendingReqs.PushFront(elem);
          refillLine, refillTag, refillAddr, filled, pendingRefill := i, tag, addr, false, true;
          status := Pending;
        case Invalid => status := Invalid;
      }
    }

    method Request(mem: Memory, elem: Elem, way: nat, answer: Status)
      returns (status: Status, data: Option<seq<Byte>>)
      requires Valid() && way < c.ways && elem !in refillPendingReqs.elems
      modifies this, lines, refillPendingReqs, refillPendingReqs.Nodes()`next, elem`next
      ensures Valid() && Outcome(View(), status, data) == Access(c, old(View()), mem, elem.req, way, answer)
    {
      hide CacheModel.HandleReq, Queue.Requests;
      status, data := HandleReq(mem, elem, way, answer);
      if status == Pending { accepted := accepted + [elem.req.id]; }
    }

    /** `check_state` */
    method ScheduleIfNeeded()
      requires Valid()
      modifies this`fsmEnqueued
      ensures Valid() && View() == CheckState(old(View()))
    {
      var empty := refillPendingReqs.Empty();
      if !pendingRefill && !empty { fsmEnqueued := true; }
    }

    /** The refill port writes the victim's bytes. */
    method RefillWrites(mem: Memory)
      requires Valid() && pendingRefill
      modifies lines, this`filled
      ensures Valid() && View() == Fill(c, old(View()), mem)
    {
      lines[refillLine] := lines[refillLine].(data := MemLine(c, mem, refillAddr));
      filled := true;
    }

    /** The request that missed is taken off the queue; whoever waits on its element is answered. */
    method RefillResponse() returns (elem: Elem, data: Option<seq<Byte>>)
      requires Valid() && pendingRefill && refillPendingReqs.Requests() != []
      modifies this, lines, refillPendingReqs
      ensures Valid() && Outcome(View(), Ok, data) == Respond(c, old(View())) && elem == old(refillPendingReqs.elems)[0]
    {
      hide CopyOut, Queue.Requests, Linked;
      elem := refillPendingReqs.Pop();
      var req := elem.req;
      pendingRefill := false;
      data := None;
      if req.data.Some? {
        lines[refillLine] := lines[refillLine].(tag := refillTag);
        data := Some(CopyOut(lines[refillLine], req.size));
      }
      answered := answered + [req.id];
      ScheduleIfNeeded();
    }

    /** The first queued request is resumed; a miss puts its element back at the front. */
    method FsmHandler(mem: Memory, way: nat, answer: Status) returns (status: Status, data: Option<seq<Byte>>)
      requires Valid() && way < c.ways
      modifies this, lines, refillPendingReqs, refillPendingReqs.Nodes()`next
      ensures Valid() && Outcome(View(), status, data) == Resume(c, old(View()), mem, way, answer)
    {
      hide CacheModel.HandleReq, CheckState, Queue.Requests, Linked, Filed;
      fsmEnqueued := false;
      status, data := Ok, None;
      var empty := refillPendingReqs.Empty();
      ghost var s := old(View());
      if !pendingRefill && !empty {
        status, data := ResumeFirst(mem, way, answer);
        ResumeIs(c, s, mem, way, answer);
      }
      ScheduleIfNeeded();
    }

    method ResumeFirst(mem: Memory, way: nat, answer: Status) returns (status: Status, data: Option<seq<Byte>>)
      requires Valid() && way < c.ways && !pendingRefill && refillPendingReqs.Requests() != []
      modifies this, lines, refillPendingReqs, refillPendingReqs.Nodes()`next
      ensures Valid()
      ensures var s := old(View());
        var o := CacheModel.HandleReq(c, s.(queue := s.queue[1..]), mem, s.queue[0], way, answer);
        View() == Filed(o, s.queue[0].id) && status == o.status && data == o.data
    {
      hide CacheModel.HandleReq, Queue.Requests, Linked;
      var elem := refillPendingReqs.Pop();
      var req := elem.req;
      status, data := HandleReq(mem, elem, way, answer);
      if status == Ok { answered := answered + [req.id]; }
      if status == Invalid { dropped := dropped + [req.id]; }
    }

    method FlushAll()
      modifies lines
      ensures View() == Flush(old(View()))
    {
      for i := 0 to lines.Length
        invariant forall k :: 0 <= k < lines.Length ==>
          lines[k] == if k < i then old(lines[k]).(tag := INVALID) else old(lines[k])
      {
        lines[i] := lines[i].(tag := INVALID);
      }
      assert lines[..] == Emptied(old(lines[..]));
    }

    method FlushLineAt(addr: nat)
      requires Valid()
      modifies lines
      ensures View() == FlushLine(c, old(View()), addr)
    {
      hide TagOf;
      var tag := TagOf(c, addr);
      var set_ := SetOf(c, tag);
      for w := 0 to c.ways
        invariant forall k :: 0 <= k < lines.Length ==>
          lines[k] == if k / c.ways == set_ && k % c.ways < w && old(lines[k]).tag == tag
                      then old(lines[k]).(tag := INVALID) else old(lines[k])
      {
        var i := Index(c, set_, w);
        WayOf(set_, w);
        if lines[i].tag == tag { lines[i] := lines[i].(tag := INVALID); }
        forall k | 0 <= k < lines.Length && k / c.ways == set_ && k % c.ways == w ensures k == i {
          IndexOfLine(c, k);
        }
      }
      assert lines[..] == FlushLine(c, old(View()), addr).lines;
    }

    lemma WayOf(set_: nat, w: nat)
      requires Proper(c) && set_ < c.sets && w < c.ways
      ensures Index(c, set_, w) % c.ways == w
    {
      DivAdd(set_, w, c.ways);
    }
  }
}
