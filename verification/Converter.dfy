/**
 The width converter as the program has it: linked lists of pieces and of stalled requests, and the
 handlers that take it from one state of `ConverterModel` to the next.
 */
module Converter {
  import opened Wrappers
  import opened ConverterModel

  /** A request, or a piece of one. */
  class IoReq {
    const id: nat
    const addr: nat
    const size: nat
    var next: IoReq?

    constructor (id: nat, addr: nat, size: nat, next: IoReq?)
      ensures this.id == id && this.addr == addr && this.size == size && this.next == next
    {
      this.id, this.addr, this.size, this.next := id, addr, size, next;
    }
  }

  ghost predicate Linked(first: IoReq?, q: seq<IoReq>)
    reads (set e | e in q)`next
  {
    && first == (if q == [] then null else q[0])
    && (forall i {:trigger q[i].next} :: 0 <= i < |q| ==> q[i].next == if i + 1 < |q| then q[i + 1] else null)
    && forall i, j :: 0 <= i < j < |q| ==> q[i] != q[j]
  }

  function AsReq(r: IoReq): Req {
    Req(r.id, r.addr, r.size)
  }

  ghost function ReqsOf(q: seq<IoReq>): (r: seq<Req>)
    ensures |r| == |q|
  {
    seq(|q|, i requires 0 <= i < |q| => AsReq(q[i]))
  }

  ghost function PiecesOf(q: seq<IoReq>): (r: seq<Piece>)
    ensures |r| == |q|
  {
    seq(|q|, i requires 0 <= i < |q| => Piece(q[i].addr, q[i].size))
  }

  lemma Parts(q: seq<IoReq>)
    requires q != []
    ensures ReqsOf(q) == [AsReq(q[0])] + ReqsOf(q[1..])
    ensures PiecesOf(q) == [Piece(q[0].addr, q[0].size)] + PiecesOf(q[1..])
  {
  }

  lemma Joined(a: seq<IoReq>, b: seq<IoReq>)
    ensures ReqsOf(a + b) == ReqsOf(a) + ReqsOf(b) && PiecesOf(a + b) == PiecesOf(a) + PiecesOf(b)
  {
  }

  /** Taking the first node off. */
  lemma Rest(first: IoReq, q: seq<IoReq>)
    requires Linked(first, q)
    ensures q != [] && q[0] == first && Linked(first.next, q[1..]) && first !in q[1..]
  {
    forall i {:trigger q[1..][i].next} | 0 <= i < |q[1..]|
      ensures q[1..][i].next == if i + 1 < |q[1..]| then q[1..][i + 1] else null
    {
      assert q[1..][i] == q[i + 1] && (q[i + 1].next == if i + 2 < |q| then q[i + 2] else null);
    }
    assert q[0].next == if 1 < |q| then q[1] else null;
  }

  /** Putting a node in front. */
  lemma InFront(node: IoReq, first: IoReq?, q: seq<IoReq>)
    requires Linked(first, q) && node !in q && node.next == first
    ensures Linked(node, [node] + q)
  {
    var r := [node] + q;
    forall i {:trigger r[i].next} | 0 <= i < |r| ensures r[i].next == if i + 1 < |r| then r[i + 1] else null {
      if i > 0 { assert r[i] == q[i - 1] && (q[i - 1].next == if i < |q| then q[i] else null); }
    }
  }

  /** Putting a node at the end, once the last one points to it. */
  lemma AtEnd(node: IoReq, first: IoReq, q: seq<IoReq>)
    requires first == (if q == [] then node else q[0]) && node !in q && node.next == null
    requires forall i {:trigger q[i].next} :: 0 <= i < |q| ==> q[i].next == if i + 1 < |q| then q[i + 1] else node
    requires forall i, j :: 0 <= i < j < |q| ==> q[i] != q[j]
    ensures Linked(first, q + [node])
  {
    var r := q + [node];
    forall i {:trigger r[i].next} | 0 <= i < |r| ensures r[i].next == if i + 1 < |r| then r[i + 1] else null {
      if i < |q| { assert r[i] == q[i] && (q[i].next == if i + 1 < |q| then q[i + 1] else node); }
    }
  }

  lemma {:induction false} ReversedAppend(ps: seq<Piece>, p: Piece)
    ensures Reversed(ps + [p]) == [p] + Reversed(ps)
  {
    if ps != [] {
      ReversedAppend(ps[1..], p);
      assert (ps + [p])[1..] == ps[1..] + [p];
    }
  }

  lemma FinishForgets(c: Config, s: ConverterModel.Converter)
    requires c.align > 0
    ensures Finish(c, s) == Finish(c, s.(ongoing := None))
  {
  }

  /** Of the pieces of `all`, those cut off so far are in front of `below`, last one first. */
  ghost predicate Cut(c: Config, all: seq<Piece>, offset: nat, size: nat, ps: seq<Piece>, below: seq<Piece>)
    requires c.align > 0
  {
    exists done: seq<Piece> :: all == done + Pieces(c, offset, size) && ps == Reversed(done) + below
  }

  lemma NothingCut(c: Config, offset: nat, size: nat, below: seq<Piece>)
    requires c.align > 0
    ensures Cut(c, Pieces(c, offset, size), offset, size, below, below)
  {
    var done: seq<Piece> := [];
    assert Pieces(c, offset, size) == done + Pieces(c, offset, size) && below == Reversed(done) + below;
  }

  lemma AllCut(c: Config, all: seq<Piece>, offset: nat, ps: seq<Piece>, below: seq<Piece>)
    requires c.align > 0 && Cut(c, all, offset, 0, ps, below)
    ensures ps == Reversed(all) + below
  {
    var done :| all == done + Pieces(c, offset, 0) && ps == Reversed(done) + below;
    assert Pieces(c, offset, 0) == [] && all == done;
  }

  lemma OneMoreCut(c: Config, all: seq<Piece>, offset: nat, size: nat, ps: seq<Piece>, below: seq<Piece>)
    requires c.width >= c.align > 0 && size > 0 && Cut(c, all, offset, size, ps, below)
    ensures var n := Take(c, offset, size);
      0 < n <= size && Cut(c, all, offset + n, size - n, [Piece(offset, n)] + ps, below)
  {
    var done :| all == done + Pieces(c, offset, size) && ps == Reversed(done) + below;
    var p := Piece(offset, Take(c, offset, size));
    ReversedAppend(done, p);
    assert all == (done + [p]) + Pieces(c, offset + p.size, size - p.size);
    assert [p] + ps == Reversed(done + [p]) + below;
  }

  class Converter {
    const c: Config
    var pendingReq: IoReq?
    var ongoingReq: IoReq?
    var ongoingSize: int
    var stalledReq: IoReq?
    var lastStalledReq: IoReq?
    var readyCycle: int
    var wake: Option<int>
    ghost var pieces: seq<IoReq>
    ghost var waiting: seq<IoReq>

    constructor (c: Config)
      requires Sane(c) && c.width >= c.align
      ensures Valid() && this.c == c && Abstract() == Idle() && pieces == waiting == []
    {
      this.c := c;
      pendingReq, ongoingReq, ongoingSize, stalledReq, lastStalledReq := null, null, 0, null, null;
      readyCycle, wake, pieces, waiting := 0, None, [], [];
    }

    ghost function Nodes(): set<IoReq>
      reads this
    {
      (set e | e in pieces) + (set e | e in waiting)
    }

    ghost predicate Valid()
      reads this, Nodes()`next
    {
      && Sane(c) && c.width >= c.align
      && Linked(pendingReq, pieces) && Linked(stalledReq, waiting) && (forall e :: e in pieces ==> e !in waiting)
      && (waiting != [] ==> lastStalledReq == waiting[|waiting| - 1])
    }

    ghost function Abstract(): ConverterModel.Converter
      reads this
    {
      ConverterModel.Converter(PiecesOf(pieces), if ongoingReq == null then None else Some(AsReq(ongoingReq)),
        ongoingSize, ReqsOf(waiting), readyCycle, wake)
    }

    /** Cuts a request up; every piece is put in front of the list. */
    method ProcessPendingReq(req: IoReq)
      requires Valid()
      modifies this`ongoingReq, this`ongoingSize, this`pendingReq, this`pieces
      ensures Valid() && Abstract() == Begin(c, old(Abstract()), AsReq(req))
      ensures forall e :: e in pieces ==> e in old(pieces) || fresh(e)
    {
      ongoingReq, ongoingSize := req, req.size;
      var offset, size := req.addr, req.size;
      assert Valid() && c.width >= c.align > 0;
      hide Valid, Pieces, Reversed, PiecesOf, ReqsOf, Linked, Take, Cut;
      ghost var all, below := Pieces(c, req.addr, req.size), PiecesOf(pieces);
      NothingCut(c, offset, size, below);
      while size > 0
        invariant Valid() && ongoingReq == req && ongoingSize == req.size
        invariant Cut(c, all, offset, size, PiecesOf(pieces), below)
        invariant forall e :: e in pieces ==> e in old(pieces) || fresh(e)
      {
        var n := Take(c, offset, size);
        OneMoreCut(c, all, offset, size, PiecesOf(pieces), below);
        PushPiece(req.id, offset, n);
        offset, size := offset + n, size - n;
      }
      AllCut(c, all, offset, PiecesOf(pieces), below);
    }

    /** Puts a new piece in front of the list. */
    method PushPiece(id: nat, offset: nat, n: nat)
      requires Valid()
      modifies this`pendingReq, this`pieces
      ensures Valid() && PiecesOf(pieces) == [Piece(offset, n)] + PiecesOf(old(pieces))
      ensures forall e :: e in pieces ==> e in old(pieces) || fresh(e)
    {
      var piece := new IoReq(id, offset, n, pendingReq);
      InFront(piece, pendingReq, pieces);
      Joined([piece], pieces);
      pendingReq, pieces := piece, [piece] + pieces;
    }

    method CheckState(now: int)
      requires Valid()
      modifies this`wake
      ensures Valid() && Abstract() == Check(old(Abstract()), now)
    {
      if pendingReq != null && wake.None? {
        wake := Some(now + if readyCycle > now then readyCycle - now else 1);
      }
    }

    /** The event: sends the first piece, answered at once with `ok` and `latency`. */
    method EventHandler(now: int, ok: bool, latency: nat) returns (sent: IoReq, answered: IoReq?, granted: IoReq?)
      requires Valid() && pieces != [] && wake == Some(now) && ongoingReq != null
      modifies this
      ensures Valid() && Abstract() == Send(c, old(Abstract()), now, ok, latency)
      ensures sent == old(pieces[0])
      ensures answered == if Finishes(old(Abstract()), ok) then old(ongoingReq) else null
      ensures granted == if Finishes(old(Abstract()), ok) then old(stalledReq) else null
    {
      answered, granted := null, null;
      hide Begin, Sending, Linked, Finish, Check, PiecesOf, ReqsOf;
      sent := TakePiece();
      if ok {
        readyCycle := now + latency + 1;
        ongoingSize := ongoingSize - sent.size;
        if ongoingSize == 0 {
          answered, ongoingReq := ongoingReq, null;
          granted := Unstall();
          FinishForgets(c, old(Abstract()).(pending := old(Abstract()).pending[1..],
            wake := None, readyCycle := readyCycle, ongoingSize := 0));
        }
      } else {
        readyCycle := INT32_MAX;
      }
      CheckState(now);
    }

    /** Takes the first piece off the list. */
    method TakePiece() returns (sent: IoReq)
      requires Valid() && pieces != []
      modifies this`pendingReq, this`pieces, this`wake
      ensures Valid() && Abstract() == old(Abstract()).(pending := old(Abstract()).pending[1..], wake := None)
      ensures sent == old(pieces[0]) && old(Abstract()).pending[0] == Piece(sent.addr, sent.size)
    {
      Rest(pendingReq, pieces);
      Parts(pieces);
      sent := pendingReq;
      pendingReq, pieces, wake := pendingReq.next, pieces[1..], None;
    }

    /** Lets in the request that has waited longest. */
    method Unstall() returns (granted: IoReq?)
      requires Valid() && ongoingReq == null
      modifies this`stalledReq, this`waiting, this`ongoingReq, this`ongoingSize, this`pendingReq, this`pieces
      ensures Valid() && Abstract() == Finish(c, old(Abstract()))
      ensures granted == old(stalledReq)
    {
      granted := null;
      if stalledReq != null {
        granted := stalledReq;
        Rest(stalledReq, waiting);
        Parts(waiting);
        stalledReq, waiting := granted.next, waiting[1..];
        ProcessPendingReq(granted);
      }
    }

    /** A request arrives; `ok` is the slave's answer if it is forwarded as it is. */
    method Request(req: IoReq, now: int, ok: bool) returns (reply: Reply)
      requires Valid() && req !in pieces && req !in waiting
      modifies this, Nodes()`next, req`next
      ensures Valid() && (Abstract(), reply) == Arrive(c, old(Abstract()), AsReq(req), now, ok)
    {
      if ongoingReq != null {
        Stall(req);
        return Denied;
      }
      if Fits(c, AsReq(req)) {
        if ok { return Done; }
      } else {
        ProcessPendingReq(req);
      }
      CheckState(now);
      reply := Later;
    }

    /** Puts a request at the end of the list of stalled ones. */
    method Stall(req: IoReq)
      requires Valid() && req !in pieces && req !in waiting
      modifies this`stalledReq, this`lastStalledReq, this`waiting, (set e | e in waiting)`next, req`next
      ensures Valid() && Abstract() == old(Abstract()).(stalled := old(Abstract()).stalled + [AsReq(req)])
    {
      assert waiting != [] ==> lastStalledReq in waiting;
      if stalledReq != null {
        lastStalledReq.next := req;
      } else {
        stalledReq := req;
      }
      req.next := null;
      lastStalledReq := req;
      AtEnd(req, stalledReq, waiting);
      Joined(waiting, [req]);
      waiting := waiting + [req];
    }
  }
}
