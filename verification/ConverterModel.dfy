/**
 The width converter as a state machine: a request that does not fit one word of the slave is cut
 into pieces that are sent one by one, and requests that arrive meanwhile wait in a list.
 */
module ConverterModel {
  import opened Wrappers
  import opened Arithmetic

  /** output_width, and output_align, which is a power of two. */
  datatype Config = Config(width: nat, align: nat)

  datatype Req = Req(id: nat, addr: nat, size: nat)

  datatype Piece = Piece(offset: nat, size: nat)

  const WORD: int := 0x1_0000_0000_0000_0000
  const INT32_MAX: int := 0x7FFF_FFFF

  /** The request's size fits a signed 32-bit number, and it does not run past the end of the address space. */
  predicate Clean(r: Req) {
    r.size <= INT32_MAX && r.addr < WORD && r.addr + r.size <= WORD
  }

  // ---------------------------------------------------------------- cutting a request up

  /** How much the next piece takes: the comparison with the rest is one of unsigned numbers. */
  function Take(c: Config, offset: nat, size: nat): (n: nat)
    requires c.align > 0
    ensures n <= size
  {
    var n := c.width - offset % c.align;
    if n < 0 || n > size then size else n
  }

  /** Some piece on the way is empty, so that the loop never ends. */
  predicate Loops(c: Config, offset: nat, size: nat)
    requires c.align > 0
    decreases size
  {
    size > 0 && (Take(c, offset, size) == 0 || Loops(c, offset + Take(c, offset, size), size - Take(c, offset, size)))
  }

  /** The pieces from the lowest address to the highest. */
  function Pieces(c: Config, offset: nat, size: nat): seq<Piece>
    requires c.align > 0
    decreases size
  {
    if size == 0 || Take(c, offset, size) == 0 then []
    else
      var n := Take(c, offset, size);
      [Piece(offset, n)] + Pieces(c, offset + n, size - n)
  }

  predicate Tile(ps: seq<Piece>, offset: nat, end: nat) {
    if ps == [] then offset == end
    else ps[0].offset == offset && ps[0].size > 0 && Tile(ps[1..], offset + ps[0].size, end)
  }

  /** The pieces of a request tile it exactly, whenever the loop ends. */
  lemma {:induction false} PiecesTileIff(c: Config, offset: nat, size: nat)
    requires c.align > 0
    ensures Tile(Pieces(c, offset, size), offset, offset + size) <==> !Loops(c, offset, size)
    decreases size
  {
    if size > 0 && Take(c, offset, size) > 0 {
      var n := Take(c, offset, size);
      PiecesTileIff(c, offset + n, size - n);
      assert Pieces(c, offset, size)[1..] == Pieces(c, offset + n, size - n);
    }
  }

  lemma {:induction false} WideNeverLoops(c: Config, offset: nat, size: nat)
    requires c.width >= c.align > 0
    ensures !Loops(c, offset, size)
    decreases size
  {
    if size > 0 {
      WideNeverLoops(c, offset + Take(c, offset, size), size - Take(c, offset, size));
    }
  }

  /** A request that is never cut up when a piece is shorter than a word: it begins one piece into a word. */
  function Endless(c: Config): Req {
    Req(0, c.width, c.align + 1)
  }

  lemma EndlessLoops(c: Config)
    requires Sane(c) && c.width < c.align
    ensures Clean(Endless(c)) && !Fits(c, Endless(c)) && Loops(c, Endless(c).addr, Endless(c).size)
  {
    var last := c.width + c.align;
    ModUnique(c.width, c.align, 0, c.width);
    ModUnique(last, WORD, 0, last);
    ModUnique(last, c.align, 1, c.width);
  }

  /** The cutting ends for every request exactly if a piece can be as long as a word of the slave. */
  lemma SplittingEndsIff(c: Config)
    requires Sane(c)
    ensures (forall r: Req :: Clean(r) && !Fits(c, r) ==> !Loops(c, r.addr, r.size)) <==> c.width >= c.align
  {
    hide Loops, Fits, Endless;
    if c.width >= c.align {
      forall r: Req | Clean(r) && !Fits(c, r) ensures !Loops(c, r.addr, r.size) { WideNeverLoops(c, r.addr, r.size); }
    } else {
      EndlessLoops(c);
    }
  }

  /** Every piece lies in one word of the slave. */
  predicate InWords(c: Config, ps: seq<Piece>)
    requires c.align > 0
  {
    forall k :: 0 <= k < |ps| ==> ps[k].offset % c.align + ps[k].size <= c.align
  }

  lemma {:induction false} NarrowStaysInWords(c: Config, offset: nat, size: nat)
    requires 0 < c.align == c.width
    ensures InWords(c, Pieces(c, offset, size))
    decreases size
  {
    if size > 0 && Take(c, offset, size) > 0 {
      NarrowStaysInWords(c, offset + Take(c, offset, size), size - Take(c, offset, size));
    }
  }

  /**
   Every request is cut into pieces that each lie in one word of the slave exactly if a piece is as
   long as a word.
   */
  lemma PiecesFitIff(c: Config)
    requires Sane(c)
    ensures (forall r: Req :: Clean(r) && !Fits(c, r) ==>
        !Loops(c, r.addr, r.size) && InWords(c, Pieces(c, r.addr, r.size)))
      <==> c.width == c.align
  {
    hide Loops, Fits, Endless, Pieces, InWords;
    if c.width < c.align {
      EndlessLoops(c);
    } else if c.width == c.align {
      forall r: Req | Clean(r) && !Fits(c, r)
        ensures !Loops(c, r.addr, r.size) && InWords(c, Pieces(c, r.addr, r.size)) {
        WideNeverLoops(c, r.addr, r.size);
        NarrowStaysInWords(c, r.addr, r.size);
      }
    } else {
      WidePieceCrosses(c);
    }
  }

  lemma WidePieceCrosses(c: Config)
    requires Sane(c) && c.width > c.align
    ensures var r := Req(0, 0, c.align + 1); Clean(r) && !Fits(c, r) && !InWords(c, Pieces(c, r.addr, r.size))
  {
    var r := Req(0, 0, c.align + 1);
    ModUnique(0, c.align, 0, 0);
    ModUnique(c.align, WORD, 0, c.align);
    ModUnique(c.align, c.align, 1, 0);
    assert Pieces(c, 0, c.align + 1)[0] == Piece(0, c.align + 1);
  }

  predicate Sane(c: Config) {
    0 < c.align < INT32_MAX
  }

  /** The request is forwarded as it is: its first and its last byte are in one word of the slave. */
  predicate Fits(c: Config, r: Req)
    requires c.align > 0
  {
    Floor(r.addr, c.align) == Floor((r.addr + r.size - 1) % WORD, c.align)
  }

  // ---------------------------------------------------------------- the converter

  /** `wake` is the cycle at which the event that sends the next piece is due, if it is enqueued. */
  datatype Converter = Converter(
    pending: seq<Piece>, ongoing: Option<Req>, ongoingSize: int, stalled: seq<Req>, readyCycle: int, wake: Option<int>)

  function Idle(): Converter {
    Converter([], None, 0, [], 0, None)
  }

  datatype Reply = Done | Later | Denied

  /** Pieces are put in front of the list one after the other, so the last one is sent first. */
  function Reversed(ps: seq<Piece>): (r: seq<Piece>)
    ensures |r| == |ps|
  {
    if ps == [] then [] else Reversed(ps[1..]) + [ps[0]]
  }

  function Sending(c: Config, r: Req): seq<Piece>
    requires c.align > 0
  {
    Reversed(Pieces(c, r.addr, r.size))
  }

  /** Cuts a request up. */
  function Begin(c: Config, s: Converter, r: Req): Converter
    requires c.align > 0
  {
    s.(ongoing := Some(r), ongoingSize := r.size, pending := Sending(c, r) + s.pending)
  }

  /** Enqueues the event when there is a piece to send. */
  function Check(s: Converter, now: int): Converter {
    if s.pending == [] || s.wake.Some? then s
    else s.(wake := Some(now + if s.readyCycle > now then s.readyCycle - now else 1))
  }

  /** A request arrives; `ok` is the slave's answer if it is forwarded as it is. */
  function Arrive(c: Config, s: Converter, r: Req, now: int, ok: bool): (Converter, Reply)
    requires c.align > 0
  {
    if s.ongoing.Some? then (s.(stalled := s.stalled + [r]), Denied)
    else if Fits(c, r) then (if ok then (s, Done) else (Check(s, now), Later))
    else (Check(Begin(c, s, r), now), Later)
  }

  /** The last piece of the ongoing request is done: the request is answered and the next one let in. */
  function Finish(c: Config, s: Converter): Converter
    requires c.align > 0
  {
    var s' := s.(ongoing := None);
    if s'.stalled == [] then s' else Begin(c, s'.(stalled := s'.stalled[1..]), s'.stalled[0])
  }

  /** The event has sent a piece, which the slave answers at once. */
  function Sent(c: Config, s: Converter, now: int, ok: bool, latency: nat): Converter
    requires c.align > 0 && s.pending != []
  {
    var s1 := s.(pending := s.pending[1..], wake := None);
    if !ok then s1.(readyCycle := INT32_MAX)
    else
      var s2 := s1.(readyCycle := now + latency + 1, ongoingSize := s1.ongoingSize - s.pending[0].size);
      if s2.ongoingSize == 0 then Finish(c, s2) else s2
  }

  /** The event: afterwards it is enqueued again if there are pieces left. */
  function Send(c: Config, s: Converter, now: int, ok: bool, latency: nat): Converter
    requires c.align > 0 && s.pending != []
  {
    Check(Sent(c, s, now, ok, latency), now)
  }

  predicate Finishes(s: Converter, ok: bool)
    requires s.pending != []
  {
    ok && s.ongoingSize == s.pending[0].size
  }

  // ---------------------------------------------------------------- runs

  /** What became of a request: forwarded as it is or cut up, and whether the requester got its answer. */
  datatype Job = Job(req: Req, whole: bool, answered: bool)

  /**
   The converter at cycle `now`, what it has sent, the requests that arrived, in order, those that are
   through, in order, and how much of the ongoing request the slave has refused.
   */
  datatype World = World(conv: Converter, now: int, sent: seq<Piece>, arrived: seq<Req>, done: seq<Job>, refused: nat)

  function Start(): World {
    World(Idle(), 0, [], [], [], 0)
  }

  datatype Step = Tick | Request(req: Req, ok: bool) | Event(ok: bool, latency: nat)

  /** The event is run in the very cycle it is due at. */
  predicate Enabled(w: World, x: Step) {
    match x
    case Tick => w.conv.wake.Some? ==> w.now < w.conv.wake.value
    case Request(r, _) => Clean(r)
    case Event(_, _) => w.conv.wake == Some(w.now)
  }

  /** The event's handler takes the first piece of the list without looking whether there is one. */
  predicate CanStep(w: World, x: Step) {
    Enabled(w, x) && (x.Event? ==> w.conv.pending != [])
  }

  function Next(c: Config, w: World, x: Step): World
    requires Sane(c) && CanStep(w, x)
  {
    match x
    case Tick => w.(now := w.now + 1)
    case Request(r, ok) =>
      var w' := w.(conv := Arrive(c, w.conv, r, w.now, ok).0, arrived := w.arrived + [r]);
      if w.conv.ongoing.None? && Fits(c, r) then
        w'.(sent := w.sent + [Piece(r.addr, r.size)], done := w.done + [Job(r, true, ok)])
      else w'
    case Event(ok, latency) =>
      var p := w.conv.pending[0];
      var w' := w.(conv := Send(c, w.conv, w.now, ok, latency), sent := w.sent + [p]);
      if !ok then w'.(refused := w.refused + p.size)
      else if Finishes(w.conv, ok) && w.conv.ongoing.Some? then
        w'.(done := w.done + [Job(w.conv.ongoing.value, false, true)], refused := 0)
      else w'
  }

  // ---------------------------------------------------------------- what every run keeps

  function Total(ps: seq<Piece>): nat {
    if ps == [] then 0 else ps[0].size + Total(ps[1..])
  }

  function Traffic(c: Config, jobs: seq<Job>): seq<Piece>
    requires c.align > 0
  {
    if jobs == [] then []
    else
      var job := jobs[|jobs| - 1];
      Traffic(c, jobs[..|jobs| - 1]) + if job.whole then [Piece(job.req.addr, job.req.size)] else Sending(c, job.req)
  }

  function Reqs(jobs: seq<Job>): seq<Req> {
    if jobs == [] then [] else Reqs(jobs[..|jobs| - 1]) + [jobs[|jobs| - 1].req]
  }

  function Current(s: Converter): seq<Req> {
    if s.ongoing.Some? then [s.ongoing.value] else []
  }

  function CurrentTraffic(c: Config, s: Converter): seq<Piece>
    requires c.align > 0
  {
    if s.ongoing.Some? then Sending(c, s.ongoing.value) else []
  }

  predicate Positive(ps: seq<Piece>) {
    forall k :: 0 <= k < |ps| ==> ps[k].size > 0
  }

  /** The pieces still to be sent and those refused make up the ongoing size, and nothing waits for nothing. */
  predicate Accounts(s: Converter, refused: nat) {
    && Positive(s.pending)
    && (s.ongoing.None? ==> s.pending == [] && s.stalled == [] && refused == 0)
    && (s.ongoing.Some? ==> s.ongoingSize == Total(s.pending) + refused)
    && (s.ongoing.Some? && s.pending == [] ==> refused > 0 || s.ongoing.value.size == 0)
  }

  /** The event is enqueued exactly when there is a piece to send, and not before the slave is ready for it. */
  predicate Scheduled(s: Converter, now: int) {
    && (s.wake.Some? <==> s.pending != [])
    && (s.wake.Some? ==> s.wake.value >= now && s.wake.value >= s.readyCycle)
  }

  ghost predicate Inv(c: Config, w: World)
    requires Sane(c)
  {
    && Accounts(w.conv, w.refused) && Scheduled(w.conv, w.now)
    && InOrder(c, w)
  }

  lemma {:induction false} ReversedKeeps(ps: seq<Piece>)
    ensures Total(Reversed(ps)) == Total(ps) && (Positive(ps) ==> Positive(Reversed(ps)))
  {
    if ps != [] {
      ReversedKeeps(ps[1..]);
      TotalAppend(Reversed(ps[1..]), ps[0]);
    }
  }

  lemma {:induction false} TotalAppend(ps: seq<Piece>, p: Piece)
    ensures Total(ps + [p]) == Total(ps) + p.size
  {
    if ps == [] {
      assert Total([p]) == p.size + Total([]);
    } else {
      TotalAppend(ps[1..], p);
      assert (ps + [p])[1..] == ps[1..] + [p];
    }
  }

  lemma {:induction false} PiecesAddUp(c: Config, offset: nat, size: nat)
    requires c.width >= c.align > 0
    ensures Total(Pieces(c, offset, size)) == size && Positive(Pieces(c, offset, size)) &&
      (Pieces(c, offset, size) == [] <==> size == 0)
    decreases size
  {
    if size > 0 {
      var n := Take(c, offset, size);
      PiecesAddUp(c, offset + n, size - n);
      assert Pieces(c, offset, size)[1..] == Pieces(c, offset + n, size - n);
    }
  }

  lemma BeginAccounts(c: Config, s: Converter, r: Req)
    requires Sane(c) && c.width >= c.align && s.pending == []
    ensures Accounts(Begin(c, s, r), 0)
  {
    ReversedKeeps(Pieces(c, r.addr, r.size));
    PiecesAddUp(c, r.addr, r.size);
    assert Sending(c, r) + [] == Sending(c, r);
  }

  lemma PopAccounts(ps: seq<Piece>)
    requires ps != [] && Positive(ps)
    ensures Positive(ps[1..]) && Total(ps) == ps[0].size + Total(ps[1..]) && ps[0].size > 0
  {
  }

  lemma {:induction false} NothingLeft(ps: seq<Piece>)
    requires Positive(ps) && Total(ps) == 0
    ensures ps == []
  {
    if ps != [] { PopAccounts(ps); }
  }

  lemma CheckKeeps(s: Converter, now: int, refused: nat)
    requires Accounts(s, refused) && (s.wake.None? || Scheduled(s, now))
    ensures Accounts(Check(s, now), refused) && Scheduled(Check(s, now), now)
    ensures Check(s, now) == s.(wake := Check(s, now).wake)
  {
  }

  lemma SentAccounts(c: Config, s: Converter, refused: nat, now: int, ok: bool, latency: nat)
    requires Sane(c) && c.width >= c.align && s.pending != [] && Accounts(s, refused)
    ensures Accounts(Sent(c, s, now, ok, latency), if !ok then refused + s.pending[0].size
      else if Finishes(s, ok) then 0 else refused)
    ensures s.ongoing.Some? && Sent(c, s, now, ok, latency).wake.None?
    ensures Finishes(s, ok) ==> s.pending == [s.pending[0]] && refused == 0
  {
    hide Begin;
    PopAccounts(s.pending);
    if Finishes(s, ok) {
      NothingLeft(s.pending[1..]);
      if s.stalled != [] {
        var s' := s.(pending := [], wake := None, readyCycle := now + latency + 1,
          ongoingSize := 0, ongoing := None, stalled := s.stalled[1..]);
        BeginAccounts(c, s', s.stalled[0]);
        BeginKeepsTimer(c, s', s.stalled[0]);
      }
    }
  }

  lemma BeginKeepsTimer(c: Config, s: Converter, r: Req)
    requires Sane(c)
    ensures Begin(c, s, r) == s.(ongoing := Begin(c, s, r).ongoing,
      ongoingSize := Begin(c, s, r).ongoingSize, pending := Begin(c, s, r).pending)
    ensures Begin(c, s, r).ongoing == Some(r)
  {
  }

  lemma ReqsAppend(jobs: seq<Job>, j: Job)
    ensures Reqs(jobs + [j]) == Reqs(jobs) + [j.req]
  {
    assert (jobs + [j])[..|jobs|] == jobs;
  }

  lemma TrafficAppend(c: Config, jobs: seq<Job>, j: Job)
    requires c.align > 0
    ensures Traffic(c, jobs + [j]) == Traffic(c, jobs) + if j.whole then [Piece(j.req.addr, j.req.size)]
      else Sending(c, j.req)
  {
    assert (jobs + [j])[..|jobs|] == jobs;
  }

  /** What the requests and pieces that are through, under way and waiting add up to. */
  ghost predicate InOrder(c: Config, w: World)
    requires Sane(c)
  {
    && w.arrived == Reqs(w.done) + Current(w.conv) + w.conv.stalled
    && w.sent + w.conv.pending == Traffic(c, w.done) + CurrentTraffic(c, w.conv)
  }

  lemma RequestInOrder(c: Config, w: World, r: Req, ok: bool)
    requires Sane(c) && InOrder(c, w) && Accounts(w.conv, w.refused) && Clean(r)
    ensures InOrder(c, Next(c, w, Request(r, ok)))
  {
    hide Check, Reqs, Traffic, Sending, Fits;
    CheckChangesWake(w.conv, w.now);
    CheckChangesWake(Begin(c, w.conv, r), w.now);
    ReqsAppend(w.done, Job(r, true, ok));
    TrafficAppend(c, w.done, Job(r, true, ok));
    if w.conv.ongoing.None? {
      assert w.sent == Traffic(c, w.done) by { Trim(w.sent, Traffic(c, w.done)); }
      assert w.arrived == Reqs(w.done);
      Trim(Sending(c, r), Sending(c, r));
    }
  }

  lemma Trim<T>(a: seq<T>, b: seq<T>)
    requires a + [] == b + []
    ensures a == b && a + [] == a
  {
    assert a + [] == a && b + [] == b;
  }

  lemma CheckChangesWake(s: Converter, now: int)
    ensures Check(s, now) == s.(wake := Check(s, now).wake)
  {
  }

  lemma EventInOrder(c: Config, w: World, ok: bool, latency: nat)
    requires Sane(c) && c.width >= c.align && InOrder(c, w) && Accounts(w.conv, w.refused)
    requires w.conv.pending != [] && w.conv.wake == Some(w.now)
    ensures InOrder(c, Next(c, w, Event(ok, latency)))
  {
    hide Check, Reqs, Traffic, Sending, Accounts;
    SentAccounts(c, w.conv, w.refused, w.now, ok, latency);
    CheckChangesWake(Sent(c, w.conv, w.now, ok, latency), w.now);
    var p := w.conv.pending[0];
    assert w.sent + w.conv.pending == (w.sent + [p]) + w.conv.pending[1..];
    if Finishes(w.conv, ok) {
      var job := Job(w.conv.ongoing.value, false, true);
      ReqsAppend(w.done, job);
      TrafficAppend(c, w.done, job);
    }
  }

  lemma StepInv(c: Config, w: World, x: Step)
    requires Sane(c) && c.width >= c.align && Inv(c, w) && Enabled(w, x)
    ensures CanStep(w, x) && Inv(c, Next(c, w, x))
  {
    hide InOrder;
    match x
    case Tick => TickInv(c, w);
    case Request(r, ok) =>
      RequestInOrder(c, w, r, ok);
      RequestKeeps(c, w, r, ok);
    case Event(ok, latency) =>
      EventInOrder(c, w, ok, latency);
      hide Sent, Accounts, Check;
      SentAccounts(c, w.conv, w.refused, w.now, ok, latency);
      CheckKeeps(Sent(c, w.conv, w.now, ok, latency), w.now, Next(c, w, x).refused);
  }

  lemma TickInv(c: Config, w: World)
    requires Sane(c) && Inv(c, w) && Enabled(w, Tick)
    ensures CanStep(w, Tick) && Inv(c, Next(c, w, Tick))
  {
  }

  lemma RequestKeeps(c: Config, w: World, r: Req, ok: bool)
    requires Sane(c) && c.width >= c.align && Inv(c, w) && Clean(r)
    ensures Accounts(Next(c, w, Request(r, ok)).conv, w.refused) && Scheduled(Next(c, w, Request(r, ok)).conv, w.now)
  {
    hide Check, InOrder, Fits, Begin;
    if w.conv.ongoing.None? {
      CheckKeeps(w.conv, w.now, w.refused);
      BeginAccounts(c, w.conv, r);
      BeginKeepsTimer(c, w.conv, r);
      CheckKeeps(Begin(c, w.conv, r), w.now, 0);
    }
  }

  predicate IsRun(c: Config, w: World, steps: seq<Step>)
    requires Sane(c)
    decreases |steps|
  {
    steps == [] || (CanStep(w, steps[0]) && IsRun(c, Next(c, w, steps[0]), steps[1..]))
  }

  function Run(c: Config, w: World, steps: seq<Step>): World
    requires Sane(c) && IsRun(c, w, steps)
    decreases |steps|
  {
    if steps == [] then w else Run(c, Next(c, w, steps[0]), steps[1..])
  }

  lemma {:induction false} RunKeepsInv(c: Config, w: World, steps: seq<Step>)
    requires Sane(c) && c.width >= c.align && Inv(c, w) && IsRun(c, w, steps)
    ensures Inv(c, Run(c, w, steps))
    decreases |steps|
  {
    hide Inv, CanStep, Enabled, Next;
    if steps != [] {
      EnabledOf(w, steps[0]);
      StepInv(c, w, steps[0]);
      RunKeepsInv(c, Next(c, w, steps[0]), steps[1..]);
    }
  }

  lemma EnabledOf(w: World, x: Step)
    requires CanStep(w, x)
    ensures Enabled(w, x)
  {
  }

  /**
   Main result, for every run: requests are dealt with in the order they arrived, each one once; what
   was sent is all pieces of those that are through, in that order, and then the first of the ongoing
   one's; the open pieces and the refused ones add up to the ongoing size; and when the event runs
   there is a piece to send, which the slave is ready for.
   */
  lemma EveryRunIsRight(c: Config, steps: seq<Step>)
    requires Sane(c) && c.width >= c.align && IsRun(c, Start(), steps)
    ensures var w := Run(c, Start(), steps);
      && InOrder(c, w) && Accounts(w.conv, w.refused)
      && (w.conv.wake.Some? <==> w.conv.pending != [])
      && (w.conv.wake == Some(w.now) ==> w.now >= w.conv.readyCycle)
  {
    RunKeepsInv(c, Start(), steps);
  }

  // ---------------------------------------------------------------- progress

  /** How many times the event must run before everything that has arrived is sent. */
  function Work(c: Config, s: Converter): nat
    requires c.align > 0
  {
    |s.pending| + StalledWork(c, s.stalled)
  }

  function StalledWork(c: Config, rs: seq<Req>): nat
    requires c.align > 0
  {
    if rs == [] then 0 else |Sending(c, rs[0])| + StalledWork(c, rs[1..])
  }

  /** Every run of the event brings that number down by one. */
  lemma EventDoesWork(c: Config, w: World, ok: bool, latency: nat)
    requires Sane(c) && c.width >= c.align && Inv(c, w) && Enabled(w, Event(ok, latency))
    ensures w.conv.pending != [] && Work(c, Next(c, w, Event(ok, latency)).conv) == Work(c, w.conv) - 1
  {
    hide Check, InOrder, Sending;
    StepInv(c, w, Event(ok, latency));
    SentAccounts(c, w.conv, w.refused, w.now, ok, latency);
    CheckChangesWake(Sent(c, w.conv, w.now, ok, latency), w.now);
  }

  /** A request is ongoing although nothing is left to be sent. */
  predicate Wedged(s: Converter) {
    s.ongoing.Some? && s.pending == []
  }

  /** When nothing is left to be sent and the converter is not wedged, every request that arrived is through. */
  lemma QuietIsDone(c: Config, w: World)
    requires Sane(c) && Inv(c, w) && w.conv.wake.None? && !Wedged(w.conv)
    ensures w.arrived == Reqs(w.done) && w.sent == Traffic(c, w.done) && w.conv.ongoing.None?
  {
    Trim(w.sent, Traffic(c, w.done));
  }

  /**
   The steps that wedge it: an empty request that starts a word arrives when it is idle, or is the
   next one waiting when a request is done; or the last piece goes out of a request of which the slave
   refuses this or has refused another piece.
   */
  lemma WedgesIff(c: Config, w: World, x: Step)
    requires Sane(c) && c.width >= c.align && Inv(c, w) && CanStep(w, x) && !Wedged(w.conv)
    ensures Wedged(Next(c, w, x).conv) <==>
      match x
      case Tick => false
      case Request(r, _) => w.conv.ongoing.None? && r.size == 0 && r.addr % c.align == 0
      case Event(ok, _) => |w.conv.pending| == 1 && (!ok || w.refused > 0 || NextIsEmpty(w.conv))
  {
    hide InOrder, Sending;
    match x
    case Tick =>
    case Request(r, ok) =>
      SendingIsEmptyIff(c, r);
      if r.size == 0 { EmptyFitsIff(c, r); }
      CheckChangesWake(w.conv, w.now);
      CheckChangesWake(Begin(c, w.conv, r), w.now);
    case Event(ok, latency) =>
      SentAccounts(c, w.conv, w.refused, w.now, ok, latency);
      CheckChangesWake(Sent(c, w.conv, w.now, ok, latency), w.now);
      if w.conv.stalled != [] { SendingIsEmptyIff(c, w.conv.stalled[0]); }
      if |w.conv.pending| == 1 { assert Total(w.conv.pending[1..]) == 0; }
  }

  predicate NextIsEmpty(s: Converter) {
    s.stalled != [] && s.stalled[0].size == 0
  }

  lemma SendingIsEmptyIff(c: Config, r: Req)
    requires c.width >= c.align > 0
    ensures Sending(c, r) == [] <==> r.size == 0
  {
    PiecesAddUp(c, r.addr, r.size);
  }

  /** The last byte of an empty request is taken to be the one before it. */
  lemma EmptyFitsIff(c: Config, r: Req)
    requires Sane(c) && Clean(r) && r.size == 0
    ensures Fits(c, r) <==> r.addr % c.align != 0
  {
    var a := c.align;
    if r.addr == 0 {
      ModUnique(-1, WORD, -1, WORD - 1);
      ModUnique(0, a, 0, 0);
      assert Floor(WORD - 1, a) > 0;
    } else {
      ModUnique(r.addr - 1, WORD, 0, r.addr - 1);
      var q, m := r.addr / a, r.addr % a;
      assert r.addr == a * q + m;
      if m == 0 { assert r.addr - 1 == a * (q - 1) + (a - 1); ModUnique(r.addr - 1, a, q - 1, a - 1); }
      else { ModUnique(r.addr - 1, a, q, m - 1); }
    }
  }

  /** Once wedged it stays so: nothing is sent or answered any more, and whatever arrives is left waiting. */
  lemma WedgedForever(c: Config, w: World, x: Step)
    requires Sane(c) && Inv(c, w) && CanStep(w, x) && Wedged(w.conv)
    ensures var w' := Next(c, w, x);
      Wedged(w'.conv) && w'.done == w.done && w'.sent == w.sent && w'.conv.ongoing == w.conv.ongoing
      && w'.conv.stalled == w.conv.stalled + if x.Request? then [x.req] else []
  {
  }

  // ---- runs that wedge it

  lemma RunCons(c: Config, w: World, x: Step, steps: seq<Step>)
    requires Sane(c) && CanStep(w, x)
    ensures IsRun(c, w, [x] + steps) <==> IsRun(c, Next(c, w, x), steps)
    ensures IsRun(c, Next(c, w, x), steps) ==> Run(c, w, [x] + steps) == Run(c, Next(c, w, x), steps)
  {
    hide CanStep, Next;
    assert ([x] + steps)[1..] == steps;
  }

  lemma RunNil(c: Config, w: World)
    requires Sane(c)
    ensures IsRun(c, w, []) && Run(c, w, []) == w
  {
  }

  /** An empty request that starts a word is enough. */
  lemma EmptyRequestWedges(c: Config)
    requires Sane(c) && c.width >= c.align
    ensures IsRun(c, Start(), [Request(Req(0, 0, 0), true)] + [])
    ensures Wedged(Run(c, Start(), [Request(Req(0, 0, 0), true)] + []).conv)
  {
    hide Next, IsRun, Run;
    ModUnique(0, c.align, 0, 0);
    assert Inv(c, Start()) && !Wedged(Start().conv);
    RunCons(c, Start(), Request(Req(0, 0, 0), true), []);
    RunNil(c, Next(c, Start(), Request(Req(0, 0, 0), true)));
    WedgesIff(c, Start(), Request(Req(0, 0, 0), true));
  }

  /** Four bytes across the end of a word of four, sent as one piece of up to eight. */
  const Wide: Config := Config(8, 4)

  function Across(): Req {
    Req(0, 2, 4)
  }

  function Empty(): Req {
    Req(1, 0, 0)
  }

  lemma AcrossIsOnePiece()
    ensures Sane(Wide) && Clean(Across()) && Clean(Empty()) && !Fits(Wide, Across())
    ensures Sending(Wide, Across()) == [Piece(2, 4)]
  {
    assert Pieces(Wide, 6, 0) == [];
    assert Pieces(Wide, 2, 4) == [Piece(2, 4)] + Pieces(Wide, 6, 0);
    assert Reversed([]) == [] && [Piece(2, 4)][1..] == [];
  }

  /** The world once that request is there and the event is due. */
  function Waiting(stalled: seq<Req>): World {
    World(Converter([Piece(2, 4)], Some(Across()), 4, stalled, 0, Some(1)), 1, [], [Across()] + stalled, [], 0)
  }

  function ToWaiting(): seq<Step> {
    [Request(Across(), true)] + ([Tick] + [])
  }

  lemma WaitingIsReached()
    ensures Sane(Wide) && IsRun(Wide, Start(), ToWaiting()) && Run(Wide, Start(), ToWaiting()) == Waiting([])
  {
    hide Sending, Fits, IsRun, Run;
    AcrossIsOnePiece();
    var w1 := Next(Wide, Start(), Request(Across(), true));
    assert [Piece(2, 4)] + [] == [Piece(2, 4)];
    assert w1 == Waiting([]).(now := 0);
    RunCons(Wide, Start(), Request(Across(), true), [Tick] + []);
    RunCons(Wide, w1, Tick, []);
    RunNil(Wide, Waiting([]));
  }

  /** The slave refuses the only piece: the requester never hears of it again. */
  lemma RefusalWedges()
    ensures CanStep(Waiting([]), Event(false, 0)) && Sane(Wide) && Wedged(Next(Wide, Waiting([]), Event(false, 0)).conv)
  {
  }

  /** An empty request that has to wait wedges it when its turn comes. */
  lemma WaitingEmptyWedges()
    ensures Sane(Wide) && CanStep(Waiting([]), Request(Empty(), true))
    ensures Next(Wide, Waiting([]), Request(Empty(), true)) == Waiting([Empty()])
    ensures CanStep(Waiting([Empty()]), Event(true, 0)) && Wedged(Next(Wide, Waiting([Empty()]), Event(true, 0)).conv)
  {
    assert Sending(Wide, Empty()) == [];
  }
}
