/**
 The order in which the cache deals with the requests it has taken on: that of their arrival, except for
 one that misses while others wait to be resumed.
 */
module CacheOrder {
  import opened Wrappers
  import opened CacheModel
  import opened CacheFindings

  /** A request misses, and its refill will come later, while no refill is under way and others wait. */
  predicate Overtakes(c: Config, s: Cache, x: Step)
    requires Proper(c) && CanStep(c, s, x)
  {
    x.Request? && !s.pending && s.queue != [] && HitLine(c, s, x.req).None? && x.answer == Pending
  }

  /** The request that a step deals with for good, with an answer or without. */
  function DealtWith(s: Cache, s': Cache): seq<nat> {
    if |s'.answered| > |s.answered| then [s'.answered[|s'.answered| - 1]]
    else if |s'.dropped| > |s.dropped| then [s'.dropped[|s'.dropped| - 1]]
    else []
  }

  /** The request that a step takes on. */
  function TakenOn(s: Cache, s': Cache): seq<nat> {
    if |s'.accepted| > |s.accepted| then [s'.accepted[|s'.accepted| - 1]] else []
  }

  /** A step deals with the first of the queue and puts what it takes on at the end, or, overtaking, in front. */
  ghost predicate OrderStep(s: Cache, s': Cache, overtakes: bool) {
    && s'.accepted == s.accepted + TakenOn(s, s')
    && (!overtakes ==> DealtWith(s, s') + Ids(s'.queue) == Ids(s.queue) + TakenOn(s, s'))
    && (overtakes ==> DealtWith(s, s') == [] && |TakenOn(s, s')| == 1 && Ids(s'.queue) == TakenOn(s, s') + Ids(s.queue))
  }

  lemma IdsOf(q: seq<Req>, r: Req)
    ensures Ids(q + [r]) == Ids(q) + [r.id] && Ids([r] + q) == [r.id] + Ids(q)
    ensures q != [] ==> Ids(q) == [q[0].id] + Ids(q[1..])
  {
  }

  /** What handling a request does to the queue. */
  lemma HandledOrder(c: Config, s: Cache, mem: Memory, req: Req, way: nat, answer: Status)
    requires Sized(c, s) && way < c.ways
    ensures var o := HandleReq(c, s, mem, req, way, answer);
      && o.cache.accepted == s.accepted && o.cache.answered == s.answered && o.cache.dropped == s.dropped
      && o.cache.scheduled == s.scheduled
      && (o.status == Pending <==> HitLine(c, s, req).None? && (s.pending || answer == Pending))
      && o.cache.queue == if o.status != Pending then s.queue
        else if s.pending then s.queue + [req] else [req] + s.queue
  {
    hide HandleReq, HitLine, Index, TagOf, RefillAddr, MemLine;
    HandleReqIs(c, s, mem, req, way, answer);
    HitInside(c, s, req);
  }

  lemma RequestOrder(c: Config, s: Cache, mem: Memory, req: Req, way: nat, answer: Status)
    requires Sized(c, s) && way < c.ways
    ensures var x := Request(req, way, answer); OrderStep(s, Next(c, s, mem, x), Overtakes(c, s, x))
  {
    hide HandleReq, HitLine, Ids;
    HandledOrder(c, s, mem, req, way, answer);
    IdsOf(s.queue, req);
    assert Ids([]) == [] by { IdsOfNone(); }
  }

  lemma IdsOfNone()
    ensures Ids([]) == []
  {
  }

  lemma ResponseOrder(c: Config, s: Cache)
    requires Sized(c, s) && s.pending && s.queue != []
    ensures OrderStep(s, Respond(c, s).cache, false)
  {
    hide Ids, CopyOut;
    IdsOf(s.queue, s.queue[0]);
  }

  lemma ResumeOrder(c: Config, s: Cache, mem: Memory, way: nat, answer: Status)
    requires Sized(c, s) && way < c.ways
    ensures OrderStep(s, Resume(c, s, mem, way, answer).cache, false)
  {
    if !s.pending && s.queue != [] {
      hide HandleReq, HitLine, Ids, Resume;
      ResumeIs(c, s, mem, way, answer);
      var s0 := s.(scheduled := false, queue := s.queue[1..]);
      HandledOrder(c, s0, mem, s.queue[0], way, answer);
      IdsOf(s.queue, s.queue[0]);
      IdsOf(s.queue[1..], s.queue[0]);
      assert [s.queue[0]] + s.queue[1..] == s.queue;
    }
  }

  lemma StepOrder(c: Config, s: Cache, mem: Memory, x: Step)
    requires Proper(c) && CanStep(c, s, x)
    ensures OrderStep(s, Next(c, s, mem, x), Overtakes(c, s, x))
  {
    hide Access, Respond, Resume, Ids;
    match x
    case Request(req, way, answer) => RequestOrder(c, s, mem, req, way, answer);
    case RefillResponds => ResponseOrder(c, s);
    case FsmEvent(way, answer) => ResumeOrder(c, s, mem, way, answer);
    case _ =>
  }

  predicate NoneOvertakes(c: Config, s: Cache, mem: Memory, steps: seq<Step>)
    requires Proper(c) && IsRun(c, s, mem, steps)
    decreases |steps|
  {
    steps == [] ||
    (!Overtakes(c, s, steps[0]) && NoneOvertakes(c, Next(c, s, mem, steps[0]), mem, steps[1..]))
  }

  /** All that is dealt with in a run, in this order. */
  function AllDealtWith(c: Config, s: Cache, mem: Memory, steps: seq<Step>): seq<nat>
    requires Proper(c) && IsRun(c, s, mem, steps)
    decreases |steps|
  {
    if steps == [] then []
    else
      var s' := Next(c, s, mem, steps[0]);
      DealtWith(s, s') + AllDealtWith(c, s', mem, steps[1..])
  }

  lemma {:induction false} RunOrder(c: Config, s: Cache, mem: Memory, steps: seq<Step>, past: seq<nat>)
    requires Proper(c) && IsRun(c, s, mem, steps) && NoneOvertakes(c, s, mem, steps)
    requires s.accepted == past + Ids(s.queue)
    ensures var r := Run(c, s, mem, steps); r.accepted == past + AllDealtWith(c, s, mem, steps) + Ids(r.queue)
    decreases |steps|
  {
    hide Next, CanStep, Ids, DealtWith, TakenOn, Overtakes;
    if steps == [] {
      assert past + [] == past;
    } else {
      var s' := Next(c, s, mem, steps[0]);
      StepOrder(c, s, mem, steps[0]);
      var d := DealtWith(s, s');
      assert s'.accepted == (past + d) + Ids(s'.queue) by {
        assert (past + Ids(s.queue)) + TakenOn(s, s') == past + (Ids(s.queue) + TakenOn(s, s'));
        assert past + (d + Ids(s'.queue)) == (past + d) + Ids(s'.queue);
      }
      RunOrder(c, s', mem, steps[1..], past + d);
      assert (past + d) + AllDealtWith(c, s', mem, steps[1..]) == past + AllDealtWith(c, s, mem, steps);
    }
  }

  /**
   Main result: over every run, of any requests, in which no request overtakes, those taken on are dealt
   with in the order of their arrival, and those still held are in that order too.
   */
  lemma FirstComeFirstServed(c: Config, mem: Memory, steps: seq<Step>)
    requires Proper(c) && IsRun(c, Start(c), mem, steps) && NoneOvertakes(c, Start(c), mem, steps)
    ensures var r := Run(c, Start(c), mem, steps);
      r.accepted == AllDealtWith(c, Start(c), mem, steps) + Ids(r.queue)
  {
    hide Run, IsRun, NoneOvertakes, AllDealtWith;
    IdsOfNone();
    RunOrder(c, Start(c), mem, steps, []);
    assert [] + AllDealtWith(c, Start(c), mem, steps) == AllDealtWith(c, Start(c), mem, steps);
  }

  /** A request that overtakes goes in front of all that wait. */
  lemma OvertakingJumpsTheQueue(c: Config, s: Cache, mem: Memory, x: Step)
    requires Proper(c) && CanStep(c, s, x) && Overtakes(c, s, x)
    ensures Ids(Next(c, s, mem, x).queue) == [x.req.id] + Ids(s.queue)
  {
    hide HandleReq, HitLine, Ids;
    HandledOrder(c, s, mem, x.req, x.way, x.answer);
    IdsOf(s.queue, x.req);
  }

  // ---- a run in which a request overtakes

  /** Two reads that miss; when the first is answered a third one misses before the second is resumed. */
  function OvertakingRun(): seq<Step> {
    [Request(Read(0), 0, Pending)] + ([Request(Read(1).(id := 1), 0, Pending)] +
    ([RefillWrites] + ([RefillResponds] + ([Request(Read(1).(id := 2), 0, Pending)] + []))))
  }

  lemma OvertakingIsReachable(mem: Memory)
    ensures IsRun(Tiny, Start(Tiny), mem, OvertakingRun())
    ensures var s := Run(Tiny, Start(Tiny), mem, OvertakingRun());
      s.accepted == [0, 1, 2] && s.answered == [0] && Ids(s.queue) == [2, 1]
  {
    hide TagOf, Index, RefillAddr, LineAddr, HitLine, FindWay, IsRun, Run, HandleReq;
    var s0 := Start(Tiny);
    var second, third := Read(1).(id := 1), Read(1).(id := 2);
    TinyAddresses(0);
    TinyAddresses(1);
    var s1 := Next(Tiny, s0, mem, Request(Read(0), 0, Pending));
    TinyAccess(s0, mem, Read(0), Pending);
    var s2 := Next(Tiny, s1, mem, Request(second, 0, Pending));
    TinyQueued(s1, mem, second);
    var s3 := Next(Tiny, s2, mem, RefillWrites);
    var s4 := Next(Tiny, s3, mem, RefillResponds);
    assert s2.queue[1..] == [second] && One(s4).tag == 0 && s4.queue == [second] && !s4.pending;
    TinyHit(s4, third);
    HandledOrder(Tiny, s4, mem, third, 0, Pending);
    var s5 := Next(Tiny, s4, mem, Request(third, 0, Pending));
    assert s5.queue == [third] + [second];
    RunCons(Tiny, s0, mem, Request(Read(0), 0, Pending),
      [Request(second, 0, Pending)] + ([RefillWrites] + ([RefillResponds] + ([Request(third, 0, Pending)] + []))));
    RunCons(Tiny, s1, mem, Request(second, 0, Pending),
            [RefillWrites] + ([RefillResponds] + ([Request(third, 0, Pending)] + [])));
    RunCons(Tiny, s2, mem, RefillWrites, [RefillResponds] + ([Request(third, 0, Pending)] + []));
    RunCons(Tiny, s3, mem, RefillResponds, [Request(third, 0, Pending)] + []);
    RunCons(Tiny, s4, mem, Request(third, 0, Pending), []);
    RunNil(Tiny, s5, mem);
  }
}
