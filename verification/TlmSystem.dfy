/**
 The memory system as it is wired: one bridge, the bus, one target.

 The bridge turns each memory request into transactions and sends them in order; the target works
 on one and holds at most one more. The whole system refines a pipeline of two stages, from which
 the absence of faults, the order of phases and of answers, and termination follow.
 */
module TlmSystem {
  import opened Wrappers
  import opened TlmBus

  // ---------------------------------------------------------------- the three machines

  /** Where the bridge's thread stands: `t` transactions of the current request are sent. */
  datatype Pc = Idle | Sending(t: nat) | Waiting(t: nat) | Woken(t: nat) | AllSent | Completed

  /** The request extension of a transaction. */
  datatype Tag = Tag(req: nat, last: bool)

  /** `curr` is the request being worked on and `count` the number of its transactions. */
  datatype Bridge = Bridge(pc: Pc, curr: nat, count: nat, slot: Option<nat>, peq: multiset<Event>)

  datatype Target = Target(
    slot: Option<nat>, responding: bool, nextResp: Option<nat>, blocked: Option<nat>, timer: bool, peq: multiset<Event>)

  /**
   `work` lists the number of transactions of every request submitted so far, `taken` and
   `finished` how many of them the bridge has taken and answered, `tags` the transactions sent.
   `fault` is set by a failed assertion, a fatal report, a null dereference or a call that the
   protocol does not allow.
   */
  datatype System = System(
    w: World, bridge: Bridge, target: Target, work: seq<nat>, taken: nat, finished: nat, tags: seq<Tag>, fault: bool)

  function Start(): System {
    System(Initial(1, 1), Bridge(Idle, 0, 0, None, multiset{}),
           Target(None, false, None, None, false, multiset{}), [], 0, 0, [], false)
  }

  datatype Step =
    | Submit(n: nat)      // a memory request of `n` transactions arrives
    | Thread              // the bridge's thread runs up to its next wait
    | BusFw(e: Event)     // the bus handles an event of its forward queue
    | BusBw(e: Event)     // or of its backward queue
    | AtBridge(e: Event)  // the bridge handles an event of its queue
    | AtTarget(e: Event)  // so does the target
    | Timer               // the target is done with its current transaction

  predicate CanStep(s: System, x: Step) {
    match x
    case Submit(n) => n > 0
    case Thread =>
      (s.bridge.pc == Idle && s.taken < |s.work|) || s.bridge.pc.Sending? || s.bridge.pc.Woken? || s.bridge.pc ==
        Completed
    case BusFw(e) => Fits(s.w) && Enabled(s.w, DeliverFw(e))
    case BusBw(e) => Fits(s.w) && Enabled(s.w, DeliverBw(e))
    case AtBridge(e) => e in s.bridge.peq && (e.phase == BeginResp ==> Event(e.p, EndReq) !in s.bridge.peq)
    case AtTarget(e) => e in s.target.peq
    case Timer => s.target.timer
  }

  function Next(s: System, x: Step): System
    requires CanStep(s, x)
  {
    match x
    case Submit(n) => s.(work := s.work + [n])
    case Thread => RunThread(s)
    case BusFw(e) => Forwarded(s.(w := Act(s.w, DeliverFw(e))), HandleCallFw(s.w, e))
    case BusBw(e) => Forwarded(s.(w := Act(s.w, DeliverBw(e))), HandleCallBw(s.w, e))
    case AtBridge(e) => BridgeCallback(s.(bridge := s.bridge.(peq := s.bridge.peq - multiset{e})), e)
    case AtTarget(e) => TargetCallback(s.(target := s.target.(peq := s.target.peq - multiset{e})), e)
    case Timer => TargetDone(s.(target := s.target.(timer := false)))
  }

  /** A transport call into the bus. */
  function Calls(s: System, a: Action): System {
    if Fits(s.w) && Enabled(s.w, a) then s.(w := Act(s.w, a)) else s.(fault := true)
  }

  function HandleCallFw(w: World, e: Event): Call
    requires Fits(w) && e in w.bus.fw
  {
    FwCallback(w.bus.(fw := w.bus.fw - multiset{e}), e.p, e.phase).call
  }

  function HandleCallBw(w: World, e: Event): Call
    requires Fits(w) && e in w.bus.bw
  {
    BwCallback(w.bus.(bw := w.bus.bw - multiset{e}), e.p, e.phase).call
  }

  /** A call of the bus ends up in the event queue of the machine it is made on. */
  function Forwarded(s: System, c: Call): System {
    match c
    case NoCall => s
    case Down(_, p, phase) => s.(target := s.target.(peq := s.target.peq + multiset{Event(p, phase)}))
    case Up(_, p, phase) => s.(bridge := s.bridge.(peq := s.bridge.peq + multiset{Event(p, phase)}))
  }

  function RunThread(s: System): System
    requires CanStep(s, Thread)
  {
    match s.bridge.pc
    case Idle =>
      s.(bridge := s.bridge.(pc := Sending(0), curr := s.taken, count := s.work[s.taken]), taken := s.taken + 1)
    case Sending(t) => if s.bridge.slot.Some? then s.(bridge := s.bridge.(pc := Waiting(t))) else Send(s, t)
    case Woken(t) => Send(s, t)
    case Completed => s.(bridge := s.bridge.(pc := Idle), finished := s.finished + 1)
  }

  function Send(s: System, t: nat): System {
    var p := |s.tags|;
    var last := t + 1 == s.bridge.count;
    Calls(s.(bridge := s.bridge.(slot := Some(p), pc := if last then AllSent else Sending(t + 1)),
             tags := s.tags + [Tag(s.bridge.curr, last)]),
          SendBeginReq(0, 0, p))
  }

  /** The request channel is free: wake the thread if it waits for that. */
  function Release(b: Bridge): Bridge {
    b.(slot := None, pc := if b.pc.Waiting? then Woken(b.pc.t) else b.pc)
  }

  /** The response must be about the current request; the last one wakes the thread if it is there to be woken. */
  function BridgeGetsResponse(s: System, p: nat): System {
    var b := if s.bridge.slot == Some(p) then Release(s.bridge) else s.bridge;
    var known := p < |s.tags| && s.tags[p].req == b.curr;
    var b' := if p < |s.tags| && s.tags[p].last && b.pc == AllSent then b.(pc := Completed) else b;
    Calls(s.(bridge := b', fault := s.fault || !known), SendEndResp(0, p))
  }

  function BridgeCallback(s: System, e: Event): System {
    match e.phase
    case EndReq => s.(bridge := Release(s.bridge), fault := s.fault || s.bridge.slot.None?)
    case BeginResp => BridgeGetsResponse(s, e.p)
    case _ => s.(fault := true)
  }

  function TargetAccepts(s: System, p: nat): System {
    var s' := Calls(s, SendEndReq(0, p));
    s'.(target := s'.target.(timer := true, slot := Some(p)), fault := s'.fault || s.target.slot.Some?)
  }

  function TargetResponds(s: System, p: nat): System {
    Calls(s.(target := s.target.(responding := true)), SendBeginResp(0, p))
  }

  /** The target is clear to issue a response that waited. */
  function TargetNextResponse(s: System): System {
    if s.target.nextResp.None? then s
    else
      var r := TargetResponds(s, s.target.nextResp.value);
      r.(target := r.target.(nextResp := None))
  }

  /** And to accept a request it deferred. */
  function TargetNextRequest(s: System): System {
    if s.target.blocked.None? then s
    else
      var r := TargetAccepts(s, s.target.blocked.value);
      r.(target := r.target.(blocked := None))
  }

  function TargetReleased(s: System): System {
    s.(target := s.target.(slot := None, responding := false), fault := s.fault || !s.target.responding)
  }

  function TargetEndsResponse(s: System): System {
    TargetNextRequest(TargetNextResponse(TargetReleased(s)))
  }

  function TargetCallback(s: System, e: Event): System {
    match e.phase
    case BeginReq =>
      if s.target.slot.None? then TargetAccepts(s, e.p) else s.(target := s.target.(blocked := Some(e.p)))
    case EndResp => TargetEndsResponse(s)
    case _ => s.(fault := true)
  }

  function TargetDone(s: System): System {
    if s.target.slot.None? then s.(fault := true)
    else if s.target.responding then
      s.(target := s.target.(nextResp := s.target.slot), fault := s.fault || s.target.nextResp.Some?)
    else TargetResponds(s, s.target.slot.value)
  }

  // ---------------------------------------------------------------- the pipeline

  datatype Accept = AcceptInBus | AcceptAtBridge | AcceptSeen

  datatype Work = Working | ResponseInBus | ResponseAtBridge | EndInBus | EndAtTarget

  /** How far a transaction has come. Once accepted, END_REQ and the answer travel side by side. */
  datatype Stage =
    | Unsent
    | Requested                              // BEGIN_REQ is in the bus
    | Offered                                // BEGIN_REQ is in the target's queue
    | Blocked                                // the target defers END_REQ
    | Accepted(accept: Accept, work: Work)
    | Done

  /** Transactions below `c` are done, `first` is the stage of `c` and `second` that of `c + 1`. */
  datatype Pipeline = Pipeline(c: nat, first: Stage, second: Stage)

  predicate Flows(a: Pipeline) {
    && a.first != Blocked && a.first != Done && a.second != Done && !a.second.Accepted?
    && (a.second != Unsent ==> a.first.Accepted? && a.first.accept == AcceptSeen)
    && (a.first.Accepted? && a.first.accept == AcceptInBus ==> a.first.work == Working || a.first.work == ResponseInBus)
    && (a.first.Accepted? && a.first.accept == AcceptAtBridge ==>
          a.first.work == Working || a.first.work == ResponseInBus || a.first.work == ResponseAtBridge)
  }

  function StageOf(a: Pipeline, p: nat): Stage {
    if p < a.c then Done else if p == a.c then a.first else if p == a.c + 1 then a.second else Unsent
  }

  /** The number of transactions sent, and of those answered. */
  function Sent(a: Pipeline): nat {
    a.c + (if a.first == Unsent then 0 else if a.second == Unsent then 1 else 2)
  }

  function Answered(a: Pipeline): nat {
    a.c + (if a.first.Accepted? && (a.first.work == EndInBus || a.first.work == EndAtTarget) then 1 else 0)
  }

  /** Where a transaction's tokens are at each stage, as far as the bus and the checkers see. */
  function Trail(x: Stage): Local {
    match x
    case Unsent => Local(None, None, 0, 0, 0, 0, 0, 0, false, false, false, false, false, false, false)
    case Requested => Local(Some(BeginReq), None, 1, 0, 0, 0, 0, 0, false, false, true, false, false, false, false)
    case Offered => Local(Some(BeginReq), Some(BeginReq), 0, 0, 0, 0, 0, 0, true, false,
      true, false, false, false, false)
    case Blocked => Local(Some(BeginReq), Some(BeginReq), 0, 0, 0, 0, 0, 0, true, false,
      true, false, false, false, false)
    case Done => Local(Some(EndResp), Some(EndResp), 0, 0, 0, 0, 0, 0, false, false, false, false, false, false, false)
    case Accepted(acc, r) =>
      var inBus := acc == AcceptInBus;
      var up :=
        if r == EndInBus || r == EndAtTarget then EndResp
        else if r == ResponseAtBridge then BeginResp
        else if inBus then BeginReq else EndReq;
      var down := if r == Working then EndReq else if r == EndAtTarget then EndResp else BeginResp;
      Local(Some(up), Some(down), 0, if r == EndInBus then 1 else 0, if inBus then 1 else 0,
            if r == ResponseInBus then 1 else 0, 0, 0,
            inBus, r == ResponseAtBridge || r == EndInBus, inBus, r == ResponseAtBridge,
            r == ResponseInBus || r == ResponseAtBridge || r == EndInBus, false, false)
  }

  /** One initiator, one target, `n` transactions so far, nothing on hold. */
  ghost predicate Wired(w: World, n: nat) {
    && Fits(w) && |w.upReq| == 1 && |w.downReq| == 1
    && w.queuedReq == {} && w.queuedResp == {}
    && (forall p: nat :: p in w.home <==> p < n)
    && (forall p :: p in w.home ==> w.home[p] == Route(0, 0))
    && (w.upReq[0].Some? ==> w.upReq[0].value < n) && (w.downResp[0].Some? ==> w.downResp[0].value < n)
  }

  ghost predicate Trails(w: World, a: Pipeline)
    requires Fits(w)
  {
    forall p :: p in w.up ==> LocalOf(w, p) == Trail(StageOf(a, p))
  }

  /** The world between bridge and target is that of the pipeline. */
  ghost predicate Mirrors(w: World, a: Pipeline) {
    Wired(w, Sent(a)) && Inv(w) && Trails(w, a)
  }

  // ---- each call and each event moves one transaction one stage

  lemma Lookup(w: World, a: Pipeline, p: nat)
    requires Mirrors(w, a) && p < Sent(a)
    ensures p in w.up && p in w.home && w.home[p] == Route(0, 0) && w.bus.routes[p] == Route(0, 0)
    ensures LocalOf(w, p) == Trail(StageOf(a, p))
  {
    hide LocalOf, Trail, Inv;
  }

  lemma TrailNeverWaits(x: Stage)
    ensures Trail(x).waitReq == 0 && Trail(x).waitResp == 0 && !Trail(x).heldReq && !Trail(x).heldResp
  {
  }

  /** No payload is on hold, so the hold queues are empty. */
  lemma NothingWaits(w: World, a: Pipeline)
    requires Mirrors(w, a)
    ensures Fits(w) && |w.bus.pendingReq| == 1 && |w.bus.pendingResp| == 1
    ensures w.bus.pendingReq[0] == [] && w.bus.pendingResp[0] == []
  {
    hide LocalOk, LocalOf, Trail;
    if w.bus.pendingReq[0] != [] {
      var q := w.bus.pendingReq[0][0];
      WaitingReq(w, 0);
      Lookup(w, a, q);
      TrailNeverWaits(StageOf(a, q));
    }
    if w.bus.pendingResp[0] != [] {
      var q := w.bus.pendingResp[0][0];
      WaitingResp(w, 0);
      Lookup(w, a, q);
      TrailNeverWaits(StageOf(a, q));
    }
  }

  lemma WiredSend(w: World, n: nat, x: Action)
    requires Wired(w, n) && Inv(w) && Enabled(w, x) && !x.DeliverFw? && !x.DeliverBw?
    requires x.SendBeginReq? ==> x == SendBeginReq(0, 0, n)
    ensures Wired(Act(w, x), if x.SendBeginReq? then n + 1 else n)
  {
    hide LocalOk, LocalOf, Homed, AllLocal, Known, Sized;
    StepInv(w, x);
    QueuedBy(w, x);
    SocketsStay(w, x);
  }

  lemma DeliveryFreesSlots(w: World, e: Event)
    requires Fits(w) && |w.upReq| == 1 && |w.downReq| == 1
    ensures e in w.bus.fw ==> HandleFw(w, e).home == w.home && HandleFw(w, e).upReq == w.upReq
    ensures e in w.bus.fw ==> HandleFw(w, e).downResp == w.downResp || HandleFw(w, e).downResp == [None]
    ensures e in w.bus.bw ==> HandleBw(w, e).home == w.home && HandleBw(w, e).downResp == w.downResp
    ensures e in w.bus.bw ==> HandleBw(w, e).upReq == w.upReq || HandleBw(w, e).upReq == [None]
  {
  }

  lemma WiredDeliver(w: World, n: nat, x: Action)
    requires Wired(w, n) && Inv(w) && Enabled(w, x) && (x.DeliverFw? || x.DeliverBw?)
    ensures Wired(Act(w, x), n)
  {
    hide LocalOk, LocalOf, Homed, AllLocal, HandleFw, HandleBw, Known, Sized;
    StepInv(w, x);
    QueuedBy(w, x);
    SocketsStay(w, x);
    DeliveryFreesSlots(w, x.e);
  }

  lemma UpReqFree(w: World, a: Pipeline)
    requires Mirrors(w, a) && forall p: nat :: p < Sent(a) ==> !Trail(StageOf(a, p)).upReq
    ensures w.upReq[0].None?
  {
    hide LocalOk, LocalOf, Homed, AllLocal, Trail;
    if w.upReq[0].Some? {
      Lookup(w, a, w.upReq[0].value);
      Sockets(w, w.upReq[0].value);
    }
  }

  predicate CanIssue(a: Pipeline) {
    a.first == Unsent || (a.first.Accepted? && a.first.accept == AcceptSeen && a.second == Unsent)
  }

  function Issued(a: Pipeline): Pipeline {
    if a.first == Unsent then a.(first := Requested) else a.(second := Requested)
  }

  lemma IssuedStages(a: Pipeline, p: nat)
    requires Flows(a) && CanIssue(a)
    ensures Flows(Issued(a)) && Sent(Issued(a)) == Sent(a) + 1
    ensures StageOf(Issued(a), p) == if p == Sent(a) then Requested else StageOf(a, p)
    ensures p < Sent(a) ==> !Trail(StageOf(a, p)).upReq
  {
  }

  lemma MirrorSendBeginReq(w: World, a: Pipeline)
    requires Mirrors(w, a) && Flows(a) && CanIssue(a)
    ensures Fits(w) && Enabled(w, SendBeginReq(0, 0, Sent(a)))
    ensures Mirrors(Act(w, SendBeginReq(0, 0, Sent(a))), Issued(a))
  {
    hide LocalOk, LocalOf, Homed, AllLocal, Sent, StageOf, Issued, CanIssue, Flows;
    var n := Sent(a);
    forall p: nat | p < n ensures !Trail(StageOf(a, p)).upReq { IssuedStages(a, p); }
    UpReqFree(w, a);
    var x := SendBeginReq(0, 0, n);
    var w' := Act(w, x);
    StepInv(w, x);
    WiredSend(w, n, x);
    SendBeginReqNew(w, 0, 0, n);
    IssuedStages(a, n);
    forall p | p in w.up ensures LocalOf(w', p) == Trail(StageOf(Issued(a), p)) {
      SendBeginReqOthers(w, 0, 0, n, p);
      IssuedStages(a, p);
    }
  }

  /** The pipeline with transaction `p` moved to stage `y`. */
  function Moved(a: Pipeline, p: nat, y: Stage): Pipeline {
    if p == a.c then a.(first := y) else a.(second := y)
  }

  lemma MovedStages(a: Pipeline, p: nat, y: Stage, q: nat)
    requires a.c <= p < Sent(a) && y != Unsent
    ensures Sent(Moved(a, p, y)) == Sent(a)
    ensures StageOf(Moved(a, p, y), q) == if q == p then y else StageOf(a, q)
  {
  }

  lemma MirrorMove(w: World, w': World, a: Pipeline, p: nat, y: Stage)
    requires Mirrors(w, a) && a.c <= p < Sent(a) && y != Unsent
    requires Wired(w', Sent(a)) && Inv(w') && p in w'.up && LocalOf(w', p) == Trail(y)
    requires forall q :: q in w.up && q in w'.up && q != p ==> LocalOf(w', q) == LocalOf(w, q)
    ensures Mirrors(w', Moved(a, p, y))
  {
    hide LocalOf, Trail, StageOf, Moved, Sent, LocalOk, Homed, AllLocal;
    MovedStages(a, p, y, p);
    forall q | q in w'.up ensures LocalOf(w', q) == Trail(StageOf(Moved(a, p, y), q)) {
      MovedStages(a, p, y, q);
      if q != p { Lookup(w, a, q); }
    }
  }

  lemma MirrorSendEndReq(w: World, a: Pipeline)
    requires Mirrors(w, a) && a.first == Offered
    ensures Fits(w) && Enabled(w, SendEndReq(0, a.c))
    ensures Mirrors(Act(w, SendEndReq(0, a.c)), a.(first := Accepted(AcceptInBus, Working)))
  {
    hide LocalOk, LocalOf, Homed, AllLocal;
    var x := SendEndReq(0, a.c);
    Lookup(w, a, a.c);
    Views(w, a.c);
    StepInv(w, x);
    WiredSend(w, Sent(a), x);
    SendEndReqStep(w, 0, a.c, a.c);
    forall q | q in w.up && q != a.c ensures q in Act(w, x).up && LocalOf(Act(w, x), q) == LocalOf(w, q) {
      SendEndReqStep(w, 0, a.c, q);
    }
    MirrorMove(w, Act(w, x), a, a.c, Accepted(AcceptInBus, Working));
  }

  lemma FirstStage(a: Pipeline)
    requires a.first != Unsent
    ensures a.c < Sent(a) && StageOf(a, a.c) == a.first
  {
  }

  /** The calls the bus makes when it handles an event. */
  lemma CallsMade(w: World, p: nat)
    requires Fits(w) && p in w.up
    ensures Event(p, EndResp) in w.bus.fw ==>
      HandleCallFw(w, Event(p, EndResp)) == Down(w.home[p].dsock, p, EndResp)
    ensures Event(p, EndReq) in w.bus.bw ==>
      HandleCallBw(w, Event(p, EndReq)) == Up(w.home[p].usock, p, EndReq)
    ensures Event(p, BeginReq) in w.bus.fw && w.bus.reqInProgress[w.home[p].dsock].None? ==>
      HandleCallFw(w, Event(p, BeginReq)) == Down(w.home[p].dsock, p, BeginReq)
    ensures Event(p, BeginResp) in w.bus.bw && w.bus.respInProgress[w.home[p].usock].None? ==>
      HandleCallBw(w, Event(p, BeginResp)) == Up(w.home[p].usock, p, BeginResp)
  {
  }

  lemma NoOtherResponse(w: World, a: Pipeline)
    requires Mirrors(w, a) && Flows(a) && a.first.Accepted? && a.first.work == Working
    ensures Fits(w) && |w.downResp| == 1 && w.downResp[0].None?
  {
    hide LocalOk, LocalOf, Homed, AllLocal;
    if w.downResp[0].Some? {
      Lookup(w, a, w.downResp[0].value);
      Sockets(w, w.downResp[0].value);
    }
  }

  lemma MirrorSendBeginResp(w: World, a: Pipeline)
    requires Mirrors(w, a) && Flows(a) && a.first.Accepted? && a.first.work == Working
    ensures Fits(w) && Enabled(w, SendBeginResp(0, a.c))
    ensures Mirrors(Act(w, SendBeginResp(0, a.c)), Moved(a, a.c, a.first.(work := ResponseInBus)))
  {
    hide LocalOk, LocalOf, Homed, AllLocal, StageOf, Sent, Moved, HandleFw, HandleBw, Trails, Known, Sized;
    var x := SendBeginResp(0, a.c);
    FirstStage(a);
    Lookup(w, a, a.c);
    Views(w, a.c);
    Sockets(w, a.c);
    NoOtherResponse(w, a);
    StepInv(w, x);
    WiredSend(w, Sent(a), x);
    SendBeginRespStep(w, 0, a.c, a.c);
    forall q | q in w.up && q != a.c ensures q in Act(w, x).up && LocalOf(Act(w, x), q) == LocalOf(w, q) {
      SendBeginRespStep(w, 0, a.c, q);
    }
    MirrorMove(w, Act(w, x), a, a.c, a.first.(work := ResponseInBus));
  }

  lemma MirrorSendEndResp(w: World, a: Pipeline)
    requires Mirrors(w, a) && Flows(a) && a.first == Accepted(AcceptSeen, ResponseAtBridge)
    ensures Fits(w) && Enabled(w, SendEndResp(0, a.c))
    ensures Mirrors(Act(w, SendEndResp(0, a.c)), Moved(a, a.c, Accepted(AcceptSeen, EndInBus)))
  {
    hide LocalOk, LocalOf, Homed, AllLocal, StageOf, Sent, Moved, HandleFw, HandleBw, Trails, Known, Sized;
    var x := SendEndResp(0, a.c);
    FirstStage(a);
    Lookup(w, a, a.c);
    Views(w, a.c);
    Sockets(w, a.c);
    StepInv(w, x);
    WiredSend(w, Sent(a), x);
    SendEndRespStep(w, 0, a.c, a.c);
    forall q | q in w.up && q != a.c ensures q in Act(w, x).up && LocalOf(Act(w, x), q) == LocalOf(w, q) {
      SendEndRespStep(w, 0, a.c, q);
    }
    MirrorMove(w, Act(w, x), a, a.c, Accepted(AcceptSeen, EndInBus));
  }

  lemma MirrorBeginReq(w: World, a: Pipeline, p: nat)
    requires Mirrors(w, a) && Flows(a) && a.c <= p < Sent(a) && StageOf(a, p) == Requested
    ensures Fits(w) && Enabled(w, DeliverFw(Event(p, BeginReq)))
    ensures Mirrors(Act(w, DeliverFw(Event(p, BeginReq))), Moved(a, p, Offered))
    ensures Event(p, BeginReq) in w.bus.fw && HandleCallFw(w, Event(p, BeginReq)) == Down(0, p, BeginReq)
  {
    hide LocalOk, LocalOf, Homed, AllLocal, StageOf, Sent, Moved, HandleFw, HandleBw,
      HandleCallFw, HandleCallBw, Known, Sized;
    var x := DeliverFw(Event(p, BeginReq));
    Lookup(w, a, p);
    Views(w, p);
    OneInitiatorNeverCollides(w, p);
    CallsMade(w, p);
    StepInv(w, x);
    WiredDeliver(w, Sent(a), x);
    BeginReqForwarded(w, p, p);
    forall q | q in w.up && q != p ensures q in Act(w, x).up && LocalOf(Act(w, x), q) == LocalOf(w, q) {
      BeginReqForwarded(w, p, q);
    }
    MirrorMove(w, Act(w, x), a, p, Offered);
  }

  lemma MirrorEndResp(w: World, a: Pipeline)
    requires Mirrors(w, a) && Flows(a) && a.first == Accepted(AcceptSeen, EndInBus)
    ensures Fits(w) && Enabled(w, DeliverFw(Event(a.c, EndResp)))
    ensures Mirrors(Act(w, DeliverFw(Event(a.c, EndResp))), Moved(a, a.c, Accepted(AcceptSeen, EndAtTarget)))
    ensures Event(a.c, EndResp) in w.bus.fw && HandleCallFw(w, Event(a.c, EndResp)) == Down(0, a.c, EndResp)
  {
    hide LocalOk, LocalOf, Homed, AllLocal, StageOf, Sent, Moved, HandleFw, HandleBw,
      HandleCallFw, HandleCallBw, Known, Sized;
    var x := DeliverFw(Event(a.c, EndResp));
    FirstStage(a);
    Lookup(w, a, a.c);
    Views(w, a.c);
    Sockets(w, a.c);
    NothingWaits(w, a);
    CallsMade(w, a.c);
    StepInv(w, x);
    WiredDeliver(w, Sent(a), x);
    EndRespStep(w, a.c, a.c);
    forall q | q in w.up && q != a.c ensures q in Act(w, x).up && LocalOf(Act(w, x), q) == LocalOf(w, q) {
      EndRespStep(w, a.c, q);
    }
    MirrorMove(w, Act(w, x), a, a.c, Accepted(AcceptSeen, EndAtTarget));
  }

  lemma MirrorEndReq(w: World, a: Pipeline)
    requires Mirrors(w, a) && Flows(a) && a.first.Accepted? && a.first.accept == AcceptInBus
    ensures Fits(w) && Enabled(w, DeliverBw(Event(a.c, EndReq)))
    ensures Mirrors(Act(w, DeliverBw(Event(a.c, EndReq))), Moved(a, a.c, a.first.(accept := AcceptAtBridge)))
    ensures Event(a.c, EndReq) in w.bus.bw && HandleCallBw(w, Event(a.c, EndReq)) == Up(0, a.c, EndReq)
  {
    hide LocalOk, LocalOf, Homed, AllLocal, StageOf, Sent, Moved, HandleFw, HandleBw,
      HandleCallFw, HandleCallBw, Known, Sized;
    var x := DeliverBw(Event(a.c, EndReq));
    FirstStage(a);
    Lookup(w, a, a.c);
    Views(w, a.c);
    Sockets(w, a.c);
    NothingWaits(w, a);
    CallsMade(w, a.c);
    StepInv(w, x);
    WiredDeliver(w, Sent(a), x);
    EndReqStep(w, a.c, a.c);
    forall q | q in w.up && q != a.c ensures q in Act(w, x).up && LocalOf(Act(w, x), q) == LocalOf(w, q) {
      EndReqStep(w, a.c, q);
    }
    MirrorMove(w, Act(w, x), a, a.c, a.first.(accept := AcceptAtBridge));
  }

  lemma MirrorBeginResp(w: World, a: Pipeline)
    requires Mirrors(w, a) && Flows(a) && a.first.Accepted? && a.first.accept != AcceptInBus
    requires a.first.work == ResponseInBus
    ensures Fits(w) && Enabled(w, DeliverBw(Event(a.c, BeginResp)))
    ensures Mirrors(Act(w, DeliverBw(Event(a.c, BeginResp))), Moved(a, a.c, a.first.(work := ResponseAtBridge)))
    ensures Event(a.c, BeginResp) in w.bus.bw && HandleCallBw(w, Event(a.c, BeginResp)) == Up(0, a.c, BeginResp)
  {
    hide LocalOk, LocalOf, Homed, AllLocal, StageOf, Sent, Moved, HandleFw, HandleBw,
      HandleCallFw, HandleCallBw, Known, Sized;
    var x := DeliverBw(Event(a.c, BeginResp));
    FirstStage(a);
    Lookup(w, a, a.c);
    Views(w, a.c);
    Sockets(w, a.c);
    OneTargetNeverCollides(w, a.c);
    SlotsAgree(w, 0, 0);
    CallsMade(w, a.c);
    StepInv(w, x);
    WiredDeliver(w, Sent(a), x);
    BeginRespForwarded(w, a.c, a.c);
    forall q | q in w.up && q != a.c ensures q in Act(w, x).up && LocalOf(Act(w, x), q) == LocalOf(w, q) {
      BeginRespForwarded(w, a.c, q);
    }
    MirrorMove(w, Act(w, x), a, a.c, a.first.(work := ResponseAtBridge));
  }

  /** The target has handled END_RESP of its transaction and moves on to the one it deferred. */
  function Retired(a: Pipeline): Pipeline {
    Pipeline(a.c + 1, if a.second == Blocked then Offered else a.second, Unsent)
  }

  lemma MirrorRetire(w: World, a: Pipeline)
    requires Mirrors(w, a) && Flows(a) && a.first == Accepted(AcceptSeen, EndAtTarget)
    ensures Mirrors(w, Retired(a)) && Flows(Retired(a))
  {
    hide LocalOf, Inv;
  }

  lemma MirrorBlock(w: World, a: Pipeline)
    requires Mirrors(w, a) && Flows(a) && a.second == Offered
    ensures Mirrors(w, a.(second := Blocked)) && Flows(a.(second := Blocked))
  {
    hide LocalOf, Inv;
  }

  lemma MirrorSeen(w: World, a: Pipeline)
    requires Mirrors(w, a) && Flows(a) && a.first.Accepted? && a.first.accept == AcceptAtBridge
    ensures Mirrors(w, a.(first := a.first.(accept := AcceptSeen)))
    ensures Flows(a.(first := a.first.(accept := AcceptSeen)))
  {
    hide LocalOf, Inv;
  }

  /** An event in the bus tells the stage of its transaction. */
  lemma TrailEvents(x: Stage)
    ensures Trail(x).fwReq > 0 ==> x == Requested
    ensures Trail(x).fwEnd > 0 ==> x.Accepted? && x.work == EndInBus
    ensures Trail(x).bwAcc > 0 <==> x.Accepted? && x.accept == AcceptInBus
    ensures Trail(x).bwResp > 0 <==> x.Accepted? && x.work == ResponseInBus
  {
  }

  lemma StagesInFlight(a: Pipeline, p: nat)
    requires Flows(a)
    ensures StageOf(a, p) == Requested ==> a.c <= p < Sent(a)
    ensures StageOf(a, p).Accepted? ==> p == a.c && StageOf(a, p) == a.first
    ensures a.first.Accepted? && a.first.work == EndInBus ==> a.first.accept == AcceptSeen
  {
  }

  lemma BusEvents(w: World, a: Pipeline, e: Event)
    requires Mirrors(w, a) && Flows(a)
    ensures e in w.bus.fw ==>
      || (e.phase == BeginReq && a.c <= e.p < Sent(a) && StageOf(a, e.p) == Requested)
      || (e == Event(a.c, EndResp) && a.first == Accepted(AcceptSeen, EndInBus))
    ensures e in w.bus.bw ==>
      || (e == Event(a.c, EndReq) && a.first.Accepted? && a.first.accept == AcceptInBus)
      || (e == Event(a.c, BeginResp) && a.first.Accepted? && a.first.work == ResponseInBus)
    ensures a.first.Accepted? && a.first.accept == AcceptInBus ==> Event(a.c, EndReq) in w.bus.bw
  {
    hide LocalOf, LocalOk, AllLocal, QueuesHome, UpSlotsHome, DownSlotsHome, Trail, Flows, StageOf;
    EventKinds(w, e);
    if a.first != Unsent {
      FirstStage(a);
      Lookup(w, a, a.c);
      Views(w, a.c);
      TrailEvents(a.first);
    }
    if e.p in w.up {
      Lookup(w, a, e.p);
      Views(w, e.p);
      TrailEvents(StageOf(a, e.p));
      StagesInFlight(a, e.p);
    }
  }

  // ---------------------------------------------------------------- the system refines the pipeline

  function TargetQueue(a: Pipeline): multiset<Event> {
    (if a.first == Offered then multiset{Event(a.c, BeginReq)}
     else if a.first.Accepted? && a.first.work == EndAtTarget then multiset{Event(a.c, EndResp)} else multiset{})
    + (if a.second == Offered then multiset{Event(a.c + 1, BeginReq)} else multiset{})
  }

  function BridgeQueue(a: Pipeline): multiset<Event> {
    (if a.first.Accepted? && a.first.accept == AcceptAtBridge then multiset{Event(a.c, EndReq)} else multiset{})
    + (if a.first.Accepted? && a.first.work == ResponseAtBridge then multiset{Event(a.c, BeginResp)} else multiset{})
  }

  /** The transaction whose END_REQ the bridge has not seen. */
  function Unaccepted(a: Pipeline): Option<nat> {
    if a.second != Unsent then Some(a.c + 1)
    else if a.first == Unsent || (a.first.Accepted? && a.first.accept == AcceptSeen) then None
    else Some(a.c)
  }

  /** All the pipeline says about the two machines at its ends. */
  datatype Surface = Surface(
    sent: nat, answered: nat, unaccepted: Option<nat>, bridgeQueue: multiset<Event>,
    slot: Option<nat>, responding: bool, timer: bool, blocked: Option<nat>, targetQueue: multiset<Event>)

  function SurfaceOf(a: Pipeline): Surface {
    Surface(Sent(a), Answered(a), Unaccepted(a), BridgeQueue(a),
            if a.first.Accepted? then Some(a.c) else None,
            a.first.Accepted? && a.first.work != Working, a.first.Accepted? && a.first.work == Working,
            if a.second == Blocked then Some(a.c + 1) else None, TargetQueue(a))
  }

  predicate TargetIs(t: Target, f: Surface) {
    t == Target(f.slot, f.responding, None, f.blocked, f.timer, f.targetQueue)
  }

  /** The transactions from `base` on belong to request `curr`; the last one of its `count` is marked. */
  predicate TagsAre(tags: seq<Tag>, base: nat, curr: nat, count: nat) {
    forall i :: base <= i < |tags| ==> tags[i] == Tag(curr, i + 1 == base + count)
  }

  function Total(work: seq<nat>): nat {
    if work == [] then 0 else Total(work[..|work| - 1]) + work[|work| - 1]
  }

  lemma TotalOneMore(work: seq<nat>, k: nat)
    requires k < |work|
    ensures Total(work[..k + 1]) == Total(work[..k]) + work[k]
  {
    assert work[..k + 1][..k] == work[..k];
  }

  predicate Positive(work: seq<nat>) {
    forall n :: n in work ==> n > 0
  }

  /** `base` is the first transaction of the request the bridge works on. */
  predicate BridgeIs(s: System, f: Surface, base: nat) {
    var b := s.bridge;
    && b.slot == f.unaccepted && b.peq == f.bridgeQueue
    && |s.tags| == f.sent && Positive(s.work)
    && s.finished <= s.taken <= |s.work|
    && (if b.pc == Idle then s.finished == s.taken && f.answered == f.sent == Total(s.work[..s.finished])
        else
          && s.finished + 1 == s.taken && b.curr == s.finished && b.count == s.work[b.curr]
          && Total(s.work[..s.finished]) == base <= f.answered
          && TagsAre(s.tags, base, b.curr, b.count)
          && match b.pc
             case Idle => true
             case AllSent => f.answered < f.sent == base + b.count
             case Completed => f.answered == f.sent == base + b.count
             case Sending(t) => t < b.count && f.sent == base + t
             case Waiting(t) => t < b.count && f.sent == base + t && b.slot.Some?
             case Woken(t) => t < b.count && f.sent == base + t && b.slot.None?)
  }

  ghost predicate Refines(s: System, a: Pipeline, base: nat) {
    !s.fault && Mirrors(s.w, a) && Flows(a) && TargetIs(s.target, SurfaceOf(a)) && BridgeIs(s, SurfaceOf(a), base)
  }

  // ---- how each move of the pipeline shows at its ends

  lemma IssuedSurface(a: Pipeline)
    requires Flows(a) && SurfaceOf(a).unaccepted.None?
    ensures CanIssue(a) && Flows(Issued(a))
    ensures SurfaceOf(Issued(a)) == SurfaceOf(a).(sent := Sent(a) + 1, unaccepted := Some(Sent(a)))
    ensures SurfaceOf(a).sent == Sent(a) && SurfaceOf(a).answered <= Sent(a)
  {
    hide BridgeQueue, TargetQueue;
    IssuedQueues(a);
  }

  lemma IssuedQueues(a: Pipeline)
    requires Flows(a) && (a.first == Unsent || a.first.Accepted?) && a.second == Unsent
    ensures BridgeQueue(Issued(a)) == BridgeQueue(a) && TargetQueue(Issued(a)) == TargetQueue(a)
  {
  }

  lemma OfferedSurface(a: Pipeline, p: nat)
    requires Flows(a) && a.c <= p < Sent(a) && StageOf(a, p) == Requested
    ensures Flows(Moved(a, p, Offered))
    ensures SurfaceOf(Moved(a, p, Offered)) ==
      SurfaceOf(a).(targetQueue := SurfaceOf(a).targetQueue + multiset{Event(p, BeginReq)})
  {
    assert p == a.c || p == a.c + 1;
    assert TargetQueue(Moved(a, p, Offered)) == TargetQueue(a) + multiset{Event(p, BeginReq)};
  }

  lemma EndAtTargetSurface(a: Pipeline)
    requires Flows(a) && a.first == Accepted(AcceptSeen, EndInBus)
    ensures var a' := Moved(a, a.c, Accepted(AcceptSeen, EndAtTarget));
      Flows(a') && SurfaceOf(a') == SurfaceOf(a).(targetQueue := SurfaceOf(a).targetQueue +
        multiset{Event(a.c, EndResp)})
  {
  }

  lemma AcceptAtBridgeSurface(a: Pipeline)
    requires Flows(a) && a.first.Accepted? && a.first.accept == AcceptInBus
    ensures var a' := Moved(a, a.c, a.first.(accept := AcceptAtBridge));
      Flows(a') && SurfaceOf(a') == SurfaceOf(a).(bridgeQueue := SurfaceOf(a).bridgeQueue +
        multiset{Event(a.c, EndReq)})
  {
  }

  lemma ResponseAtBridgeSurface(a: Pipeline)
    requires Flows(a) && a.first.Accepted? && a.first.accept != AcceptInBus && a.first.work == ResponseInBus
    ensures var a' := Moved(a, a.c, a.first.(work := ResponseAtBridge));
      Flows(a') && SurfaceOf(a') == SurfaceOf(a).(bridgeQueue := SurfaceOf(a).bridgeQueue +
        multiset{Event(a.c, BeginResp)})
  {
    var a' := Moved(a, a.c, a.first.(work := ResponseAtBridge));
    assert BridgeQueue(a') == BridgeQueue(a) + multiset{Event(a.c, BeginResp)};
    assert TargetQueue(a') == TargetQueue(a);
  }

  lemma SeenSurface(a: Pipeline)
    requires Flows(a) && a.first.Accepted? && a.first.accept == AcceptAtBridge
    ensures var a' := a.(first := a.first.(accept := AcceptSeen));
      Flows(a') && SurfaceOf(a).unaccepted.Some? && SurfaceOf(a') == SurfaceOf(a).(
           unaccepted := None, bridgeQueue := SurfaceOf(a).bridgeQueue - multiset{Event(a.c, EndReq)})
  {
    var a' := a.(first := a.first.(accept := AcceptSeen));
    assert BridgeQueue(a') == BridgeQueue(a) - multiset{Event(a.c, EndReq)};
    assert TargetQueue(a') == TargetQueue(a);
  }

  lemma AnsweredSurface(a: Pipeline)
    requires Flows(a) && a.first == Accepted(AcceptSeen, ResponseAtBridge)
    ensures var a' := Moved(a, a.c, Accepted(AcceptSeen, EndInBus));
      Flows(a') && SurfaceOf(a).answered == a.c < SurfaceOf(a).sent &&
        SurfaceOf(a).unaccepted != Some(a.c) && SurfaceOf(a') == SurfaceOf(a).(
           answered := a.c + 1, bridgeQueue := SurfaceOf(a).bridgeQueue - multiset{Event(a.c, BeginResp)})
  {
    hide BridgeQueue, TargetQueue, Sent, Answered, Unaccepted, Flows;
    AnsweredQueues(a);
    AnsweredCounts(a);
  }

  lemma AnsweredCounts(a: Pipeline)
    requires Flows(a) && a.first == Accepted(AcceptSeen, ResponseAtBridge)
    ensures var a' := Moved(a, a.c, Accepted(AcceptSeen, EndInBus));
      && Flows(a') && Sent(a') == Sent(a) > a.c && Answered(a) == a.c && Answered(a') == a.c + 1
      && Unaccepted(a') == Unaccepted(a) != Some(a.c)
  {
  }

  lemma AnsweredQueues(a: Pipeline)
    requires Flows(a) && a.first == Accepted(AcceptSeen, ResponseAtBridge)
    ensures var a' := Moved(a, a.c, Accepted(AcceptSeen, EndInBus));
      BridgeQueue(a') == BridgeQueue(a) - multiset{Event(a.c, BeginResp)} && TargetQueue(a') == TargetQueue(a)
  {
    assert BridgeQueue(a) == multiset{Event(a.c, BeginResp)};
  }

  lemma AcceptedSurface(a: Pipeline)
    requires Flows(a) && a.first == Offered
    ensures var a' := a.(first := Accepted(AcceptInBus, Working));
      Flows(a') && SurfaceOf(a).slot.None? && SurfaceOf(a).blocked.None? && SurfaceOf(a') == SurfaceOf(a).(
           slot := Some(a.c), timer := true, targetQueue := SurfaceOf(a).targetQueue - multiset{Event(a.c, BeginReq)})
  {
  }

  lemma BlockedSurface(a: Pipeline)
    requires Flows(a) && a.second == Offered
    ensures var a' := a.(second := Blocked);
      Flows(a') && SurfaceOf(a).slot.Some? && SurfaceOf(a') == SurfaceOf(a).(
           blocked := Some(a.c + 1), targetQueue := SurfaceOf(a).targetQueue - multiset{Event(a.c + 1, BeginReq)})
  {
    var a' := a.(second := Blocked);
    assert TargetQueue(a') == TargetQueue(a) - multiset{Event(a.c + 1, BeginReq)};
    assert BridgeQueue(a') == BridgeQueue(a);
  }

  /** Retiring leaves the target idle; a deferred request shows up as if it had just been offered. */
  lemma RetiredSurface(a: Pipeline)
    requires Flows(a) && a.first == Accepted(AcceptSeen, EndAtTarget)
    ensures Flows(Retired(a)) && SurfaceOf(a).responding
    ensures SurfaceOf(a).blocked == if a.second == Blocked then Some(a.c + 1) else None
    ensures SurfaceOf(Retired(a)) == SurfaceOf(a).(
      slot := None, responding := false, blocked := None,
      targetQueue := SurfaceOf(a).targetQueue - multiset{Event(a.c, EndResp)}
                     + if a.second == Blocked then multiset{Event(a.c + 1, BeginReq)} else multiset{})
  {
  }

  lemma RespondedSurface(a: Pipeline)
    requires Flows(a) && SurfaceOf(a).timer
    ensures a.first.Accepted? && a.first.work == Working
    ensures SurfaceOf(a).slot == Some(a.c) && !SurfaceOf(a).responding
    ensures var a' := Moved(a, a.c, a.first.(work := ResponseInBus));
      Flows(a') && SurfaceOf(a') == SurfaceOf(a).(responding := true, timer := false)
  {
  }

  /** The only ways a stage may change in one step. */
  predicate StageStep(x: Stage, y: Stage) {
    || x == y
    || (x == Unsent && y == Requested) || (x == Requested && y == Offered) || (x == Offered && y == Blocked)
    || ((x == Offered || x == Blocked) && y == Accepted(AcceptInBus, Working))
    || (x.Accepted? && x.accept == AcceptInBus && (x.work == Working || x.work == ResponseInBus)
        && y == x.(accept := AcceptAtBridge))
    || (x.Accepted? && x.accept == AcceptAtBridge && y == x.(accept := AcceptSeen))
    || (x.Accepted? && x.work == Working && y == x.(work := ResponseInBus))
    || (x.Accepted? && x.accept != AcceptInBus && x.work == ResponseInBus && y == x.(work := ResponseAtBridge))
    || (x == Accepted(AcceptSeen, ResponseAtBridge) && y == Accepted(AcceptSeen, EndInBus))
    || (x == Accepted(AcceptSeen, EndInBus) && y == Accepted(AcceptSeen, EndAtTarget))
    || (x == Accepted(AcceptSeen, EndAtTarget) && y == Done)
  }

  /** At most two transactions move, each by one stage; the rank of the pipeline tells how far it still has to go. */
  predicate Advances(a: Pipeline, a': Pipeline) {
    && a.c <= a'.c <= a.c + 1
    && StageStep(StageOf(a, a.c), StageOf(a', a.c)) && StageStep(StageOf(a, a.c + 1), StageOf(a', a.c + 1))
    && StageOf(a', a.c + 2) == Unsent
  }

  lemma AdvancesAll(a: Pipeline, a': Pipeline, p: nat)
    requires Advances(a, a')
    ensures StageStep(StageOf(a, p), StageOf(a', p))
  {
  }

  // ---- how far the system has to go

  /** How many steps a transaction still has to go. */
  function StageRank(x: Stage): nat {
    match x
    case Unsent => 0
    case Requested => 10
    case Offered => 9
    case Blocked => 8
    case Done => 0
    case Accepted(acc, r) =>
      (if acc == AcceptInBus then 2 else if acc == AcceptAtBridge then 1 else 0)
      + (match r
         case Working => 5 case ResponseInBus => 4 case ResponseAtBridge => 3 case EndInBus => 2 case EndAtTarget => 1)
  }

  function PipeRank(a: Pipeline): nat {
    StageRank(a.first) + StageRank(a.second)
  }

  function ThreadRank(b: Bridge): nat {
    match b.pc
    case Idle => 0
    case Sending(t) => 2 + (if t < b.count then 14 * (b.count - t) else 0)
    case Waiting(t) => 1 + (if t < b.count then 14 * (b.count - t) else 0)
    case Woken(t) => 1 + (if t < b.count then 14 * (b.count - t) else 0)
    case AllSent => 1
    case Completed => 1
  }

  /** The work of the requests the bridge has not taken yet. */
  function Backlog(work: seq<nat>, taken: nat): nat
    decreases |work| - taken
  {
    if taken < |work| then 3 + 14 * work[taken] + Backlog(work, taken + 1) else 0
  }

  function Rank(s: System, a: Pipeline): nat {
    Backlog(s.work, s.taken) + ThreadRank(s.bridge) + PipeRank(a)
  }

  lemma MovedAdvances(a: Pipeline, p: nat, y: Stage)
    requires a.c <= p < Sent(a) && y != Unsent && StageStep(StageOf(a, p), y)
    ensures Advances(a, Moved(a, p, y))
    ensures PipeRank(Moved(a, p, y)) + StageRank(StageOf(a, p)) == PipeRank(a) + StageRank(y)
  {
  }

  lemma FirstAdvances(a: Pipeline, y: Stage)
    requires StageStep(a.first, y)
    ensures Advances(a, a.(first := y)) && Moved(a, a.c, y) == a.(first := y)
    ensures PipeRank(a.(first := y)) + StageRank(a.first) == PipeRank(a) + StageRank(y)
  {
  }

  lemma OthersAdvance(a: Pipeline)
    requires Flows(a)
    ensures Advances(a, a)
    ensures CanIssue(a) ==> Advances(a, Issued(a)) && PipeRank(Issued(a)) == PipeRank(a) + 10
    ensures a.second == Offered ==> Advances(a, a.(second := Blocked)) && PipeRank(a.(second := Blocked)) < PipeRank(a)
    ensures a.first == Accepted(AcceptSeen, EndAtTarget) && a.second != Blocked ==>
      Advances(a, Retired(a)) && PipeRank(Retired(a)) < PipeRank(a)
    ensures a.first == Accepted(AcceptSeen, EndAtTarget) && a.second == Blocked ==>
      var a' := Retired(a).(first := Accepted(AcceptInBus, Working)); Advances(a, a') && PipeRank(a') < PipeRank(a)
  {
  }

  // ---- each step of the system is a step of the pipeline

  lemma StartRefines()
    ensures Refines(Start(), Pipeline(0, Unsent, Unsent), 0)
  {
    InitialInv(1, 1);
  }

  lemma SubmitRefines(s: System, a: Pipeline, base: nat, n: nat)
    requires Refines(s, a, base) && n > 0
    ensures Refines(Next(s, Submit(n)), a, base)
  {
    hide Mirrors, Flows, SurfaceOf, TagsAre;
    var s' := Next(s, Submit(n));
    assert s.bridge.pc != Idle ==> s'.work[s.bridge.curr] == s.work[s.bridge.curr];
    assert Positive(s'.work);
    assert s'.work[..s.finished] == s.work[..s.finished];
    assert !s'.fault && Mirrors(s'.w, a) && Flows(a);
    assert TargetIs(s'.target, SurfaceOf(a));
    assert BridgeIs(s', SurfaceOf(a), base);
  }

  lemma SendRefines(s: System, a: Pipeline, base: nat, t: nat)
    requires !s.fault && Mirrors(s.w, a) && Flows(a) && TargetIs(s.target, SurfaceOf(a))
    requires BridgeIs(s, SurfaceOf(a), base)
    requires (s.bridge.pc == Sending(t) || s.bridge.pc == Woken(t)) && s.bridge.slot.None?
    ensures Refines(Send(s, t), Issued(a), base)
  {
    hide Mirrors, Flows, CanIssue, Issued, Act, Enabled, Fits, SurfaceOf, Positive;
    IssuedSurface(a);
    MirrorSendBeginReq(s.w, a);
    var s' := Send(s, t);
    assert TagsAre(s'.tags, base, s.bridge.curr, s.bridge.count);
    assert !s'.fault && Mirrors(s'.w, Issued(a)) && Flows(Issued(a));
    assert TargetIs(s'.target, SurfaceOf(Issued(a)));
    assert BridgeIs(s', SurfaceOf(Issued(a)), base);
  }

  lemma TakeRefines(s: System, a: Pipeline, base: nat)
    requires Refines(s, a, base) && s.bridge.pc == Idle && s.taken < |s.work|
    ensures Refines(RunThread(s), a, SurfaceOf(a).sent)
  {
    hide Mirrors, Flows, SurfaceOf;
    assert s.work[s.taken] in s.work;
    assert BridgeIs(RunThread(s), SurfaceOf(a), SurfaceOf(a).sent);
  }

  lemma FinishRefines(s: System, a: Pipeline, base: nat)
    requires Refines(s, a, base) && s.bridge.pc == Completed
    ensures Refines(RunThread(s), a, base)
  {
    hide Mirrors, Flows, SurfaceOf, TagsAre;
    TotalOneMore(s.work, s.finished);
    assert BridgeIs(RunThread(s), SurfaceOf(a), base);
  }

  lemma SendRank(s: System, t: nat)
    requires t < s.bridge.count && (s.bridge.pc == Sending(t) || s.bridge.pc == Woken(t))
    ensures ThreadRank(Send(s, t).bridge) + 11 <= ThreadRank(s.bridge)
    ensures Send(s, t).work == s.work && Send(s, t).taken == s.taken
  {
    hide Fits, Enabled, Act;
  }

  lemma ThreadRefines(s: System, a: Pipeline, base: nat) returns (a': Pipeline, base': nat)
    requires Refines(s, a, base) && CanStep(s, Thread)
    ensures Refines(Next(s, Thread), a', base')
    ensures Advances(a, a') && Rank(Next(s, Thread), a') < Rank(s, a)
  {
    hide Mirrors, Flows, Issued, CanIssue, Send, SurfaceOf, Advances, PipeRank;
    a', base' := a, base;
    OthersAdvance(a);
    match s.bridge.pc
    case Idle =>
      base' := SurfaceOf(a).sent;
      TakeRefines(s, a, base);
    case Sending(t) =>
      if s.bridge.slot.None? {
        IssuedSurface(a);
        SendRefines(s, a, base, t);
        SendRank(s, t);
        a' := Issued(a);
      }
    case Woken(t) =>
      IssuedSurface(a);
      SendRefines(s, a, base, t);
      SendRank(s, t);
      a' := Issued(a);
    case Completed => FinishRefines(s, a, base);
  }

  lemma BusFwRefines(s: System, a: Pipeline, base: nat, e: Event) returns (a': Pipeline)
    requires Refines(s, a, base) && CanStep(s, BusFw(e))
    ensures Refines(Next(s, BusFw(e)), a', base)
    ensures Advances(a, a') && PipeRank(a') < PipeRank(a)
  {
    hide Mirrors, Advances, PipeRank, Act, Moved, SurfaceOf, Flows, Fits, Sent, StageOf, HandleCallFw;
    assert e in s.w.bus.fw;
    BusEvents(s.w, a, e);
    if e.phase == BeginReq {
      a' := Moved(a, e.p, Offered);
      MirrorBeginReq(s.w, a, e.p);
      OfferedSurface(a, e.p);
      MovedAdvances(a, e.p, Offered);
    } else {
      a' := Moved(a, a.c, Accepted(AcceptSeen, EndAtTarget));
      MirrorEndResp(s.w, a);
      EndAtTargetSurface(a);
      FirstAdvances(a, Accepted(AcceptSeen, EndAtTarget));
    }
  }

  lemma BusBwRefines(s: System, a: Pipeline, base: nat, e: Event) returns (a': Pipeline)
    requires Refines(s, a, base) && CanStep(s, BusBw(e))
    ensures Refines(Next(s, BusBw(e)), a', base)
    ensures Advances(a, a') && PipeRank(a') < PipeRank(a)
  {
    hide Mirrors, Advances, PipeRank, Act, Moved, SurfaceOf, Flows, Fits, Sent, StageOf, HandleCallBw;
    assert e in s.w.bus.bw && (e.phase == BeginResp ==> Event(e.p, EndReq) !in s.w.bus.bw);
    BusEvents(s.w, a, e);
    if e.phase == EndReq {
      a' := Moved(a, a.c, a.first.(accept := AcceptAtBridge));
      MirrorEndReq(s.w, a);
      AcceptAtBridgeSurface(a);
      FlowsInBus(a);
      FirstAdvances(a, a.first.(accept := AcceptAtBridge));
    } else {
      a' := Moved(a, a.c, a.first.(work := ResponseAtBridge));
      MirrorBeginResp(s.w, a);
      ResponseAtBridgeSurface(a);
      FirstAdvances(a, a.first.(work := ResponseAtBridge));
    }
  }

  /** The events at the ends tell the stage of their transaction. */
  lemma EndEvents(a: Pipeline, e: Event)
    requires Flows(a)
    ensures e in SurfaceOf(a).bridgeQueue ==>
      a.first.Accepted? && e.p == a.c && (e.phase == EndReq || e.phase == BeginResp)
    ensures e in SurfaceOf(a).bridgeQueue && e.phase == EndReq ==> a.first.accept == AcceptAtBridge
    ensures e in SurfaceOf(a).bridgeQueue && e.phase == BeginResp ==> a.first.work == ResponseAtBridge
    ensures e in SurfaceOf(a).targetQueue ==>
      || (e == Event(a.c, BeginReq) && a.first == Offered)
      || (e == Event(a.c + 1, BeginReq) && a.second == Offered)
      || (e == Event(a.c, EndResp) && a.first == Accepted(AcceptSeen, EndAtTarget))
    ensures a.first.Accepted? && a.first.accept == AcceptAtBridge ==> Event(a.c, EndReq) in SurfaceOf(a).bridgeQueue
  {
  }

  lemma SeenRefines(s: System, a: Pipeline, base: nat, e: Event)
    requires Refines(s, a, base) && CanStep(s, AtBridge(e))
    requires a.first.Accepted? && a.first.accept == AcceptAtBridge && e == Event(a.c, EndReq)
    ensures Refines(Next(s, AtBridge(e)), a.(first := a.first.(accept := AcceptSeen)), base)
  {
    hide Mirrors, Flows, SurfaceOf, Positive, TagsAre;
    MirrorSeen(s.w, a);
    SeenSurface(a);
  }

  lemma AnsweredRefines(s: System, a: Pipeline, base: nat, e: Event)
    requires Refines(s, a, base) && CanStep(s, AtBridge(e))
    requires a.first == Accepted(AcceptSeen, ResponseAtBridge) && e == Event(a.c, BeginResp)
    ensures Refines(Next(s, AtBridge(e)), Moved(a, a.c, Accepted(AcceptSeen, EndInBus)), base)
  {
    hide Mirrors, Flows, SurfaceOf, Positive, Moved, Act, Enabled, Fits;
    MirrorSendEndResp(s.w, a);
    AnsweredSurface(a);
  }

  lemma AtBridgeRefines(s: System, a: Pipeline, base: nat, e: Event) returns (a': Pipeline)
    requires Refines(s, a, base) && CanStep(s, AtBridge(e))
    ensures Refines(Next(s, AtBridge(e)), a', base)
    ensures Advances(a, a') && PipeRank(a') < PipeRank(a)
  {
    hide Mirrors, Flows, SurfaceOf, Next, BridgeIs, Moved, Advances, PipeRank;
    assert e in SurfaceOf(a).bridgeQueue && (e.phase == BeginResp ==>
      Event(e.p, EndReq) !in SurfaceOf(a).bridgeQueue) by {
      BridgeQueueIs(s, a, base);
    }
    EndEvents(a, e);
    if e.phase == EndReq {
      a' := a.(first := a.first.(accept := AcceptSeen));
      SeenRefines(s, a, base, e);
      FirstAdvances(a, a.first.(accept := AcceptSeen));
    } else {
      a' := Moved(a, a.c, Accepted(AcceptSeen, EndInBus));
      FlowsAnswer(a);
      AnsweredRefines(s, a, base, e);
      FirstAdvances(a, Accepted(AcceptSeen, EndInBus));
    }
  }

  lemma BridgeQueueIs(s: System, a: Pipeline, base: nat)
    requires Refines(s, a, base)
    ensures s.bridge.peq == SurfaceOf(a).bridgeQueue && s.target.peq == SurfaceOf(a).targetQueue
  {
    hide Mirrors, Flows, SurfaceOf;
  }

  lemma FlowsInBus(a: Pipeline)
    requires Flows(a) && a.first.Accepted? && a.first.accept == AcceptInBus
    ensures a.first.work == Working || a.first.work == ResponseInBus
  {
  }

  lemma FlowsAnswer(a: Pipeline)
    requires Flows(a) && a.first.Accepted? && a.first.work == ResponseAtBridge && a.first.accept != AcceptAtBridge
    ensures a.first == Accepted(AcceptSeen, ResponseAtBridge)
  {
  }

  lemma AcceptRefines(s: System, a: Pipeline, base: nat, e: Event)
    requires Refines(s, a, base) && CanStep(s, AtTarget(e)) && a.first == Offered && e == Event(a.c, BeginReq)
    ensures Refines(Next(s, AtTarget(e)), a.(first := Accepted(AcceptInBus, Working)), base)
  {
    hide Mirrors, Flows, SurfaceOf, Positive, TagsAre, Act, Enabled, Fits;
    MirrorSendEndReq(s.w, a);
    AcceptedSurface(a);
  }

  lemma BlockRefines(s: System, a: Pipeline, base: nat, e: Event)
    requires Refines(s, a, base) && CanStep(s, AtTarget(e)) && a.second == Offered && e == Event(a.c + 1, BeginReq)
    ensures Refines(Next(s, AtTarget(e)), a.(second := Blocked), base)
  {
    hide Mirrors, Flows, SurfaceOf, Positive, TagsAre, Act, Enabled, Fits;
    MirrorBlock(s.w, a);
    BlockedSurface(a);
  }

  lemma RetireRefines(s: System, a: Pipeline, base: nat, e: Event)
    requires Refines(s, a, base) && CanStep(s, AtTarget(e))
    requires a.first == Accepted(AcceptSeen, EndAtTarget) && a.second != Blocked && e == Event(a.c, EndResp)
    ensures Refines(Next(s, AtTarget(e)), Retired(a), base)
  {
    hide Mirrors, Flows, SurfaceOf, Positive, TagsAre, Act, Enabled, Fits, Retired;
    MirrorRetire(s.w, a);
    RetiredSurface(a);
  }

  lemma RetireAcceptRefines(s: System, a: Pipeline, base: nat, e: Event)
    requires Refines(s, a, base) && CanStep(s, AtTarget(e))
    requires a.first == Accepted(AcceptSeen, EndAtTarget) && a.second == Blocked && e == Event(a.c, EndResp)
    ensures Refines(Next(s, AtTarget(e)), Retired(a).(first := Accepted(AcceptInBus, Working)), base)
  {
    hide Mirrors, Flows, SurfaceOf, Positive, TagsAre, Act, Enabled, Fits;
    MirrorRetire(s.w, a);
    RetiredSurface(a);
    MirrorSendEndReq(s.w, Retired(a));
    AcceptedSurface(Retired(a));
  }

  lemma AtTargetRefines(s: System, a: Pipeline, base: nat, e: Event) returns (a': Pipeline)
    requires Refines(s, a, base) && CanStep(s, AtTarget(e))
    ensures Refines(Next(s, AtTarget(e)), a', base)
    ensures Advances(a, a') && PipeRank(a') < PipeRank(a)
  {
    hide Mirrors, Flows, SurfaceOf, Next, BridgeIs, Retired, Advances, PipeRank;
    assert e in SurfaceOf(a).targetQueue by { BridgeQueueIs(s, a, base); }
    EndEvents(a, e);
    OthersAdvance(a);
    if e == Event(a.c, BeginReq) {
      a' := a.(first := Accepted(AcceptInBus, Working));
      AcceptRefines(s, a, base, e);
      FirstAdvances(a, Accepted(AcceptInBus, Working));
    } else if e.phase == BeginReq {
      a' := a.(second := Blocked);
      BlockRefines(s, a, base, e);
    } else if a.second == Blocked {
      a' := Retired(a).(first := Accepted(AcceptInBus, Working));
      RetireAcceptRefines(s, a, base, e);
    } else {
      a' := Retired(a);
      RetireRefines(s, a, base, e);
    }
  }

  lemma TimerRefines(s: System, a: Pipeline, base: nat) returns (a': Pipeline)
    requires Refines(s, a, base) && CanStep(s, Timer)
    ensures Refines(Next(s, Timer), a', base)
    ensures Advances(a, a') && PipeRank(a') < PipeRank(a)
  {
    hide Mirrors, Advances, PipeRank, Act, Moved, Fits, SurfaceOf, Flows, Enabled, Positive, TagsAre;
    RespondedSurface(a);
    FirstAdvances(a, a.first.(work := ResponseInBus));
    a' := Moved(a, a.c, a.first.(work := ResponseInBus));
    MirrorSendBeginResp(s.w, a);
  }

  lemma ForwardedKeepsThread(s: System, c: Call)
    ensures Forwarded(s, c).bridge.pc == s.bridge.pc && Forwarded(s, c).bridge.count == s.bridge.count
    ensures Forwarded(s, c).work == s.work && Forwarded(s, c).taken == s.taken
  {
  }

  predicate SameBridge(s: System, s': System) {
    s'.bridge == s.bridge && s'.work == s.work && s'.taken == s.taken
  }

  lemma TargetStepsKeepBridge(s: System, p: nat)
    ensures SameBridge(s, TargetAccepts(s, p)) && SameBridge(s, TargetResponds(s, p))
    ensures SameBridge(s, TargetReleased(s))
  {
    hide Fits, Enabled, Act;
  }

  lemma TargetKeepsBridge(s: System, e: Event)
    ensures SameBridge(s, TargetCallback(s, e)) && SameBridge(s, TargetDone(s))
  {
    hide TargetAccepts, TargetResponds, TargetReleased;
    TargetStepsKeepBridge(s, e.p);
    if s.target.slot.Some? { TargetStepsKeepBridge(s, s.target.slot.value); }
    var s0 := TargetReleased(s);
    if s0.target.nextResp.Some? { TargetStepsKeepBridge(s0, s0.target.nextResp.value); }
    var s1 := TargetNextResponse(s0);
    if s1.target.blocked.Some? { TargetStepsKeepBridge(s1, s1.target.blocked.value); }
  }

  lemma ThreadRankKept(s: System, x: Step)
    requires CanStep(s, x) && !x.Submit? && x != Thread
    ensures ThreadRank(Next(s, x).bridge) <= ThreadRank(s.bridge)
    ensures Next(s, x).work == s.work && Next(s, x).taken == s.taken
  {
    hide Fits, Act, HandleCallFw, HandleCallBw, Forwarded, BridgeCallback, TargetCallback, TargetDone;
    match x
    case BusFw(e) => ForwardedKeepsThread(s.(w := Act(s.w, DeliverFw(e))), HandleCallFw(s.w, e));
    case BusBw(e) => ForwardedKeepsThread(s.(w := Act(s.w, DeliverBw(e))), HandleCallBw(s.w, e));
    case AtBridge(e) => BridgeRankKept(s.(bridge := s.bridge.(peq := s.bridge.peq - multiset{e})), e);
    case AtTarget(e) => TargetKeepsBridge(s.(target := s.target.(peq := s.target.peq - multiset{e})), e);
    case Timer => TargetKeepsBridge(s.(target := s.target.(timer := false)), Event(0, BeginReq));
  }

  lemma BridgeRankKept(s: System, e: Event)
    ensures ThreadRank(BridgeCallback(s, e).bridge) <= ThreadRank(s.bridge)
    ensures BridgeCallback(s, e).work == s.work && BridgeCallback(s, e).taken == s.taken
  {
    hide Fits, Enabled, Act;
  }

  lemma StepRefines(s: System, a: Pipeline, base: nat, x: Step) returns (a': Pipeline, base': nat)
    requires Refines(s, a, base) && CanStep(s, x)
    ensures Refines(Next(s, x), a', base') && Advances(a, a')
    ensures !x.Submit? ==> Rank(Next(s, x), a') < Rank(s, a)
  {
    hide Refines, Next, CanStep, Advances, PipeRank, ThreadRank, Backlog;
    if !x.Submit? && x != Thread { ThreadRankKept(s, x); }
    a', base' := a, base;
    match x
    case Submit(n) =>
      SubmitCan(s, n);
      SubmitRefines(s, a, base, n);
      RefinesFlows(s, a, base);
      OthersAdvance(a);
    case Thread => a', base' := ThreadRefines(s, a, base);
    case BusFw(e) => a' := BusFwRefines(s, a, base, e);
    case BusBw(e) => a' := BusBwRefines(s, a, base, e);
    case AtBridge(e) => a' := AtBridgeRefines(s, a, base, e);
    case AtTarget(e) => a' := AtTargetRefines(s, a, base, e);
    case Timer => a' := TimerRefines(s, a, base);
  }

  lemma SubmitCan(s: System, n: nat)
    ensures CanStep(s, Submit(n)) <==> n > 0
  {
  }

  lemma RefinesFlows(s: System, a: Pipeline, base: nat)
    requires Refines(s, a, base)
    ensures Flows(a) && Mirrors(s.w, a) && BridgeIs(s, SurfaceOf(a), base) && TargetIs(s.target, SurfaceOf(a))
    ensures !s.fault
  {
  }

  // ---------------------------------------------------------------- every run of the system

  predicate IsRunOf(s: System, steps: seq<Step>)
    decreases |steps|
  {
    steps == [] || (CanStep(s, steps[0]) && IsRunOf(Next(s, steps[0]), steps[1..]))
  }

  function After(s: System, steps: seq<Step>): System
    requires IsRunOf(s, steps)
    decreases |steps|
  {
    if steps == [] then s else After(Next(s, steps[0]), steps[1..])
  }

  lemma {:induction false} RunRefines(s: System, a: Pipeline, base: nat, steps: seq<Step>)
    returns (a': Pipeline, base': nat)
    requires Refines(s, a, base) && IsRunOf(s, steps)
    ensures Refines(After(s, steps), a', base')
    decreases |steps|
  {
    hide Refines, Next, CanStep;
    a', base' := a, base;
    if steps != [] {
      a', base' := StepRefines(s, a, base, steps[0]);
      a', base' := RunRefines(Next(s, steps[0]), a', base', steps[1..]);
    }
  }

  /** The transactions the bus has forwarded and whose END_RESP it has not. */
  function InTarget(s: System): set<nat> {
    set p | p in s.w.down && s.w.down[p] != EndResp
  }

  /** Main result: no run faults, no checker complains, and the target never has more than two transactions. */
  lemma NoRunFaults(steps: seq<Step>)
    requires IsRunOf(Start(), steps)
    ensures var s := After(Start(), steps);
      !s.fault && !s.w.violated && Exclusive(s.w) && s.target.nextResp.None? &&
        |s.tags| == |s.w.up| && |InTarget(s)| <= 2
  {
    hide Refines, Next, CanStep, Start;
    StartRefines();
    var a, base := RunRefines(Start(), Pipeline(0, Unsent, Unsent), 0, steps);
    var s := After(Start(), steps);
    RefinesAreSound(s, a, base);
  }

  lemma RefinesAreSound(s: System, a: Pipeline, base: nat)
    requires Refines(s, a, base)
    ensures !s.fault && !s.w.violated && Exclusive(s.w) && s.target.nextResp.None? && |s.tags| == |s.w.up|
    ensures |InTarget(s)| <= 2
  {
    hide Flows, Exclusive, SurfaceOf, LocalOf, LocalOk, Homed, AllLocal, Trail, StageOf;
    ExclusiveByInv(s.w);
    assert SurfaceOf(a).sent == Sent(a) by { SurfaceSent(a); }
    KeysBelow(s.w.up.Keys, Sent(a));
    forall p | p in InTarget(s) ensures p in {a.c, a.c + 1} {
      Lookup(s.w, a, p);
      Views(s.w, p);
      DoneTrail(a, p);
    }
    SubsetSize(InTarget(s), {a.c, a.c + 1});
  }

  lemma {:induction false} SubsetSize(x: set<nat>, y: set<nat>)
    requires x <= y
    ensures |x| <= |y|
  {
    if x != {} {
      var e :| e in x;
      SubsetSize(x - {e}, y - {e});
    }
  }

  lemma SurfaceSent(a: Pipeline)
    ensures SurfaceOf(a).sent == Sent(a) && SurfaceOf(a).answered == Answered(a)
  {
  }

  lemma DoneTrail(a: Pipeline, p: nat)
    ensures p < a.c ==> Trail(StageOf(a, p)).down == Some(EndResp)
    ensures p > a.c + 1 ==> p >= Sent(a)
  {
  }

  lemma {:induction false} KeysBelow(keys: set<nat>, n: nat)
    requires forall p: nat :: p in keys <==> p < n
    ensures |keys| == n
  {
    if n > 0 {
      KeysBelow(keys - {n - 1}, n - 1);
    }
  }

  /** BEGIN_REQ, END_REQ, BEGIN_RESP, END_RESP, one after the other and none left out. */
  predicate NextPhase(x: Option<Phase>, y: Option<Phase>) {
    || x == y || (x.None? && y == Some(BeginReq)) || (x == Some(BeginReq) && y == Some(EndReq))
    || (x == Some(EndReq) && y == Some(BeginResp)) || (x == Some(BeginResp) && y == Some(EndResp))
  }

  lemma StageStepsKeepPhaseOrder(x: Stage, y: Stage)
    requires StageStep(x, y)
    ensures NextPhase(Trail(x).up, Trail(y).up) && NextPhase(Trail(x).down, Trail(y).down)
  {
  }

  lemma PhaseIsOnTrail(s: System, a: Pipeline, base: nat, p: nat)
    requires Refines(s, a, base)
    ensures PhaseOf(s.w.up, p) == Trail(StageOf(a, p)).up && PhaseOf(s.w.down, p) == Trail(StageOf(a, p)).down
  {
    hide LocalOf, LocalOk, Homed, AllLocal, BridgeIs, TargetIs, SurfaceOf;
    if p in s.w.up {
      Lookup(s.w, a, p);
      Views(s.w, p);
    }
  }

  /** In every run, every transaction takes all four phases in order at both hops. */
  lemma PhasesInOrder(steps: seq<Step>, x: Step, p: nat)
    requires IsRunOf(Start(), steps) && CanStep(After(Start(), steps), x)
    ensures var s := After(Start(), steps); var s' := Next(s, x);
      NextPhase(PhaseOf(s.w.up, p), PhaseOf(s'.w.up, p)) && NextPhase(PhaseOf(s.w.down, p), PhaseOf(s'.w.down, p))
  {
    hide Refines, Next, CanStep, Start, Advances, StageStep, NextPhase, Trail, StageOf;
    StartRefines();
    var a, base := RunRefines(Start(), Pipeline(0, Unsent, Unsent), 0, steps);
    var s := After(Start(), steps);
    var a', base' := StepRefines(s, a, base, x);
    AdvancesAll(a, a', p);
    StageStepsKeepPhaseOrder(StageOf(a, p), StageOf(a', p));
    PhaseIsOnTrail(s, a, base, p);
    PhaseIsOnTrail(Next(s, x), a', base', p);
  }

  /**
   When the bridge handles a BEGIN_RESP, the response is about the request it works on; when it is
   the last one, every transaction up to it has been answered and the thread is there to be woken.
   */
  lemma LastResponseCompletes(steps: seq<Step>, p: nat)
    requires IsRunOf(Start(), steps) && CanStep(After(Start(), steps), AtBridge(Event(p, BeginResp)))
    ensures var s := After(Start(), steps); var s' := Next(s, AtBridge(Event(p, BeginResp)));
      p < |s.tags| && s.tags[p].req == s.bridge.curr
      && (forall i :: 0 <= i <= p ==> PhaseOf(s'.w.up, i) == Some(EndResp))
      && (s.tags[p].last <==> s.bridge.pc == AllSent && p + 1 == |s.tags|)
      && (s'.bridge.pc == Completed <==> s.tags[p].last)
  {
    hide Refines, Next, CanStep, Start;
    StartRefines();
    var a, base := RunRefines(Start(), Pipeline(0, Unsent, Unsent), 0, steps);
    RefinedResponse(After(Start(), steps), a, base, p);
  }

  lemma RefinedResponse(s: System, a: Pipeline, base: nat, p: nat)
    requires Refines(s, a, base) && CanStep(s, AtBridge(Event(p, BeginResp)))
    ensures var s' := Next(s, AtBridge(Event(p, BeginResp)));
      p < |s.tags| && s.tags[p].req == s.bridge.curr
      && (forall i :: 0 <= i <= p ==> PhaseOf(s'.w.up, i) == Some(EndResp))
      && (s.tags[p].last <==> s.bridge.pc == AllSent && p + 1 == |s.tags|)
      && (s'.bridge.pc == Completed <==> s.tags[p].last)
  {
    hide Mirrors, Flows, SurfaceOf, Positive, Moved, Act, Enabled, Fits, Trail, StageOf;
    var e := Event(p, BeginResp);
    var s' := Next(s, AtBridge(e));
    EndEvents(a, e);
    EndEvents(a, Event(p, EndReq));
    FlowsAnswer(a);
    AnsweredRefines(s, a, base, e);
    AnsweredSurface(a);
    var a' := Moved(a, a.c, Accepted(AcceptSeen, EndInBus));
    forall i | 0 <= i <= p ensures PhaseOf(s'.w.up, i) == Some(EndResp) {
      PhaseIsOnTrail(s', a', base, i);
      AnsweredTrail(a, i);
    }
  }

  lemma AnsweredTrail(a: Pipeline, i: nat)
    requires i <= a.c
    ensures Trail(StageOf(Moved(a, a.c, Accepted(AcceptSeen, EndInBus)), i)).up == Some(EndResp)
  {
  }

  // ---------------------------------------------------------------- nothing gets stuck

  predicate Internal(steps: seq<Step>) {
    forall i :: 0 <= i < |steps| ==> !steps[i].Submit?
  }

  lemma {:induction false} InternalRunsEnd(s: System, a: Pipeline, base: nat, steps: seq<Step>)
    requires Refines(s, a, base) && IsRunOf(s, steps) && Internal(steps)
    ensures |steps| <= Rank(s, a)
    decreases |steps|
  {
    hide Refines, Next, CanStep, Rank;
    if steps != [] {
      assert !steps[0].Submit?;
      var a', base' := StepRefines(s, a, base, steps[0]);
      InternalRunsEnd(Next(s, steps[0]), a', base', steps[1..]);
    }
  }

  /** Every request is answered, every transaction is done at both hops. */
  ghost predicate AllAnswered(s: System) {
    && s.finished == s.taken == |s.work| && |s.tags| == Total(s.work)
    && (forall p :: p in s.w.up ==> s.w.up[p] == EndResp && PhaseOf(s.w.down, p) == Some(EndResp))
  }

  /** Nothing can happen before the next request arrives. */
  ghost predicate Quiet(s: System) {
    forall x: Step :: CanStep(s, x) ==> x.Submit?
  }

  /** A pipeline with a transaction in it has a step to take. */
  lemma PipelineMoves(s: System, a: Pipeline, base: nat)
    requires Refines(s, a, base) && a.first != Unsent
    ensures exists x: Step :: CanStep(s, x) && !x.Submit?
  {
    hide Mirrors, LocalOf, LocalOk, Homed, AllLocal, Fits, Flows;
    match a.first {
      case Requested => RequestedMoves(s, a, base);
      case Offered => assert CanStep(s, AtTarget(Event(a.c, BeginReq)));
      case Accepted(acc, r) => AcceptedMoves(s, a, base);
      case Blocked => assert false by { FlowsFirst(a); }
      case Done => assert false by { FlowsFirst(a); }
    }
  }

  lemma FlowsFirst(a: Pipeline)
    requires Flows(a)
    ensures a.first != Blocked && a.first != Done
  {
  }

  lemma RequestedMoves(s: System, a: Pipeline, base: nat)
    requires Refines(s, a, base) && a.first == Requested
    ensures exists x: Step :: CanStep(s, x) && !x.Submit?
  {
    hide Mirrors, BridgeIs, TargetIs, SurfaceOf, Moved, Act, Fits, Enabled;
    FirstStage(a);
    MirrorBeginReq(s.w, a, a.c);
    assert CanStep(s, BusFw(Event(a.c, BeginReq)));
  }

  lemma AcceptedMoves(s: System, a: Pipeline, base: nat)
    requires Refines(s, a, base) && a.first.Accepted?
    ensures exists x: Step :: CanStep(s, x) && !x.Submit?
  {
    hide Mirrors, BridgeIs, Moved, Act, Fits, Enabled;
    RefinesFlows(s, a, base);
    match a.first.work
    case Working => assert CanStep(s, Timer);
    case ResponseInBus =>
      if a.first.accept == AcceptInBus {
        MirrorEndReq(s.w, a);
        assert CanStep(s, BusBw(Event(a.c, EndReq)));
      } else {
        MirrorBeginResp(s.w, a);
        assert CanStep(s, BusBw(Event(a.c, BeginResp)));
      }
    case ResponseAtBridge =>
      BridgeQueueIs(s, a, base);
      if a.first.accept == AcceptAtBridge {
        assert CanStep(s, AtBridge(Event(a.c, EndReq)));
      } else {
        assert CanStep(s, AtBridge(Event(a.c, BeginResp)));
      }
    case EndInBus =>
      MirrorEndResp(s.w, a);
      assert CanStep(s, BusFw(Event(a.c, EndResp)));
    case EndAtTarget => assert CanStep(s, AtTarget(Event(a.c, EndResp)));
  }

  lemma QuietIsAnswered(s: System, a: Pipeline, base: nat)
    requires Refines(s, a, base) && Quiet(s)
    ensures AllAnswered(s)
  {
    hide LocalOf, LocalOk, Homed, AllLocal;
    if a.first != Unsent { PipelineMoves(s, a, base); }
    assert !CanStep(s, Thread);
    forall p | p in s.w.up ensures s.w.up[p] == EndResp && PhaseOf(s.w.down, p) == Some(EndResp) {
      PhaseIsOnTrail(s, a, base, p);
    }
    assert s.work[..s.finished] == s.work;
  }

  ghost predicate EndsWithin(s: System, bound: nat) {
    forall more :: IsRunOf(s, more) && Internal(more) ==> |more| <= bound
  }

  /**
   No lost wake-up and no deadlock: from every reachable state the system comes to rest after finitely
   many steps unless new requests arrive, and it can only rest when every request is answered.
   */
  lemma EveryRequestIsAnswered(steps: seq<Step>)
    requires IsRunOf(Start(), steps)
    ensures var s := After(Start(), steps);
      && (Quiet(s) ==> AllAnswered(s))
      && exists bound: nat :: EndsWithin(s, bound)
  {
    hide Refines, Next, CanStep, Start, Quiet, AllAnswered, Rank;
    StartRefines();
    var a, base := RunRefines(Start(), Pipeline(0, Unsent, Unsent), 0, steps);
    var s := After(Start(), steps);
    if Quiet(s) { QuietIsAnswered(s, a, base); }
    forall more | IsRunOf(s, more) && Internal(more) ensures |more| <= Rank(s, a) {
      InternalRunsEnd(s, a, base, more);
    }
    assert EndsWithin(s, Rank(s, a));
  }
}
