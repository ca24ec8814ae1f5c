/**
 When exactly an alarm is raised on the bus: by its own assertions and fatal reports, or by the protocol
 checkers on either hop; and a fault by the bridge and the target behind it. What `NoRunViolates` and
 `NoRunFaults` exclude is all of this.
 */
module TlmAlarms {
  import opened Wrappers
  import opened TlmBus
  import opened TlmSystem

  /**
   A forward event raises an alarm exactly if its phase is not one of the forward path; or it is a request
   forwarded to a target that knows it already or still has one open; or it is the end of a response that
   the initiator's socket, or the target, is not in.
   */
  lemma ForwardAlarmIff(w: World, e: Event)
    requires Fits(w) && e in w.bus.fw
    ensures var (u, d) := (w.bus.routes[e.p].usock, w.bus.routes[e.p].dsock);
      HandleFw(w, e).violated <==>
      || w.violated || e.phase == EndReq || e.phase == BeginResp
      || (e.phase == BeginReq && w.bus.reqInProgress[d].None? && (e.p in w.down || w.downReq[d].Some?))
      || (e.phase == EndResp && (w.bus.respInProgress[u].None? || !(e.p in w.down && w.down[e.p] == BeginResp)))
  {
  }

  /**
   A backward event raises one exactly if its phase is not one of the backward path; or it accepts a
   request that the target's socket, or the initiator, does not have open; or it is a response delivered
   to an initiator that has one open already, or whose request is not waiting for it.
   */
  lemma BackwardAlarmIff(w: World, e: Event)
    requires Fits(w) && e in w.bus.bw
    ensures var (u, d) := (w.bus.routes[e.p].usock, w.bus.routes[e.p].dsock);
      HandleBw(w, e).violated <==>
      || w.violated || e.phase == BeginReq || e.phase == EndResp
      || (e.phase == EndReq && (w.bus.reqInProgress[d].None? || !(e.p in w.up && w.up[e.p] == BeginReq)))
      || (e.phase == BeginResp && w.bus.respInProgress[u].None? &&
           (w.upResp[u].Some? || !(e.p in w.up && (w.up[e.p] == BeginReq || w.up[e.p] == EndReq))))
  {
  }

  /** A call into the bus raises one exactly if it comes on another socket, or ends a response that was not begun. */
  lemma CallAlarmIff(w: World, a: Action)
    requires Fits(w) && Enabled(w, a) && !a.DeliverFw? && !a.DeliverBw?
    ensures Act(w, a).violated <==>
      || w.violated
      || (a.SendEndResp? && !(w.bus.routes[a.p].usock == a.u && w.bus.respInProgress[a.u].Some?))
  {
  }

  // ---------------------------------------------------------------- the checkers know what is open

  /** A request that the target has not accepted yet is what the checker has down for its socket. */
  ghost predicate Watched(w: World)
    requires Fits(w)
  {
    forall p :: p in w.down && w.down[p] == BeginReq ==> w.downReq[w.bus.routes[p].dsock] == Some(p)
  }

  lemma SendsStayWatched(w: World, a: Action)
    requires Inv(w) && Watched(w) && Enabled(w, a) && !a.DeliverFw? && !a.DeliverBw? && Fits(Act(w, a))
    ensures Watched(Act(w, a))
  {
    hide LocalOk, LocalOf, AllLocal, Known, QueuesHome, EventsHome;
  }

  lemma ForwardStaysWatched(w: World, e: Event)
    requires Inv(w) && Watched(w) && e in w.bus.fw && Fits(HandleFw(w, e))
    ensures Watched(HandleFw(w, e))
  {
    hide LocalOk, LocalOf, QueuesHome, UpSlotsHome, DownSlotsHome, AllLocal, HandleFw, Watched;
    SlotsAgree(w, w.bus.routes[e.p].usock, w.bus.routes[e.p].dsock);
    ForwardFindsRoom(w, e);
  }

  lemma ForwardFindsRoom(w: World, e: Event)
    requires Fits(w) && Watched(w) && e in w.bus.fw && Fits(HandleFw(w, e))
    requires var d := w.bus.routes[e.p].dsock; w.bus.reqInProgress[d].None? ==> w.downReq[d].None?
    ensures Watched(HandleFw(w, e))
  {
    hide Known;
  }

  lemma BackwardStaysWatched(w: World, e: Event)
    requires Inv(w) && Watched(w) && e in w.bus.bw && Fits(HandleBw(w, e))
    ensures Watched(HandleBw(w, e))
  {
    hide LocalOk, LocalOf, AllLocal, QueuesHome, UpSlotsHome;
  }

  lemma StepStaysWatched(w: World, a: Action)
    requires Inv(w) && Watched(w) && Enabled(w, a) && Fits(Act(w, a))
    ensures Watched(Act(w, a))
  {
    hide Inv, Watched, HandleFw, HandleBw;
    match a
    case DeliverFw(e) => ForwardStaysWatched(w, e);
    case DeliverBw(e) => BackwardStaysWatched(w, e);
    case _ => SendsStayWatched(w, a);
  }

  lemma {:induction false} RunStaysWatched(w: World, actions: seq<Action>)
    requires Inv(w) && Watched(w) && IsRun(w, actions)
    ensures Inv(Run(w, actions)) && Watched(Run(w, actions))
    decreases |actions|
  {
    if actions != [] {
      StepInv(w, actions[0]);
      hide Homed, AllLocal, Act, Enabled, Watched;
      StepStaysWatched(w, actions[0]);
      RunStaysWatched(Act(w, actions[0]), actions[1..]);
    }
  }

  lemma OpenResponse(l: Local)
    requires LocalOk(l) && l.up == Some(BeginResp)
    ensures l.upResp
  {
  }

  /** What the checkers have down for a socket is the transaction at that point in the protocol there, and only that. */
  predicate BooksAreExact(w: World, p: nat)
    requires Fits(w) && p in w.up
  {
    var (u, d) := (w.bus.routes[p].usock, w.bus.routes[p].dsock);
    && (w.downReq[d] == Some(p) <==> p in w.down && w.down[p] == BeginReq)
    && (w.upResp[u] == Some(p) <==> w.up[p] == BeginResp)
    && (w.up[p] == BeginReq ==> w.upReq[u] == Some(p))
    && (p in w.down && w.down[p] == BeginResp ==> w.downResp[d] == Some(p))
  }

  lemma WatchedIsExact(w: World, p: nat)
    requires Inv(w) && Watched(w) && p in w.up
    ensures BooksAreExact(w, p)
  {
    hide LocalOk, LocalOf, QueuesHome, EventsHome;
    Views(w, p);
    Sockets(w, p);
    StageFacts(LocalOf(w, p));
    if w.up[p] == BeginResp {
      OpenResponse(LocalOf(w, p));
    }
  }

  /** Main result: over every run the checkers' books are exact on either hop. */
  lemma CheckersKnow(initiators: nat, targets: nat, actions: seq<Action>, p: nat)
    requires IsRun(Initial(initiators, targets), actions)
    requires p in Run(Initial(initiators, targets), actions).up
    ensures Fits(Run(Initial(initiators, targets), actions))
    ensures BooksAreExact(Run(Initial(initiators, targets), actions), p)
  {
    InitialInv(initiators, targets);
    hide LocalOk, LocalOf, Act, Enabled, BooksAreExact;
    RunStaysWatched(Initial(initiators, targets), actions);
    WatchedIsExact(Run(Initial(initiators, targets), actions), p);
  }

  // ---------------------------------------------------------------- bridge and target

  /** A call that the protocol does not allow its caller at this point. */
  predicate Forbidden(w: World, a: Action) {
    !(Fits(w) && Enabled(w, a))
  }

  /**
   The bridge finds fault exactly with a phase of the forward path, with an acceptance when it has no
   request open, and with a response that is not to a transaction of its current request.
   */
  lemma BridgeFaultIff(s: System, e: Event)
    ensures BridgeCallback(s, e).fault <==>
      || s.fault || e.phase == BeginReq || e.phase == EndResp
      || (e.phase == EndReq && s.bridge.slot.None?)
      || (e.phase == BeginResp &&
           (!(e.p < |s.tags| && s.tags[e.p].req == s.bridge.curr) || Forbidden(s.w, SendEndResp(0, e.p))))
  {
    hide Fits, Enabled, Act;
  }

  /**
   The target finds fault exactly with a phase of the backward path, with the end of a response it is not
   giving, and with a turn it has then to take that the protocol forbids it.
   */
  lemma TargetFaultIff(s: System, e: Event)
    ensures TargetCallback(s, e).fault <==>
      || s.fault || e.phase == EndReq || e.phase == BeginResp
      || (e.phase == BeginReq && s.target.slot.None? && Forbidden(s.w, SendEndReq(0, e.p)))
      || (e.phase == EndResp && (!s.target.responding || NextTurnFails(s)))
  {
    hide Fits, Enabled, Act;
  }

  /** After the end of a response: the response that waited is given, and the request that was put off accepted. */
  predicate NextTurnFails(s: System) {
    var t := s.target;
    || (t.nextResp.Some? && Forbidden(s.w, SendBeginResp(0, t.nextResp.value)))
    || (t.blocked.Some? && Forbidden(TargetNextResponse(TargetReleased(s)).w, SendEndReq(0, t.blocked.value)))
  }

  /**
   When a response has ended the target gives the one that waited, once, and takes up the request that it
   had put off, once, with its timer running; otherwise it is free.
   */
  lemma TargetMovesOn(s: System)
    ensures var r := TargetEndsResponse(s).target; var t := s.target;
      && r.nextResp.None? && r.blocked.None? && (r.responding <==> t.nextResp.Some?) && r.slot == t.blocked
      && r.timer == (t.timer || t.blocked.Some?) && r.peq == t.peq
    ensures var w1 := if s.target.nextResp.Some? then Calls(s, SendBeginResp(0, s.target.nextResp.value)).w else s.w;
      TargetEndsResponse(s).w ==
      if s.target.blocked.Some? then Calls(s.(w := w1), SendEndReq(0, s.target.blocked.value)).w else w1
  {
    hide Fits, Enabled, Act;
  }

  /**
   The end of the target's work is at fault exactly if there was none, if a response waits already behind
   the one being given, or if the protocol forbids the response.
   */
  lemma TimerFaultIff(s: System)
    ensures TargetDone(s).fault <==>
      || s.fault || s.target.slot.None? || (s.target.responding && s.target.nextResp.Some?)
      || (!s.target.responding && Forbidden(s.w, SendBeginResp(0, s.target.slot.value)))
  {
    hide Fits, Enabled, Act;
  }
}
