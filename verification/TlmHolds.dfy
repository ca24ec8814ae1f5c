/**
 When the bus puts a request or a response on hold, which is when it loses it: by the state of its
 slots, and by the numbers of initiators and targets.
 */
module TlmHolds {
  import opened Wrappers
  import opened TlmBus

  // ---------------------------------------------------------------- by the state of the slots

  /**
   When its BEGIN_RESP is handled, a response is delivered exactly if the initiator's slot is free;
   otherwise it is held.
   */
  lemma DeliveredIffIdle(w: World, p: nat)
    requires Fits(w) && Inv(w) && Event(p, BeginResp) in w.bus.bw
    ensures var idle := w.bus.respInProgress[w.bus.routes[p].usock].None?;
      && (PhaseOf(HandleBw(w, Event(p, BeginResp)).up, p) == Some(BeginResp) <==> idle)
      && (p in HandleBw(w, Event(p, BeginResp)).queuedResp <==> !idle)
  {
    hide LocalOk, LocalOf, Homed, HandleBw, AllLocal, Inv, Known;
    PendingResponse(w, p);
    if w.bus.respInProgress[w.bus.routes[p].usock].None? {
      BeginRespForwardedWorld(w, p);
    } else {
      BeginRespHeldWorld(w, p);
    }
  }

  /** A response on its way has not been delivered, and if it was on hold before, the slot is its own. */
  lemma PendingResponse(w: World, p: nat)
    requires Fits(w) && Inv(w) && Event(p, BeginResp) in w.bus.bw
    ensures p in w.up && w.up[p] != BeginResp
    ensures p in w.queuedResp ==> w.bus.respInProgress[w.bus.routes[p].usock] == Some(p)
  {
    hide LocalOk, LocalOf, Homed, HandleBw;
    Views(w, p);
    Sockets(w, p);
    StageFacts(LocalOf(w, p));
  }

  // ---------------------------------------------------------------- by the numbers of sockets

  /** Some run puts a request on hold. */
  ghost predicate CanHoldRequest(initiators: nat, targets: nat) {
    exists actions :: IsRun(Initial(initiators, targets), actions) &&
      Run(Initial(initiators, targets), actions).queuedReq != {}
  }

  ghost predicate CanHoldResponse(initiators: nat, targets: nat) {
    exists actions :: IsRun(Initial(initiators, targets), actions) &&
      Run(Initial(initiators, targets), actions).queuedResp != {}
  }

  /** Without an initiator or without a target nothing ever happens. */
  lemma NothingHappens(w: World, a: Action)
    requires Fits(w) && (|w.upReq| == 0 || |w.downReq| == 0)
    ensures !Enabled(w, a)
  {
    assert forall p :: p !in w.bus.routes;
  }

  // ---- two initiators

  predicate Issued(w: World) {
    && Fits(w) && |w.upReq| >= 2 && |w.downReq| >= 1 && w.home == map[0 := Route(0, 0), 1 := Route(1, 0)]
    && Event(0, BeginReq) in w.bus.fw && Event(1, BeginReq) in w.bus.fw
    && w.down == map[] && w.bus.reqInProgress[0] == None
  }

  predicate OneForwarded(w: World) {
    && Fits(w) && |w.downReq| >= 1 && w.home == map[0 := Route(0, 0), 1 := Route(1, 0)]
    && Event(1, BeginReq) in w.bus.fw && w.bus.reqInProgress[0] == Some(0)
  }

  lemma BothAreIssued(w: World, initiators: nat, targets: nat)
    requires initiators >= 2 && targets >= 1 && w == Initial(initiators, targets)
    ensures Fits(w) && Enabled(w, SendBeginReq(0, 0, 0))
    ensures var w1 := Act(w, SendBeginReq(0, 0, 0));
      Fits(w1) && Enabled(w1, SendBeginReq(1, 0, 1)) && Issued(Act(w1, SendBeginReq(1, 0, 1)))
  {
    SendBeginReqFits(w, 0, 0, 0);
    var w1 := Act(w, SendBeginReq(0, 0, 0));
    SendBeginReqFits(w1, 1, 0, 1);
  }

  lemma OneIsForwarded(w: World)
    requires Issued(w)
    ensures Enabled(w, DeliverFw(Event(0, BeginReq))) && OneForwarded(Act(w, DeliverFw(Event(0, BeginReq))))
  {
    BeginReqForwarded(w, 0, 0);
  }

  lemma OtherIsHeld(w: World)
    requires OneForwarded(w)
    ensures Enabled(w, DeliverFw(Event(1, BeginReq))) && 1 in Act(w, DeliverFw(Event(1, BeginReq))).queuedReq
  {
  }

  lemma TwoInitiatorsHold(initiators: nat, targets: nat)
    requires initiators >= 2 && targets >= 1
    ensures CanHoldRequest(initiators, targets)
  {
    hide Act, Enabled, Issued, OneForwarded, Initial;
    var w0 := Initial(initiators, targets);
    BothAreIssued(w0, initiators, targets);
    var w1 := Act(w0, SendBeginReq(0, 0, 0));
    var w2 := Act(w1, SendBeginReq(1, 0, 1));
    IssuedFits(w2);
    OneIsForwarded(w2);
    var w3 := Act(w2, DeliverFw(Event(0, BeginReq)));
    IssuedFits(w3);
    OtherIsHeld(w3);
    var last := DeliverFw(Event(1, BeginReq));
    RunOfOne(w3, last);
    RunExtends(w2, DeliverFw(Event(0, BeginReq)), [last]);
    RunExtends(w1, SendBeginReq(1, 0, 1), [DeliverFw(Event(0, BeginReq))] + [last]);
    var rest := [SendBeginReq(1, 0, 1)] + ([DeliverFw(Event(0, BeginReq))] + [last]);
    RunExtends(w0, SendBeginReq(0, 0, 0), rest);
    assert IsRun(w0, [SendBeginReq(0, 0, 0)] + rest);
  }

  lemma IssuedFits(w: World)
    ensures Issued(w) || OneForwarded(w) ==> Fits(w)
  {
  }

  /** Some run puts a request on hold, and so loses it, exactly if there are two initiators and a target. */
  lemma RequestIsHeldIff(initiators: nat, targets: nat)
    ensures CanHoldRequest(initiators, targets) <==> initiators >= 2 && targets >= 1
  {
    hide Initial, IsRun, Run;
    if initiators >= 2 && targets >= 1 {
      TwoInitiatorsHold(initiators, targets);
    } else {
      forall actions | IsRun(Initial(initiators, targets), actions)
        ensures Run(Initial(initiators, targets), actions).queuedReq == {}
      {
        FewSockets(initiators, targets, actions);
      }
    }
  }

  lemma FewSockets(initiators: nat, targets: nat, actions: seq<Action>)
    requires IsRun(Initial(initiators, targets), actions)
    ensures initiators < 2 || targets < 1 ==> Run(Initial(initiators, targets), actions).queuedReq == {}
    ensures targets < 2 || initiators < 1 ==> Run(Initial(initiators, targets), actions).queuedResp == {}
  {
    hide LocalOk, LocalOf, Act;
    NothingHeld(initiators, targets, actions);
    InitialInv(initiators, targets);
    if (initiators == 0 || targets == 0) && actions != [] { NothingHappens(Initial(initiators, targets), actions[0]); }
  }

  // ---- two targets

  /** Payload 0 of initiator 0 is on its way to target 0, and no slot is taken. */
  predicate Begun(w: World) {
    && Fits(w) && |w.upReq| >= 1 && |w.downReq| >= 2 && w.home == map[0 := Route(0, 0)] && w.down == map[]
    && w.bus.fw == multiset{Event(0, BeginReq)} && w.bus.bw == multiset{}
    && w.bus.reqInProgress[0] == w.bus.reqInProgress[1] == None && w.bus.respInProgress[0] == None
    && w.downResp[0] == w.downResp[1] == None && w.upReq[0] == Some(0)
  }

  /** It has been forwarded, ... */
  predicate Offered(w: World) {
    && Fits(w) && |w.upReq| >= 1 && |w.downReq| >= 2 && w.home == map[0 := Route(0, 0)] && w.down == map[0 := BeginReq]
    && w.bus.fw == multiset{} && w.bus.bw == multiset{}
    && w.bus.reqInProgress[0] == Some(0) && w.bus.reqInProgress[1] == None && w.bus.respInProgress[0] == None
    && w.downResp[0] == w.downResp[1] == None && w.upReq[0] == Some(0)
  }

  /** ... the target responds at once, ... */
  predicate Responding(w: World) {
    && Fits(w) && |w.upReq| >= 1 && |w.downReq| >= 2 && w.home == map[0 := Route(0, 0)] && w.down == map[0 := BeginResp]
    && w.bus.fw == multiset{} && w.bus.bw == multiset{Event(0, BeginResp)}
    && w.bus.reqInProgress[0] == Some(0) && w.bus.reqInProgress[1] == None && w.bus.respInProgress[0] == None
    && w.downResp[1] == None && w.upReq[0] == Some(0)
  }

  /** ... the initiator has the response and has not acknowledged it, ... */
  predicate Delivered(w: World) {
    && Fits(w) && |w.upReq| >= 1 && |w.downReq| >= 2 && w.home == map[0 := Route(0, 0)] && w.down.Keys == {0}
    && w.bus.fw == multiset{} && w.bus.bw == multiset{}
    && w.bus.reqInProgress[1] == None && w.bus.respInProgress[0] == Some(0) &&
       w.downResp[1] == None && w.upReq[0] == None
  }

  /** ... it sends payload 1 to target 1, ... */
  predicate SecondBegun(w: World) {
    && Fits(w) && |w.upReq| >= 1 && |w.downReq| >= 2 && w.home == map[0 := Route(0, 0), 1 := Route(0, 1)] &&
       w.down.Keys == {0}
    && w.bus.fw == multiset{Event(1, BeginReq)} && w.bus.bw == multiset{}
    && w.bus.reqInProgress[1] == None && w.bus.respInProgress[0] == Some(0) && w.downResp[1] == None
  }

  /** ... which is forwarded, ... */
  predicate SecondOffered(w: World) {
    && Fits(w) && |w.upReq| >= 1 && |w.downReq| >= 2 && w.home == map[0 := Route(0, 0), 1 := Route(0, 1)]
    && 1 in w.down && w.down[1] == BeginReq && w.bus.bw == multiset{}
    && w.bus.respInProgress[0] == Some(0) && w.downResp[1] == None
  }

  /** ... and answered at once as well. */
  predicate SecondResponding(w: World) {
    && Fits(w) && |w.upReq| >= 1 && |w.downReq| >= 2 && w.home == map[0 := Route(0, 0), 1 := Route(0, 1)]
    && w.bus.bw == multiset{Event(1, BeginResp)} && w.bus.respInProgress[0] == Some(0)
  }

  lemma ToBegun(initiators: nat, targets: nat)
    requires initiators >= 1 && targets >= 2
    ensures Fits(Initial(initiators, targets)) && Enabled(Initial(initiators, targets), SendBeginReq(0, 0, 0))
    ensures Begun(Act(Initial(initiators, targets), SendBeginReq(0, 0, 0)))
  {
    SendBeginReqFits(Initial(initiators, targets), 0, 0, 0);
  }

  lemma ToOffered(w: World)
    requires Begun(w)
    ensures Enabled(w, DeliverFw(Event(0, BeginReq))) && Offered(Act(w, DeliverFw(Event(0, BeginReq))))
  {
    BeginReqForwarded(w, 0, 0);
  }

  lemma ToResponding(w: World)
    requires Offered(w)
    ensures Enabled(w, SendBeginResp(0, 0)) && Responding(Act(w, SendBeginResp(0, 0)))
  {
    SendBeginRespStep(w, 0, 0, 0);
  }

  lemma ToDelivered(w: World)
    requires Responding(w)
    ensures Enabled(w, DeliverBw(Event(0, BeginResp))) && Delivered(Act(w, DeliverBw(Event(0, BeginResp))))
  {
    BeginRespForwardedWorld(w, 0);
  }

  lemma ToSecondBegun(w: World)
    requires Delivered(w)
    ensures Enabled(w, SendBeginReq(0, 1, 1)) && SecondBegun(Act(w, SendBeginReq(0, 1, 1)))
  {
    SendBeginReqFits(w, 0, 1, 1);
  }

  lemma ToSecondOffered(w: World)
    requires SecondBegun(w)
    ensures Enabled(w, DeliverFw(Event(1, BeginReq))) && SecondOffered(Act(w, DeliverFw(Event(1, BeginReq))))
  {
    BeginReqForwarded(w, 1, 1);
  }

  lemma ToSecondResponding(w: World)
    requires SecondOffered(w)
    ensures Enabled(w, SendBeginResp(1, 1)) && SecondResponding(Act(w, SendBeginResp(1, 1)))
  {
    SendBeginRespStep(w, 1, 1, 1);
  }

  lemma SecondIsHeld(w: World)
    requires SecondResponding(w)
    ensures Enabled(w, DeliverBw(Event(1, BeginResp))) && 1 in Act(w, DeliverBw(Event(1, BeginResp))).queuedResp
  {
    BeginRespHeldWorld(w, 1);
  }

  /** The second half of the run, from when the first response has been delivered. */
  lemma SecondHalf(w: World) returns (actions: seq<Action>)
    requires Delivered(w)
    ensures Fits(w) && IsRun(w, actions) && 1 in Run(w, actions).queuedResp
  {
    hide Act, Enabled, SecondBegun, SecondOffered, SecondResponding;
    ToSecondBegun(w);
    var w1 := Act(w, SendBeginReq(0, 1, 1));
    StageFits(w1);
    ToSecondOffered(w1);
    var w2 := Act(w1, DeliverFw(Event(1, BeginReq)));
    StageFits(w2);
    ToSecondResponding(w2);
    var w3 := Act(w2, SendBeginResp(1, 1));
    StageFits(w3);
    SecondIsHeld(w3);
    actions := [DeliverBw(Event(1, BeginResp))];
    RunOfOne(w3, actions[0]);
    RunExtends(w2, SendBeginResp(1, 1), actions);
    actions := [SendBeginResp(1, 1)] + actions;
    RunExtends(w1, DeliverFw(Event(1, BeginReq)), actions);
    actions := [DeliverFw(Event(1, BeginReq))] + actions;
    RunExtends(w, SendBeginReq(0, 1, 1), actions);
    actions := [SendBeginReq(0, 1, 1)] + actions;
  }

  lemma StageFits(w: World)
    ensures Begun(w) || Offered(w) || Responding(w) || Delivered(w) ==> Fits(w)
    ensures SecondBegun(w) || SecondOffered(w) || SecondResponding(w) ==> Fits(w)
  {
  }

  lemma TwoTargetsHold(initiators: nat, targets: nat)
    requires initiators >= 1 && targets >= 2
    ensures CanHoldResponse(initiators, targets)
  {
    hide Act, Enabled, Begun, Offered, Responding, Delivered, Initial;
    var w0 := Initial(initiators, targets);
    ToBegun(initiators, targets);
    var w1 := Act(w0, SendBeginReq(0, 0, 0));
    StageFits(w1);
    ToOffered(w1);
    var w2 := Act(w1, DeliverFw(Event(0, BeginReq)));
    StageFits(w2);
    ToResponding(w2);
    var w3 := Act(w2, SendBeginResp(0, 0));
    StageFits(w3);
    ToDelivered(w3);
    var actions := SecondHalf(Act(w3, DeliverBw(Event(0, BeginResp))));
    RunExtends(w3, DeliverBw(Event(0, BeginResp)), actions);
    actions := [DeliverBw(Event(0, BeginResp))] + actions;
    RunExtends(w2, SendBeginResp(0, 0), actions);
    actions := [SendBeginResp(0, 0)] + actions;
    RunExtends(w1, DeliverFw(Event(0, BeginReq)), actions);
    actions := [DeliverFw(Event(0, BeginReq))] + actions;
    RunExtends(w0, SendBeginReq(0, 0, 0), actions);
    actions := [SendBeginReq(0, 0, 0)] + actions;
    assert IsRun(w0, actions);
  }

  /** Some run puts a response on hold, and so loses it, exactly if there are two targets and an initiator. */
  lemma ResponseIsHeldIff(initiators: nat, targets: nat)
    ensures CanHoldResponse(initiators, targets) <==> targets >= 2 && initiators >= 1
  {
    hide Initial, IsRun, Run;
    if targets >= 2 && initiators >= 1 {
      TwoTargetsHold(initiators, targets);
    } else {
      forall actions | IsRun(Initial(initiators, targets), actions)
        ensures Run(Initial(initiators, targets), actions).queuedResp == {}
      {
        FewSockets(initiators, targets, actions);
      }
    }
  }
}
