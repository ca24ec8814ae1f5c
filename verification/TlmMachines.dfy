/**
 Bus, bridge and target as the objects the program builds, each callback updating fields in place.
 Every method is proved to do to its fields what the protocol model says.
 */
module TlmMachines {
  import opened Wrappers
  import opened TlmBus
  import opened TlmSystem

  class AtBus {
    var routes: map<nat, Route>
    var reqInProgress: seq<Option<nat>>
    var pendingReq: seq<seq<nat>>
    var respInProgress: seq<Option<nat>>
    var pendingResp: seq<seq<nat>>
    var fw: multiset<Event>
    var bw: multiset<Event>

    ghost function View(): Bus
      reads this
    {
      Bus(routes, reqInProgress, pendingReq, respInProgress, pendingResp, fw, bw)
    }

    constructor (initiators: nat, targets: nat)
      ensures View() == IdleBus(initiators, targets)
    {
      routes, fw, bw := map[], multiset{}, multiset{};
      reqInProgress, pendingReq := seq(targets, _ => None), seq(targets, _ => []);
      respInProgress, pendingResp := seq(initiators, _ => None), seq(initiators, _ => []);
    }

    method OnForward(p: nat, phase: Phase) returns (call: Call, fatal: bool)
      requires Sized(View()) && p in routes
      modifies this
      ensures Outcome(View(), call, fatal) == FwCallback(old(View()), p, phase)
    {
      var u, d := routes[p].usock, routes[p].dsock;
      call, fatal := NoCall, false;
      match phase {
        case BeginReq =>
          if reqInProgress[d].None? {
            reqInProgress := reqInProgress[d := Some(p)];
            call := Down(d, p, BeginReq);
          } else {
            pendingReq := pendingReq[d := pendingReq[d] + [p]];
          }
        case EndResp =>
          fatal := respInProgress[u].None?;
          call := Down(d, p, EndResp);
          if pendingResp[u] == [] {
            respInProgress := respInProgress[u := None];
          } else {
            var pl := pendingResp[u][0];
            pendingResp := pendingResp[u := pendingResp[u][1..]];
            respInProgress := respInProgress[u := Some(pl)];
            bw := bw + multiset{Event(pl, BeginResp)};
          }
        case EndReq => fatal := true;
        case BeginResp => fatal := true;
      }
    }

    method OnBackward(p: nat, phase: Phase) returns (call: Call, fatal: bool)
      requires Sized(View()) && p in routes
      modifies this
      ensures Outcome(View(), call, fatal) == BwCallback(old(View()), p, phase)
    {
      var u, d := routes[p].usock, routes[p].dsock;
      call, fatal := NoCall, false;
      match phase {
        case EndReq =>
          fatal := reqInProgress[d].None?;
          if pendingReq[d] == [] {
            reqInProgress := reqInProgress[d := None];
          } else {
            var pl := pendingReq[d][0];
            pendingReq := pendingReq[d := pendingReq[d][1..]];
            reqInProgress := reqInProgress[d := Some(pl)];
            fw := fw + multiset{Event(pl, BeginReq)};
          }
          call := Up(u, p, EndReq);
        case BeginResp =>
          if reqInProgress[d] == Some(p) { reqInProgress := reqInProgress[d := None]; }
          if respInProgress[u].None? {
            respInProgress := respInProgress[u := Some(p)];
            call := Up(u, p, BeginResp);
          } else {
            pendingResp := pendingResp[u := pendingResp[u] + [p]];
          }
        case BeginReq => fatal := true;
        case EndResp => fatal := true;
      }
    }

    method TransportFw(u: nat, d: nat, p: nat, phase: Phase) returns (fatal: bool)
      requires u < |respInProgress|
      modifies this
      ensures Outcome(View(), NoCall, fatal) == NbTransportFw(old(View()), u, d, p, phase)
    {
      fatal := false;
      match phase {
        case BeginReq =>
          routes := routes[p := Route(u, d)];
          fw := fw + multiset{Event(p, BeginReq)};
        case EndResp =>
          fatal := p !in routes || routes[p].usock != u || respInProgress[u].None?;
          fw := fw + multiset{Event(p, EndResp)};
        case EndReq => fatal := true;
        case BeginResp => fatal := true;
      }
    }

    method TransportBw(d: nat, p: nat, phase: Phase) returns (fatal: bool)
      modifies this
      ensures Outcome(View(), NoCall, fatal) == NbTransportBw(old(View()), d, p, phase)
    {
      fatal := p !in routes || routes[p].dsock != d;
      match phase {
        case EndReq => bw := bw + multiset{Event(p, EndReq)};
        case BeginResp => bw := bw + multiset{Event(p, BeginResp)};
        case BeginReq => fatal := true;
        case EndResp => fatal := true;
      }
    }
  }

  /** Bridge and target with their fields, wired to the bus. `net` is the bus and what its checkers see. */
  class MemorySystem {
    var net: World
    var fault: bool
    // the bridge
    var pc: Pc
    var currReq: nat
    var transactions: nat
    var bridgeSlot: Option<nat>
    var bridgePeq: multiset<Event>
    var work: seq<nat>
    var taken: nat
    var finished: nat
    var tags: seq<Tag>
    // the target
    var reqInProgress: Option<nat>
    var respInProgress: bool
    var nextResponsePending: Option<nat>
    var endReqPending: Option<nat>
    var timer: bool
    var targetPeq: multiset<Event>

    ghost function View(): System
      reads this
    {
      System(net, Bridge(pc, currReq, transactions, bridgeSlot, bridgePeq),
             Target(reqInProgress, respInProgress, nextResponsePending, endReqPending, timer, targetPeq),
             work, taken, finished, tags, fault)
    }

    constructor ()
      ensures View() == Start()
    {
      net, fault := Initial(1, 1), false;
      pc, currReq, transactions, bridgeSlot, bridgePeq := Idle, 0, 0, None, multiset{};
      work, taken, finished, tags := [], 0, 0, [];
      reqInProgress, respInProgress, nextResponsePending, endReqPending := None, false, None, None;
      timer, targetPeq := false, multiset{};
    }

    method Transport(a: Action)
      modifies this`net, this`fault
      ensures View() == Calls(old(View()), a)
    {
      hide Fits, Enabled, Act;
      if Fits(net) && Enabled(net, a) { net := Act(net, a); } else { fault := true; }
    }

    method RunThread()
      requires CanStep(View(), Thread)
      modifies this
      ensures View() == Next(old(View()), Thread)
    {
      hide Calls, Send, Fits, Enabled, Act;
      hide Forwarded, HandleCallFw, HandleCallBw, BridgeCallback, TargetCallback, TargetDone;
      match pc {
        case Idle =>
          currReq, transactions, pc := taken, work[taken], Sending(0);
          taken := taken + 1;
        case Sending(t) =>
          if bridgeSlot.Some? { pc := Waiting(t); } else { SendNext(t); }
        case Woken(t) => SendNext(t);
        case Completed =>
          pc := Idle;
          finished := finished + 1;
      }
    }

    method SendNext(t: nat)
      modifies this`net, this`fault, this`tags, this`pc, this`bridgeSlot
      ensures View() == Send(old(View()), t)
    {
      hide Calls, Fits, Enabled, Act;
      var p := |tags|;
      var last := t + 1 == transactions;
      tags := tags + [Tag(currReq, last)];
      bridgeSlot := Some(p);
      pc := if last then AllSent else Sending(t + 1);
      Transport(SendBeginReq(0, 0, p));
    }

    method FreeSlot()
      modifies this`pc, this`bridgeSlot
      ensures View() == old(View()).(bridge := Release(old(View()).bridge))
    {
      bridgeSlot := None;
      if pc.Waiting? { pc := Woken(pc.t); }
    }

    method OnResponse(p: nat)
      modifies this`net, this`fault, this`pc, this`bridgeSlot
      ensures View() == BridgeGetsResponse(old(View()), p)
    {
      hide Calls, Fits, Enabled, Act;
      if bridgeSlot == Some(p) { FreeSlot(); }
      fault := fault || p >= |tags| || tags[p].req != currReq;
      if p < |tags| && tags[p].last && pc == AllSent { pc := Completed; }
      Transport(SendEndResp(0, p));
    }

    method OnBridgeEvent(e: Event)
      requires CanStep(View(), AtBridge(e))
      modifies this
      ensures View() == Next(old(View()), AtBridge(e))
    {
      hide Calls, BridgeGetsResponse, Fits, Enabled, Act;
      hide TlmSystem.RunThread, Forwarded, HandleCallFw, HandleCallBw, BridgeCallback, TargetCallback, TargetDone;
      bridgePeq := bridgePeq - multiset{e};
      DispatchBridge(e);
    }

    method DispatchBridge(e: Event)
      modifies this`net, this`fault, this`pc, this`bridgeSlot
      ensures View() == BridgeCallback(old(View()), e)
    {
      hide Calls, BridgeGetsResponse, Fits, Enabled, Act;
      match e.phase {
        case EndReq =>
          fault := fault || bridgeSlot.None?;
          FreeSlot();
        case BeginResp => OnResponse(e.p);
        case BeginReq => fault := true;
        case EndResp => fault := true;
      }
    }

    method AcceptRequest(p: nat)
      modifies this`net, this`fault, this`timer, this`reqInProgress
      ensures View() == TargetAccepts(old(View()), p)
    {
      hide Calls, Fits, Enabled, Act;
      var busy := reqInProgress.Some?;
      Transport(SendEndReq(0, p));
      timer := true;
      fault := fault || busy;
      reqInProgress := Some(p);
    }

    method Respond(p: nat)
      modifies this`net, this`fault, this`respInProgress
      ensures View() == TargetResponds(old(View()), p)
    {
      hide Calls, Fits, Enabled, Act;
      respInProgress := true;
      Transport(SendBeginResp(0, p));
    }

    method DispatchTarget(e: Event)
      modifies this`net, this`fault, this`timer, this`reqInProgress, this`respInProgress, this`nextResponsePending,
               this`endReqPending
      ensures View() == TargetCallback(old(View()), e)
    {
      hide TargetAccepts, TargetEndsResponse;
      match e.phase {
        case BeginReq =>
          if reqInProgress.None? { AcceptRequest(e.p); } else { endReqPending := Some(e.p); }
        case EndResp => FinishResponse();
        case EndReq => fault := true;
        case BeginResp => fault := true;
      }
    }

    method OnTargetEvent(e: Event)
      requires CanStep(View(), AtTarget(e))
      modifies this
      ensures View() == Next(old(View()), AtTarget(e))
    {
      hide TargetCallback, Calls, Fits, Enabled, Act;
      hide TlmSystem.RunThread, Forwarded, HandleCallFw, HandleCallBw, BridgeCallback, TargetDone;
      targetPeq := targetPeq - multiset{e};
      DispatchTarget(e);
    }

    method IssueNextResponse()
      modifies this`net, this`fault, this`respInProgress, this`nextResponsePending
      ensures View() == TargetNextResponse(old(View()))
    {
      hide Calls;
      if nextResponsePending.Some? {
        Respond(nextResponsePending.value);
        nextResponsePending := None;
      }
    }

    method AcceptDeferred()
      modifies this`net, this`fault, this`timer, this`reqInProgress, this`endReqPending
      ensures View() == TargetNextRequest(old(View()))
    {
      hide Calls;
      if endReqPending.Some? {
        AcceptRequest(endReqPending.value);
        endReqPending := None;
      }
    }

    method FinishResponse()
      modifies this`net, this`fault, this`timer, this`reqInProgress, this`respInProgress, this`nextResponsePending,
               this`endReqPending
      ensures View() == TargetEndsResponse(old(View()))
    {
      hide TargetNextRequest, TargetNextResponse;
      fault := fault || !respInProgress;
      reqInProgress, respInProgress := None, false;
      assert View() == TargetReleased(old(View()));
      IssueNextResponse();
      AcceptDeferred();
    }

    method OnTimer()
      requires CanStep(View(), Timer)
      modifies this
      ensures View() == Next(old(View()), Timer)
    {
      hide Calls, TargetResponds, Fits, Enabled, Act;
      hide TlmSystem.RunThread, Forwarded, HandleCallFw, HandleCallBw, BridgeCallback, TargetCallback;
      timer := false;
      if reqInProgress.None? {
        fault := true;
      } else if respInProgress {
        fault := fault || nextResponsePending.Some?;
        nextResponsePending := reqInProgress;
      } else {
        Respond(reqInProgress.value);
      }
    }
  }
}
