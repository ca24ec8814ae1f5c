/**
 The approximately-timed bus between any number of initiators and targets, in an environment that
 keeps to the TLM-2.0 base protocol (IEEE Std 1666-2011, clauses 15.2.4 and 15.2.6).

 Neighbours always answer TLM_ACCEPTED. A payload event queue hands out its events in any order,
 except that BEGIN_RESP of a payload never overtakes its END_REQ.
 */
module TlmBus {
  import opened Wrappers

  datatype Phase = BeginReq | EndReq | BeginResp | EndResp

  /** An entry of a payload event queue. Payloads are numbered; a number is never used twice. */
  datatype Event = Event(p: nat, phase: Phase)

  /** The routing extension. */
  datatype Route = Route(usock: nat, dsock: nat)

  /** A transport call the bus makes: downstream to a target or upstream to an initiator. */
  datatype Call = NoCall | Down(d: nat, p: nat, phase: Phase) | Up(u: nat, p: nat, phase: Phase)

  datatype Bus = Bus(
    routes: map<nat, Route>,
    reqInProgress: seq<Option<nat>>, pendingReq: seq<seq<nat>>,
    respInProgress: seq<Option<nat>>, pendingResp: seq<seq<nat>>,
    fw: multiset<Event>, bw: multiset<Event>)

  /** What a callback leaves behind: the bus, the call it made, whether an assertion or fatal report fired. */
  datatype Outcome = Outcome(bus: Bus, call: Call, fatal: bool)

  predicate Sized(b: Bus) {
    && |b.pendingReq| == |b.reqInProgress| && |b.pendingResp| == |b.respInProgress|
    && forall p :: p in b.routes ==> b.routes[p].dsock < |b.reqInProgress| && b.routes[p].usock < |b.respInProgress|
  }

  function FwCallback(b: Bus, p: nat, phase: Phase): Outcome
    requires Sized(b) && p in b.routes
  {
    var (u, d) := (b.routes[p].usock, b.routes[p].dsock);
    match phase
    case BeginReq =>
      if b.reqInProgress[d].None? then
        Outcome(b.(reqInProgress := b.reqInProgress[d := Some(p)]), Down(d, p, BeginReq), false)
      else
        Outcome(b.(pendingReq := b.pendingReq[d := b.pendingReq[d] + [p]]), NoCall, false)
    case EndResp =>
      var b' :=
        if b.pendingResp[u] == [] then b.(respInProgress := b.respInProgress[u := None])
        else
          var pl := b.pendingResp[u][0];
          b.(pendingResp := b.pendingResp[u := b.pendingResp[u][1..]],
             respInProgress := b.respInProgress[u := Some(pl)],
             bw := b.bw + multiset{Event(pl, BeginResp)});
      Outcome(b', Down(d, p, EndResp), b.respInProgress[u].None?)
    case _ => Outcome(b, NoCall, true)
  }

  function BwCallback(b: Bus, p: nat, phase: Phase): Outcome
    requires Sized(b) && p in b.routes
  {
    var (u, d) := (b.routes[p].usock, b.routes[p].dsock);
    match phase
    case EndReq =>
      var b' :=
        if b.pendingReq[d] == [] then b.(reqInProgress := b.reqInProgress[d := None])
        else
          var pl := b.pendingReq[d][0];
          b.(pendingReq := b.pendingReq[d := b.pendingReq[d][1..]],
             reqInProgress := b.reqInProgress[d := Some(pl)],
             fw := b.fw + multiset{Event(pl, BeginReq)});
      Outcome(b', Up(u, p, EndReq), b.reqInProgress[d].None?)
    case BeginResp =>
      var b' := if b.reqInProgress[d] == Some(p) then b.(reqInProgress := b.reqInProgress[d := None]) else b;
      if b.respInProgress[u].None? then
        Outcome(b'.(respInProgress := b.respInProgress[u := Some(p)]), Up(u, p, BeginResp), false)
      else
        Outcome(b'.(pendingResp := b.pendingResp[u := b.pendingResp[u] + [p]]), NoCall, false)
    case _ => Outcome(b, NoCall, true)
  }

  /** A forward call from initiator `u`. `d` is what the address decoder says. */
  function NbTransportFw(b: Bus, u: nat, d: nat, p: nat, phase: Phase): Outcome
    requires u < |b.respInProgress|
  {
    match phase
    case BeginReq => Outcome(b.(routes := b.routes[p := Route(u, d)], fw := b.fw + multiset{Event(p, BeginReq)}),
      NoCall, false)
    case EndResp =>
      Outcome(b.(fw := b.fw + multiset{Event(p, EndResp)}), NoCall,
              !(p in b.routes && b.routes[p].usock == u && b.respInProgress[u].Some?))
    case _ => Outcome(b, NoCall, true)
  }

  function NbTransportBw(b: Bus, d: nat, p: nat, phase: Phase): Outcome {
    var fatal := !(p in b.routes && b.routes[p].dsock == d);
    match phase
    case EndReq => Outcome(b.(bw := b.bw + multiset{Event(p, EndReq)}), NoCall, fatal)
    case BeginResp => Outcome(b.(bw := b.bw + multiset{Event(p, BeginResp)}), NoCall, fatal)
    case _ => Outcome(b, NoCall, true)
  }

  function IdleBus(initiators: nat, targets: nat): Bus {
    Bus(map[], seq(targets, _ => None), seq(targets, _ => []), seq(initiators, _ => None), seq(initiators, _ => []),
        multiset{}, multiset{})
  }

  // ---------------------------------------------------------------- the bus among its neighbours

  /**
   The bus with the protocol checkers' view of both hops: each payload's phase there, and the
   request and response in progress per socket. `home` records which sockets a transaction was
   issued on and for. `violated` is set by a checker error, by a call on another socket than the
   transaction's own, or by an assertion or fatal report of the bus. `queuedReq` and `queuedResp`
   collect the payloads whose request or response was ever put on hold.
   */
  datatype World = World(
    bus: Bus, home: map<nat, Route>,
    up: map<nat, Phase>, down: map<nat, Phase>,
    upReq: seq<Option<nat>>, upResp: seq<Option<nat>>,
    downReq: seq<Option<nat>>, downResp: seq<Option<nat>>,
    violated: bool, queuedReq: set<nat>, queuedResp: set<nat>)
  {
    /** A call about a transaction that does not belong on the socket it is made on. */
    predicate Misrouted(c: Call) {
      match c
      case NoCall => false
      case Down(d, p, _) => !(p in home && home[p].dsock == d)
      case Up(u, p, _) => !(p in home && home[p].usock == u)
    }
  }

  datatype Action =
    | SendBeginReq(u: nat, d: nat, p: nat)  // an initiator issues a new transaction
    | SendEndResp(u: nat, p: nat)           // an initiator acknowledges the response it was given
    | SendEndReq(d: nat, p: nat)            // a target accepts a request
    | SendBeginResp(d: nat, p: nat)         // a target responds, with or without END_REQ before
    | DeliverFw(e: Event)                   // the bus handles an event of its forward queue
    | DeliverBw(e: Event)                   // or of its backward queue

  predicate Fits(w: World) {
    && Sized(w.bus)
    && |w.upReq| == |w.upResp| == |w.bus.respInProgress|
    && |w.downReq| == |w.downResp| == |w.bus.reqInProgress|
    && w.home == w.bus.routes
    && w.up.Keys == w.bus.routes.Keys && w.down.Keys <= w.up.Keys
    && Known(w.bus.fw, w.bus.routes) && Known(w.bus.bw, w.bus.routes)
  }

  predicate Known(m: multiset<Event>, routes: map<nat, Route>) {
    forall e :: e in m ==> e.p in routes
  }

  /** The neighbours keep to the protocol; the bus may handle any event that no earlier one blocks. */
  predicate Enabled(w: World, a: Action)
    requires Fits(w)
  {
    match a
    case SendBeginReq(u, d, p) => u < |w.upReq| && d < |w.downReq| && p !in w.up && w.upReq[u].None?
    case SendEndResp(u, p) => u < |w.upResp| && w.upResp[u] == Some(p) && p in w.up && w.up[p] == BeginResp
    case SendEndReq(d, p) =>
      d < |w.downReq| && p in w.down && w.bus.routes[p].dsock == d && w.down[p] == BeginReq
    case SendBeginResp(d, p) =>
      d < |w.downResp| && w.downResp[d].None? && p in w.down && w.bus.routes[p].dsock == d
      && (w.down[p] == BeginReq || w.down[p] == EndReq)
    case DeliverFw(e) => e in w.bus.fw
    case DeliverBw(e) => e in w.bus.bw && (e.phase == BeginResp ==> Event(e.p, EndReq) !in w.bus.bw)
  }

  /** The checkers' reaction to a call of the bus. */
  function Observe(w: World, c: Call): World
    requires c.Down? ==> c.d < |w.downReq| && c.d < |w.downResp|
    requires c.Up? ==> c.u < |w.upReq| && c.u < |w.upResp|
  {
    match c
    case NoCall => w
    case Down(d, p, BeginReq) =>
      w.(violated := w.violated || w.Misrouted(c) || p in w.down || w.downReq[d].Some?,
         down := w.down[p := BeginReq], downReq := w.downReq[d := Some(p)])
    case Down(d, p, EndResp) =>
      w.(violated := w.violated || w.Misrouted(c) || !(p in w.down && w.down[p] == BeginResp),
         down := w.down[p := EndResp], downResp := w.downResp[d := None])
    case Up(u, p, EndReq) =>
      w.(violated := w.violated || w.Misrouted(c) || !(p in w.up && w.up[p] == BeginReq),
         up := w.up[p := EndReq], upReq := w.upReq[u := None])
    case Up(u, p, BeginResp) =>
      w.(violated := w.violated || w.Misrouted(c) || w.upResp[u].Some?
                   || !(p in w.up && (w.up[p] == BeginReq || w.up[p] == EndReq)),
         up := w.up[p := BeginResp], upResp := w.upResp[u := Some(p)],
         upReq := if w.upReq[u] == Some(p) then w.upReq[u := None] else w.upReq)
    case _ => w.(violated := true)
  }

  function Settle(w: World, o: Outcome): World {
    w.(bus := o.bus, violated := w.violated || o.fatal)
  }

  function Act(w: World, a: Action): World
    requires Fits(w) && Enabled(w, a)
  {
    match a
    case SendBeginReq(u, d, p) =>
      Settle(w, NbTransportFw(w.bus, u, d, p, BeginReq)).(
        up := w.up[p := BeginReq], upReq := w.upReq[u := Some(p)], home := w.home[p := Route(u, d)])
    case SendEndResp(u, p) =>
      Settle(w, NbTransportFw(w.bus, u, 0, p, EndResp)).(up := w.up[p := EndResp], upResp := w.upResp[u := None])
    case SendEndReq(d, p) =>
      Settle(w, NbTransportBw(w.bus, d, p, EndReq)).(down := w.down[p := EndReq], downReq := w.downReq[d := None])
    case SendBeginResp(d, p) =>
      Settle(w, NbTransportBw(w.bus, d, p, BeginResp)).(
        down := w.down[p := BeginResp], downResp := w.downResp[d := Some(p)],
        downReq := if w.downReq[d] == Some(p) then w.downReq[d := None] else w.downReq)
    case DeliverFw(e) => HandleFw(w, e)
    case DeliverBw(e) => HandleBw(w, e)
  }

  function HandleFw(w: World, e: Event): World
    requires Fits(w) && e in w.bus.fw
  {
    var o := FwCallback(w.bus.(fw := w.bus.fw - multiset{e}), e.p, e.phase);
    var w' := Settle(Observe(w, o.call), o);
    if e.phase == BeginReq && o.call == NoCall then w'.(queuedReq := w'.queuedReq + {e.p}) else w'
  }

  function HandleBw(w: World, e: Event): World
    requires Fits(w) && e in w.bus.bw
  {
    var o := BwCallback(w.bus.(bw := w.bus.bw - multiset{e}), e.p, e.phase);
    var w' := Settle(Observe(w, o.call), o);
    if e.phase == BeginResp && o.call == NoCall then w'.(queuedResp := w'.queuedResp + {e.p}) else w'
  }

  function Initial(initiators: nat, targets: nat): World {
    World(IdleBus(initiators, targets), map[], map[], map[],
          seq(initiators, _ => None), seq(initiators, _ => None), seq(targets, _ => None), seq(targets, _ => None),
          false, {}, {})
  }

  // ---------------------------------------------------------------- one payload's view of the world

  /**
   Everything about one payload: its phase on either hop, how many copies of it each queue holds,
   and which of its sockets' slots it occupies.
   */
  datatype Local = Local(
    up: Option<Phase>, down: Option<Phase>,
    fwReq: nat, fwEnd: nat, bwAcc: nat, bwResp: nat, waitReq: nat, waitResp: nat,
    req: bool, resp: bool, upReq: bool, upResp: bool, downResp: bool,
    heldReq: bool, heldResp: bool)

  function PhaseOf(phases: map<nat, Phase>, p: nat): Option<Phase> {
    if p in phases then Some(phases[p]) else None
  }

  function LocalOf(w: World, p: nat): Local
    requires Fits(w) && p in w.up
  {
    var r := w.bus.routes[p];
    Local(PhaseOf(w.up, p), PhaseOf(w.down, p),
          w.bus.fw[Event(p, BeginReq)], w.bus.fw[Event(p, EndResp)],
          w.bus.bw[Event(p, EndReq)], w.bus.bw[Event(p, BeginResp)],
          multiset(w.bus.pendingReq[r.dsock])[p], multiset(w.bus.pendingResp[r.usock])[p],
          w.bus.reqInProgress[r.dsock] == Some(p), w.bus.respInProgress[r.usock] == Some(p),
          w.upReq[r.usock] == Some(p), w.upResp[r.usock] == Some(p), w.downResp[r.dsock] == Some(p),
          p in w.queuedReq, p in w.queuedResp)
  }

  /** The life of a transaction on the bus, with where its tokens are at each stage. */
  predicate LocalOk(l: Local) {
    && l.up.Some?
    // before it is forwarded, the request is in exactly one place; afterwards in none
    && l.fwReq + l.waitReq == (if l.down.None? then 1 else 0)
    && (l.down.None? ==> l.up == Some(BeginReq))
    && (l.up == Some(BeginReq) ==> l.upReq)
    && (l.req ==> l.up == Some(BeginReq))
    // END_REQ travels at most once, while the bus still has the request down as in progress
    && l.bwAcc <= 1
    && (l.bwAcc == 1 ==> l.req && l.up == Some(BeginReq) && (l.down == Some(EndReq) || l.down == Some(BeginResp)))
    && (l.down == Some(BeginReq) ==> l.req && l.up == Some(BeginReq) && l.bwAcc == 0)
    // so does BEGIN_RESP, and the response occupies its sockets until END_RESP has passed
    && l.bwResp + l.waitResp ==
       (if l.down == Some(BeginResp) && (l.up == Some(BeginReq) || l.up == Some(EndReq)) then 1 else 0)
    && (l.up == Some(BeginResp) ==> l.resp && l.upResp && l.down == Some(BeginResp))
    && l.fwEnd == (if l.up == Some(EndResp) && l.down == Some(BeginResp) then 1 else 0)
    && (l.fwEnd == 1 ==> l.resp)
    && (l.resp ==> l.down == Some(BeginResp))
    && (l.down == Some(BeginResp) ==> l.downResp)
    && (l.up == Some(EndResp) ==> l.down == Some(BeginResp) || l.down == Some(EndResp))
    && (l.down == Some(EndResp) ==> l.up == Some(EndResp))
    // what was once put on hold stays there, or blocks its socket
    && (l.heldReq ==> l.down.None? && (l.fwReq == 1 ==> l.req))
    && (l.waitReq > 0 || (l.req && l.down.None?) ==> l.heldReq)
    && (l.heldResp ==>
          l.down == Some(BeginResp) && (l.up == Some(BeginReq) || l.up == Some(EndReq)) && (l.bwResp == 1 ==> l.resp))
    && (l.waitResp > 0 || (l.resp && l.bwResp > 0) ==> l.heldResp)
  }

  /** The hold queues hold payloads of their own socket only. */
  predicate ReqsHome(queues: seq<seq<nat>>, routes: map<nat, Route>) {
    forall d, p :: 0 <= d < |queues| && p in queues[d] ==> p in routes && routes[p].dsock == d
  }

  predicate RespsHome(queues: seq<seq<nat>>, routes: map<nat, Route>) {
    forall u, p :: 0 <= u < |queues| && p in queues[u] ==> p in routes && routes[p].usock == u
  }

  /** So do the slots. */
  predicate ReqSlotsHome(slots: seq<Option<nat>>, routes: map<nat, Route>) {
    forall d :: 0 <= d < |slots| && slots[d].Some? ==> slots[d].value in routes && routes[slots[d].value].dsock == d
  }

  predicate RespSlotsHome(slots: seq<Option<nat>>, routes: map<nat, Route>) {
    forall u :: 0 <= u < |slots| && slots[u].Some? ==> slots[u].value in routes && routes[slots[u].value].usock == u
  }

  predicate QueuesHome(b: Bus) {
    && ReqsHome(b.pendingReq, b.routes) && RespsHome(b.pendingResp, b.routes)
    && ReqSlotsHome(b.reqInProgress, b.routes) && RespSlotsHome(b.respInProgress, b.routes)
  }

  /** Each event queue holds events of its own direction only. */
  predicate Holds(m: multiset<Event>, x: Phase, y: Phase) {
    forall e :: e in m ==> e.phase == x || e.phase == y
  }

  predicate EventsHome(b: Bus) {
    Holds(b.fw, BeginReq, EndResp) && Holds(b.bw, EndReq, BeginResp)
  }

  /** The checkers' slots hold payloads of their own socket, in the phase that fills the slot. */
  predicate UpSlotsHome(w: World)
    requires Fits(w)
  {
    forall u :: 0 <= u < |w.upResp| && w.upResp[u].Some? ==>
      PhaseOf(w.up, w.upResp[u].value) == Some(BeginResp) && w.bus.routes[w.upResp[u].value].usock == u
  }

  predicate DownSlotsHome(w: World)
    requires Fits(w)
  {
    forall d :: 0 <= d < |w.downReq| && w.downReq[d].Some? ==>
      PhaseOf(w.down, w.downReq[d].value) == Some(BeginReq) && w.bus.routes[w.downReq[d].value].dsock == d
  }

  predicate Homed(w: World)
    requires Fits(w)
  {
    && QueuesHome(w.bus) && EventsHome(w.bus) && UpSlotsHome(w) && DownSlotsHome(w)
    && w.queuedReq <= w.up.Keys && w.queuedResp <= w.up.Keys
  }

  predicate AllLocal(w: World)
    requires Fits(w)
  {
    forall p :: p in w.up ==> LocalOk(LocalOf(w, p))
  }

  predicate Inv(w: World) {
    !w.violated && Fits(w) && Homed(w) && AllLocal(w)
  }

  // ---------------------------------------------------------------- every step keeps the invariant

  lemma InitialInv(initiators: nat, targets: nat)
    ensures Inv(Initial(initiators, targets))
  {
  }

  lemma CountAppend(s: seq<nat>, x: nat, p: nat)
    ensures multiset(s + [x])[p] == multiset(s)[p] + (if x == p then 1 else 0)
  {
  }

  lemma CountPop(s: seq<nat>, p: nat)
    requires s != []
    ensures multiset(s[1..])[p] == multiset(s)[p] - (if s[0] == p then 1 else 0)
  {
    assert s == [s[0]] + s[1..];
  }

  lemma KnownGrows(m: multiset<Event>, routes: map<nat, Route>, e: Event, r: Route)
    requires Known(m, routes)
    ensures Known(m + multiset{e}, routes[e.p := r])
    ensures e.p in routes ==> Known(m + multiset{e}, routes)
    ensures Known(m, routes[e.p := r])
    ensures e.p !in routes ==> forall f: Event :: f.p == e.p ==> m[f] == 0
  {
  }

  lemma KnownShrinks(m: multiset<Event>, routes: map<nat, Route>, e: Event)
    requires Known(m, routes)
    ensures Known(m - multiset{e}, routes)
  {
  }

  lemma PhasesUpdated(phases: map<nat, Phase>, p: nat, phase: Phase, q: nat)
    ensures PhaseOf(phases[p := phase], q) == if q == p then Some(phase) else PhaseOf(phases, q)
  {
  }

  // ---- what an action of a neighbour does to each payload

  lemma SendBeginReqFits(w: World, u: nat, d: nat, p: nat)
    requires Fits(w) && Enabled(w, SendBeginReq(u, d, p))
    ensures Fits(Act(w, SendBeginReq(u, d, p)))
  {
    KnownGrows(w.bus.fw, w.bus.routes, Event(p, BeginReq), Route(u, d));
    KnownGrows(w.bus.bw, w.bus.routes, Event(p, BeginReq), Route(u, d));
  }

  lemma SendBeginReqOthers(w: World, u: nat, d: nat, p: nat, q: nat)
    requires Fits(w) && Enabled(w, SendBeginReq(u, d, p)) && q in w.up
    ensures Fits(Act(w, SendBeginReq(u, d, p)))
    ensures LocalOf(Act(w, SendBeginReq(u, d, p)), q) == LocalOf(w, q)
  {
    hide LocalOk;
    SendBeginReqFits(w, u, d, p);
    PhasesUpdated(w.up, p, BeginReq, q);
  }

  /** A new payload starts in one place only: the forward queue. */
  lemma SendBeginReqNew(w: World, u: nat, d: nat, p: nat)
    requires Fits(w) && Homed(w) && Enabled(w, SendBeginReq(u, d, p)) && u < |w.upReq| && d < |w.downReq|
    ensures Fits(Act(w, SendBeginReq(u, d, p)))
    ensures LocalOf(Act(w, SendBeginReq(u, d, p)), p) ==
      Local(Some(BeginReq), None, 1, 0, 0, 0, 0, 0, false, false,
            true, false, w.downResp[d] == Some(p), false, false)
  {
    hide LocalOk, Homed, Known;
    SendBeginReqFits(w, u, d, p);
    NewIsNowhere(w, u, d, p);
  }

  lemma NewIsNowhere(w: World, u: nat, d: nat, p: nat)
    requires Fits(w) && Homed(w) && p !in w.up && u < |w.upReq| && d < |w.downReq|
    ensures p !in w.bus.pendingReq[d] && p !in w.bus.pendingResp[u]
    ensures w.bus.reqInProgress[d] != Some(p) && w.bus.respInProgress[u] != Some(p) && w.upResp[u] != Some(p)
    ensures forall x :: Event(p, x) !in w.bus.fw && Event(p, x) !in w.bus.bw
    ensures p !in w.queuedReq && p !in w.queuedResp
  {
  }

  lemma SendEndRespFits(w: World, u: nat, p: nat)
    requires Fits(w) && Enabled(w, SendEndResp(u, p)) && w.bus.routes[p].usock == u
    ensures Fits(Act(w, SendEndResp(u, p)))
  {
    KnownGrows(w.bus.fw, w.bus.routes, Event(p, EndResp), w.bus.routes[p]);
  }

  lemma SendEndRespStep(w: World, u: nat, p: nat, q: nat)
    requires Fits(w) && Enabled(w, SendEndResp(u, p)) && w.bus.routes[p].usock == u && q in w.up
    ensures Fits(Act(w, SendEndResp(u, p)))
    ensures LocalOf(Act(w, SendEndResp(u, p)), q) ==
      if q != p then LocalOf(w, q) else
      var l := LocalOf(w, p); l.(up := Some(EndResp), fwEnd := l.fwEnd + 1, upResp := false)
  {
    hide LocalOk, Known;
    SendEndRespFits(w, u, p);
    PhasesUpdated(w.up, p, EndResp, q);
  }

  lemma SendBwFits(w: World, d: nat, p: nat)
    requires Fits(w)
    ensures Enabled(w, SendEndReq(d, p)) ==> Fits(Act(w, SendEndReq(d, p)))
    ensures Enabled(w, SendBeginResp(d, p)) ==> Fits(Act(w, SendBeginResp(d, p)))
  {
    if p in w.bus.routes {
      KnownGrows(w.bus.bw, w.bus.routes, Event(p, EndReq), w.bus.routes[p]);
      KnownGrows(w.bus.bw, w.bus.routes, Event(p, BeginResp), w.bus.routes[p]);
    }
  }

  lemma SendEndReqStep(w: World, d: nat, p: nat, q: nat)
    requires Fits(w) && Enabled(w, SendEndReq(d, p)) && q in w.up
    ensures Fits(Act(w, SendEndReq(d, p)))
    ensures LocalOf(Act(w, SendEndReq(d, p)), q) ==
      if q != p then LocalOf(w, q) else
      var l := LocalOf(w, p); l.(down := Some(EndReq), bwAcc := l.bwAcc + 1)
  {
    hide LocalOk, Known;
    SendBwFits(w, d, p);
    PhasesUpdated(w.down, p, EndReq, q);
  }

  lemma SendBeginRespStep(w: World, d: nat, p: nat, q: nat)
    requires Fits(w) && Enabled(w, SendBeginResp(d, p)) && q in w.up
    ensures Fits(Act(w, SendBeginResp(d, p)))
    ensures LocalOf(Act(w, SendBeginResp(d, p)), q) ==
      if q != p then LocalOf(w, q) else
      var l := LocalOf(w, p); l.(down := Some(BeginResp), bwResp := l.bwResp + 1, downResp := true)
  {
    hide LocalOk, Known;
    SendBwFits(w, d, p);
    PhasesUpdated(w.down, p, BeginResp, q);
  }

  // ---- what handling an event does to each payload

  lemma BeginReqForwarded(w: World, p: nat, q: nat)
    requires Fits(w) && Event(p, BeginReq) in w.bus.fw && q in w.up && p in w.up
    requires w.bus.reqInProgress[w.bus.routes[p].dsock].None?
    ensures Fits(HandleFw(w, Event(p, BeginReq)))
    ensures LocalOf(HandleFw(w, Event(p, BeginReq)), q) ==
      if q != p then LocalOf(w, q) else
      var l := LocalOf(w, p); l.(fwReq := l.fwReq - 1, down := Some(BeginReq), req := true)
  {
    hide LocalOk;
    KnownShrinks(w.bus.fw, w.bus.routes, Event(p, BeginReq));
    PhasesUpdated(w.down, p, BeginReq, q);
  }

  lemma BeginReqHeld(w: World, p: nat, q: nat)
    requires Fits(w) && Event(p, BeginReq) in w.bus.fw && q in w.up && p in w.up
    requires w.bus.reqInProgress[w.bus.routes[p].dsock].Some?
    ensures Fits(HandleFw(w, Event(p, BeginReq)))
    ensures LocalOf(HandleFw(w, Event(p, BeginReq)), q) ==
      if q != p then LocalOf(w, q) else
      var l := LocalOf(w, p); l.(fwReq := l.fwReq - 1, waitReq := l.waitReq + 1, heldReq := true)
  {
    hide LocalOk;
    KnownShrinks(w.bus.fw, w.bus.routes, Event(p, BeginReq));
    CountAppend(w.bus.pendingReq[w.bus.routes[p].dsock], p, q);
  }

  lemma EndRespStep(w: World, p: nat, q: nat)
    requires Fits(w) && Event(p, EndResp) in w.bus.fw && q in w.up && p in w.up && p in w.down
    requires w.bus.pendingResp[w.bus.routes[p].usock] == []
    requires w.bus.respInProgress[w.bus.routes[p].usock] == Some(p)
    requires w.downResp[w.bus.routes[p].dsock] == Some(p)
    ensures Fits(HandleFw(w, Event(p, EndResp)))
    ensures LocalOf(HandleFw(w, Event(p, EndResp)), q) ==
      if q != p then LocalOf(w, q) else
      var l := LocalOf(w, p); l.(fwEnd := l.fwEnd - 1, down := Some(EndResp), resp := false, downResp := false)
  {
    hide LocalOk;
    KnownShrinks(w.bus.fw, w.bus.routes, Event(p, EndResp));
    PhasesUpdated(w.down, p, EndResp, q);
  }

  lemma EndRespPopsWorld(w: World, p: nat, pl: nat)
    requires Fits(w) && Event(p, EndResp) in w.bus.fw && p in w.up && p in w.down && pl in w.up
    requires w.bus.pendingResp[w.bus.routes[p].usock] != [] && w.bus.pendingResp[w.bus.routes[p].usock][0] == pl
    ensures var (u, d) := (w.bus.routes[p].usock, w.bus.routes[p].dsock);
      HandleFw(w, Event(p, EndResp)) ==
      w.(bus := w.bus.(fw := w.bus.fw - multiset{Event(p, EndResp)}, bw := w.bus.bw + multiset{Event(pl, BeginResp)},
                       respInProgress := w.bus.respInProgress[u := Some(pl)],
                       pendingResp := w.bus.pendingResp[u := w.bus.pendingResp[u][1..]]),
         down := w.down[p := EndResp], downResp := w.downResp[d := None],
         violated := HandleFw(w, Event(p, EndResp)).violated)
    ensures Fits(HandleFw(w, Event(p, EndResp)))
  {
    KnownShrinks(w.bus.fw, w.bus.routes, Event(p, EndResp));
    KnownGrows(w.bus.bw, w.bus.routes, Event(pl, BeginResp), w.bus.routes[pl]);
  }

  lemma EndRespPopsStep(w: World, p: nat, pl: nat, q: nat)
    requires Fits(w) && Event(p, EndResp) in w.bus.fw && q in w.up && p in w.up && p in w.down
    requires w.bus.pendingResp[w.bus.routes[p].usock] != [] && w.bus.pendingResp[w.bus.routes[p].usock][0] == pl
    requires w.bus.respInProgress[w.bus.routes[p].usock] == Some(p)
    requires w.downResp[w.bus.routes[p].dsock] == Some(p)
    requires pl != p && pl in w.up && w.bus.routes[pl].usock == w.bus.routes[p].usock
    ensures Fits(HandleFw(w, Event(p, EndResp)))
    ensures LocalOf(HandleFw(w, Event(p, EndResp)), q) ==
      var l := LocalOf(w, q);
      if q == p then l.(fwEnd := l.fwEnd - 1, down := Some(EndResp), resp := false, downResp := false)
      else if q == pl then l.(waitResp := l.waitResp - 1, bwResp := l.bwResp + 1, resp := true)
      else l
  {
    hide LocalOk, HandleFw, Known;
    EndRespPopsWorld(w, p, pl);
    PhasesUpdated(w.down, p, EndResp, q);
    CountPop(w.bus.pendingResp[w.bus.routes[p].usock], q);
  }

  lemma EndReqStep(w: World, p: nat, q: nat)
    requires Fits(w) && Event(p, EndReq) in w.bus.bw && q in w.up && p in w.up
    requires w.bus.pendingReq[w.bus.routes[p].dsock] == []
    requires w.bus.reqInProgress[w.bus.routes[p].dsock] == Some(p)
    requires w.upReq[w.bus.routes[p].usock] == Some(p)
    ensures Fits(HandleBw(w, Event(p, EndReq)))
    ensures LocalOf(HandleBw(w, Event(p, EndReq)), q) ==
      if q != p then LocalOf(w, q) else
      var l := LocalOf(w, p); l.(bwAcc := l.bwAcc - 1, up := Some(EndReq), req := false, upReq := false)
  {
    hide LocalOk;
    KnownShrinks(w.bus.bw, w.bus.routes, Event(p, EndReq));
    PhasesUpdated(w.up, p, EndReq, q);
  }

  lemma EndReqPopsWorld(w: World, p: nat, pl: nat)
    requires Fits(w) && Event(p, EndReq) in w.bus.bw && p in w.up && pl in w.up
    requires w.bus.pendingReq[w.bus.routes[p].dsock] != [] && w.bus.pendingReq[w.bus.routes[p].dsock][0] == pl
    requires w.bus.routes[pl].dsock == w.bus.routes[p].dsock
    ensures var (u, d) := (w.bus.routes[p].usock, w.bus.routes[p].dsock);
      HandleBw(w, Event(p, EndReq)) ==
      w.(bus := w.bus.(bw := w.bus.bw - multiset{Event(p, EndReq)}, fw := w.bus.fw + multiset{Event(pl, BeginReq)},
                       reqInProgress := w.bus.reqInProgress[d := Some(pl)],
                       pendingReq := w.bus.pendingReq[d := w.bus.pendingReq[d][1..]]),
         up := w.up[p := EndReq], upReq := w.upReq[u := None],
         violated := HandleBw(w, Event(p, EndReq)).violated)
    ensures Fits(HandleBw(w, Event(p, EndReq)))
  {
    KnownShrinks(w.bus.bw, w.bus.routes, Event(p, EndReq));
    KnownGrows(w.bus.fw, w.bus.routes, Event(pl, BeginReq), w.bus.routes[pl]);
  }

  lemma EndReqPopsStep(w: World, p: nat, pl: nat, q: nat)
    requires Fits(w) && Event(p, EndReq) in w.bus.bw && q in w.up && p in w.up
    requires w.bus.pendingReq[w.bus.routes[p].dsock] != [] && w.bus.pendingReq[w.bus.routes[p].dsock][0] == pl
    requires w.bus.reqInProgress[w.bus.routes[p].dsock] == Some(p)
    requires w.upReq[w.bus.routes[p].usock] == Some(p)
    requires pl != p && pl in w.up && w.bus.routes[pl].dsock == w.bus.routes[p].dsock
    ensures Fits(HandleBw(w, Event(p, EndReq)))
    ensures LocalOf(HandleBw(w, Event(p, EndReq)), q) ==
      var l := LocalOf(w, q);
      if q == p then l.(bwAcc := l.bwAcc - 1, up := Some(EndReq), req := false, upReq := false)
      else if q == pl then l.(waitReq := l.waitReq - 1, fwReq := l.fwReq + 1, req := true)
      else l
  {
    hide LocalOk, HandleBw, Known;
    EndReqPopsWorld(w, p, pl);
    PhasesUpdated(w.up, p, EndReq, q);
    CountPop(w.bus.pendingReq[w.bus.routes[p].dsock], q);
  }

  function WithReleased(w: World, p: nat): seq<Option<nat>>
    requires Fits(w) && p in w.up
  {
    var d := w.bus.routes[p].dsock;
    if w.bus.reqInProgress[d] == Some(p) then w.bus.reqInProgress[d := None] else w.bus.reqInProgress
  }

  lemma BeginRespForwardedWorld(w: World, p: nat)
    requires Fits(w) && Event(p, BeginResp) in w.bus.bw && p in w.up
    requires w.bus.respInProgress[w.bus.routes[p].usock].None?
    ensures var u := w.bus.routes[p].usock;
      HandleBw(w, Event(p, BeginResp)) ==
      w.(bus := w.bus.(bw := w.bus.bw - multiset{Event(p, BeginResp)}, reqInProgress := WithReleased(w, p),
                       respInProgress := w.bus.respInProgress[u := Some(p)]),
         up := w.up[p := BeginResp], upResp := w.upResp[u := Some(p)],
         upReq := if w.upReq[u] == Some(p) then w.upReq[u := None] else w.upReq,
         violated := HandleBw(w, Event(p, BeginResp)).violated)
    ensures Fits(HandleBw(w, Event(p, BeginResp)))
  {
    KnownShrinks(w.bus.bw, w.bus.routes, Event(p, BeginResp));
  }

  lemma BeginRespForwarded(w: World, p: nat, q: nat)
    requires Fits(w) && Event(p, BeginResp) in w.bus.bw && q in w.up && p in w.up
    requires w.bus.respInProgress[w.bus.routes[p].usock].None? && w.upResp[w.bus.routes[p].usock].None?
    ensures Fits(HandleBw(w, Event(p, BeginResp)))
    ensures LocalOf(HandleBw(w, Event(p, BeginResp)), q) ==
      if q != p then LocalOf(w, q) else
      var l := LocalOf(w, p); l.(bwResp := l.bwResp - 1, up := Some(BeginResp),
        req := false, resp := true, upResp := true,
              upReq := false)
  {
    hide LocalOk, HandleBw, Known;
    BeginRespForwardedWorld(w, p);
    var r := w.bus.routes[q];
    assert (WithReleased(w, p)[r.dsock] == Some(q)) == (if q == p then false
      else w.bus.reqInProgress[r.dsock] == Some(q));
    PhasesUpdated(w.up, p, BeginResp, q);
  }

  lemma BeginRespHeldWorld(w: World, p: nat)
    requires Fits(w) && Event(p, BeginResp) in w.bus.bw && p in w.up
    requires w.bus.respInProgress[w.bus.routes[p].usock].Some?
    ensures var u := w.bus.routes[p].usock;
      HandleBw(w, Event(p, BeginResp)) ==
      w.(bus := w.bus.(bw := w.bus.bw - multiset{Event(p, BeginResp)}, reqInProgress := WithReleased(w, p),
                       pendingResp := w.bus.pendingResp[u := w.bus.pendingResp[u] + [p]]),
         queuedResp := w.queuedResp + {p})
    ensures Fits(HandleBw(w, Event(p, BeginResp)))
  {
    KnownShrinks(w.bus.bw, w.bus.routes, Event(p, BeginResp));
  }

  lemma BeginRespHeld(w: World, p: nat, q: nat)
    requires Fits(w) && Event(p, BeginResp) in w.bus.bw && q in w.up && p in w.up
    requires w.bus.respInProgress[w.bus.routes[p].usock].Some?
    ensures Fits(HandleBw(w, Event(p, BeginResp)))
    ensures LocalOf(HandleBw(w, Event(p, BeginResp)), q) ==
      if q != p then LocalOf(w, q) else
      var l := LocalOf(w, p); l.(bwResp := l.bwResp - 1, req := false, waitResp := l.waitResp + 1, heldResp := true)
  {
    hide LocalOk, HandleBw, Known;
    BeginRespHeldWorld(w, p);
    CountAppend(w.bus.pendingResp[w.bus.routes[p].usock], p, q);
    var r := w.bus.routes[q];
    assert (WithReleased(w, p)[r.dsock] == Some(q)) == (if q == p then false
      else w.bus.reqInProgress[r.dsock] == Some(q));
  }

  // ---- a payload's view stays sound: the protocol, one payload at a time

  lemma StageNew(l: Local)
    requires l == Local(Some(BeginReq), None, 1, 0, 0, 0, 0, 0, false, false, true, false, l.downResp, false, false)
    ensures LocalOk(l)
  {
  }

  lemma StageSends(l: Local)
    requires LocalOk(l)
    ensures l.up == Some(BeginResp) ==> LocalOk(l.(up := Some(EndResp), fwEnd := l.fwEnd + 1, upResp := false))
    ensures l.down == Some(BeginReq) ==> LocalOk(l.(down := Some(EndReq), bwAcc := l.bwAcc + 1))
    ensures l.down == Some(BeginReq) || l.down == Some(EndReq) ==>
              LocalOk(l.(down := Some(BeginResp), bwResp := l.bwResp + 1, downResp := true))
  {
    match l.up.value
    case BeginReq => case EndReq => case BeginResp => case EndResp =>
  }

  lemma StageHandlesFw(l: Local)
    requires LocalOk(l)
    ensures l.fwReq > 0 && !l.heldReq ==> LocalOk(l.(fwReq := l.fwReq - 1, down := Some(BeginReq), req := true))
    ensures l.fwReq > 0 ==> LocalOk(l.(fwReq := l.fwReq - 1, waitReq := l.waitReq + 1, heldReq := true))
    ensures l.fwEnd > 0 ==> LocalOk(l.(fwEnd := l.fwEnd - 1, down := Some(EndResp), resp := false, downResp := false))
  {
  }

  lemma StageHandlesBw(l: Local)
    requires LocalOk(l)
    ensures l.bwAcc > 0 ==> LocalOk(l.(bwAcc := l.bwAcc - 1, up := Some(EndReq), req := false, upReq := false))
    ensures l.bwResp > 0 && !l.heldResp && l.bwAcc == 0 ==>
              LocalOk(l.(bwResp := l.bwResp - 1, up := Some(BeginResp), req := false,
                resp := true, upResp := true, upReq := false))
    ensures l.bwResp > 0 && l.bwAcc == 0 ==>
              LocalOk(l.(bwResp := l.bwResp - 1, req := false, waitResp := l.waitResp + 1, heldResp := true))
  {
    match l.up.value
    case BeginReq => case EndReq => case BeginResp => case EndResp =>
  }

  /** A payload leaves a hold queue straight into its socket's slot. */
  lemma StagePops(l: Local)
    requires LocalOk(l)
    ensures l.waitReq > 0 ==> LocalOk(l.(waitReq := l.waitReq - 1, fwReq := l.fwReq + 1, req := true))
    ensures l.waitResp > 0 ==> LocalOk(l.(waitResp := l.waitResp - 1, bwResp := l.bwResp + 1, resp := true))
  {
  }

  // ---- no step breaks a payload's view

  lemma SendBeginReqLocals(w: World, u: nat, d: nat, p: nat)
    requires Fits(w) && Homed(w) && AllLocal(w) && Enabled(w, SendBeginReq(u, d, p))
    ensures Fits(Act(w, SendBeginReq(u, d, p))) && AllLocal(Act(w, SendBeginReq(u, d, p)))
  {
    hide LocalOk, LocalOf, Homed;
    var w' := Act(w, SendBeginReq(u, d, p));
    SendBeginReqNew(w, u, d, p);
    StageNew(LocalOf(w', p));
    forall q | q in w'.up && q != p ensures LocalOk(LocalOf(w', q)) {
      SendBeginReqOthers(w, u, d, p, q);
    }
  }

  lemma Views(w: World, p: nat)
    requires Fits(w) && p in w.up
    ensures LocalOf(w, p).up == Some(w.up[p]) && (p in w.down ==> LocalOf(w, p).down == Some(w.down[p]))
    ensures (LocalOf(w, p).down.Some? <==> p in w.down) && LocalOf(w, p).fwReq == w.bus.fw[Event(p, BeginReq)]
    ensures LocalOf(w, p).fwEnd == w.bus.fw[Event(p, EndResp)] && LocalOf(w, p).bwAcc == w.bus.bw[Event(p, EndReq)]
    ensures LocalOf(w, p).bwResp == w.bus.bw[Event(p, BeginResp)]
    ensures LocalOf(w, p).req == (w.bus.reqInProgress[w.bus.routes[p].dsock] == Some(p))
    ensures LocalOf(w, p).resp == (w.bus.respInProgress[w.bus.routes[p].usock] == Some(p))
  {
  }

  lemma UpRespHome(w: World, u: nat)
    requires Fits(w) && Homed(w) && u < |w.upResp| && w.upResp[u].Some?
    ensures var p := w.upResp[u].value; p in w.up && w.up[p] == BeginResp && w.bus.routes[p].usock == u
  {
  }

  lemma SendEndRespLocals(w: World, u: nat, p: nat)
    requires Fits(w) && Homed(w) && AllLocal(w) && Enabled(w, SendEndResp(u, p))
    ensures Fits(Act(w, SendEndResp(u, p))) && AllLocal(Act(w, SendEndResp(u, p)))
  {
    hide LocalOk, LocalOf, Homed;
    UpRespHome(w, u);
    SendEndRespStep(w, u, p, p);
    Views(w, p);
    StageSends(LocalOf(w, p));
    forall q | q in Act(w, SendEndResp(u, p)).up && q != p ensures LocalOk(LocalOf(Act(w, SendEndResp(u, p)), q)) {
      SendEndRespStep(w, u, p, q);
    }
  }

  lemma SendEndReqLocals(w: World, d: nat, p: nat)
    requires Fits(w) && Homed(w) && AllLocal(w) && Enabled(w, SendEndReq(d, p))
    ensures Fits(Act(w, SendEndReq(d, p))) && AllLocal(Act(w, SendEndReq(d, p)))
  {
    hide LocalOk, LocalOf, Homed;
    SendEndReqStep(w, d, p, p);
    Views(w, p);
    StageSends(LocalOf(w, p));
    forall q | q in Act(w, SendEndReq(d, p)).up && q != p ensures LocalOk(LocalOf(Act(w, SendEndReq(d, p)), q)) {
      SendEndReqStep(w, d, p, q);
    }
  }

  lemma SendBeginRespLocals(w: World, d: nat, p: nat)
    requires Fits(w) && Homed(w) && AllLocal(w) && Enabled(w, SendBeginResp(d, p))
    ensures Fits(Act(w, SendBeginResp(d, p))) && AllLocal(Act(w, SendBeginResp(d, p)))
  {
    hide LocalOk, LocalOf, Homed;
    SendBeginRespStep(w, d, p, p);
    Views(w, p);
    StageSends(LocalOf(w, p));
    forall q | q in Act(w, SendBeginResp(d, p)).up && q != p ensures LocalOk(LocalOf(Act(w, SendBeginResp(d, p)), q)) {
      SendBeginRespStep(w, d, p, q);
    }
  }

  /** What the tokens in the queues say about a payload. */
  lemma StageFacts(l: Local)
    requires LocalOk(l)
    ensures l.fwReq > 0 ==> l.down.None? && l.fwReq == 1 && (l.heldReq ==> l.req)
    ensures l.fwEnd > 0 ==> l.up == Some(EndResp) && l.down == Some(BeginResp) && l.resp && l.downResp
    ensures l.bwAcc > 0 ==> l.up == Some(BeginReq) && l.req && l.upReq && l.down.Some?
    ensures l.bwResp > 0 ==> l.down == Some(BeginResp) && l.bwResp == 1 && (l.heldResp ==> l.resp)
    ensures l.bwResp > 0 ==> l.up == Some(BeginReq) || l.up == Some(EndReq)
    ensures l.waitReq > 0 ==> l.down.None? && l.bwAcc == 0
    ensures l.waitResp > 0 ==> l.up == Some(BeginReq) || l.up == Some(EndReq)
    ensures l.up == Some(BeginResp) ==> l.resp
    ensures l.down == Some(BeginReq) ==> l.req
    ensures l.heldReq ==> l.down.None?
    ensures l.req ==> l.up == Some(BeginReq) && (l.down.None? ==> l.heldReq)
    ensures l.resp ==> l.down == Some(BeginResp) && (l.bwResp > 0 ==> l.heldResp)
    ensures l.down.None? ==> l.up == Some(BeginReq)
    ensures l.up == Some(BeginReq) ==> l.upReq
    ensures l.down == Some(BeginResp) ==> l.downResp
    ensures l.heldResp ==> l.up == Some(BeginReq) || l.up == Some(EndReq)
  {
  }

  lemma Sockets(w: World, p: nat)
    requires Fits(w) && p in w.up
    ensures LocalOf(w, p).upReq == (w.upReq[w.bus.routes[p].usock] == Some(p))
    ensures LocalOf(w, p).upResp == (w.upResp[w.bus.routes[p].usock] == Some(p))
    ensures LocalOf(w, p).downResp == (w.downResp[w.bus.routes[p].dsock] == Some(p))
    ensures LocalOf(w, p).heldReq == (p in w.queuedReq) && LocalOf(w, p).heldResp == (p in w.queuedResp)
  {
  }

  lemma WaitingReq(w: World, d: nat)
    requires Fits(w) && Homed(w) && d < |w.bus.pendingReq| && w.bus.pendingReq[d] != []
    ensures var pl := w.bus.pendingReq[d][0]; pl in w.up && w.bus.routes[pl].dsock == d && LocalOf(w, pl).waitReq > 0
  {
    assert w.bus.pendingReq[d][0] in w.bus.pendingReq[d];
  }

  lemma WaitingResp(w: World, u: nat)
    requires Fits(w) && Homed(w) && u < |w.bus.pendingResp| && w.bus.pendingResp[u] != []
    ensures var pl := w.bus.pendingResp[u][0]; pl in w.up && w.bus.routes[pl].usock == u && LocalOf(w, pl).waitResp > 0
  {
    assert w.bus.pendingResp[u][0] in w.bus.pendingResp[u];
  }

  /** The checkers' slots follow the bus's own: an idle bus socket is idle for the checkers too. */
  lemma SlotsAgree(w: World, u: nat, d: nat)
    requires Fits(w) && Homed(w) && AllLocal(w) && u < |w.upResp| && d < |w.downReq|
    ensures w.bus.respInProgress[u].None? ==> w.upResp[u].None?
    ensures w.bus.reqInProgress[d].None? ==> w.downReq[d].None?
  {
    hide LocalOk, LocalOf;
    if w.upResp[u].Some? {
      var p := w.upResp[u].value;
      Views(w, p);
      StageFacts(LocalOf(w, p));
    }
    if w.downReq[d].Some? {
      var p := w.downReq[d].value;
      Views(w, p);
      StageFacts(LocalOf(w, p));
    }
  }

  lemma HandlingKeepsKeys(w: World, e: Event)
    requires Fits(w) && e.p in w.up
    ensures e in w.bus.fw ==> HandleFw(w, e).up.Keys == w.up.Keys
    ensures e in w.bus.bw ==> HandleBw(w, e).up.Keys == w.up.Keys
  {
  }

  lemma BeginReqLocals(w: World, p: nat)
    requires Fits(w) && AllLocal(w) && Event(p, BeginReq) in w.bus.fw
    ensures Fits(HandleFw(w, Event(p, BeginReq))) && AllLocal(HandleFw(w, Event(p, BeginReq)))
  {
    hide LocalOk, LocalOf, HandleFw;
    var w' := HandleFw(w, Event(p, BeginReq));
    HandlingKeepsKeys(w, Event(p, BeginReq));
    Views(w, p);
    Sockets(w, p);
    StageFacts(LocalOf(w, p));
    StageHandlesFw(LocalOf(w, p));
    if w.bus.reqInProgress[w.bus.routes[p].dsock].None? {
      BeginReqForwarded(w, p, p);
      forall q | q in w'.up && q != p ensures LocalOk(LocalOf(w', q)) {
        BeginReqForwarded(w, p, q);
      }
    } else {
      BeginReqHeld(w, p, p);
      forall q | q in w'.up && q != p ensures LocalOk(LocalOf(w', q)) {
        BeginReqHeld(w, p, q);
      }
    }
  }

  lemma EndRespLocals(w: World, p: nat)
    requires Fits(w) && Homed(w) && AllLocal(w) && Event(p, EndResp) in w.bus.fw
    ensures Fits(HandleFw(w, Event(p, EndResp))) && AllLocal(HandleFw(w, Event(p, EndResp)))
  {
    hide LocalOk, LocalOf, Homed, HandleFw;
    var w' := HandleFw(w, Event(p, EndResp));
    HandlingKeepsKeys(w, Event(p, EndResp));
    Views(w, p);
    Sockets(w, p);
    StageFacts(LocalOf(w, p));
    StageHandlesFw(LocalOf(w, p));
    var u := w.bus.routes[p].usock;
    if w.bus.pendingResp[u] == [] {
      EndRespStep(w, p, p);
      forall q | q in w'.up && q != p ensures LocalOk(LocalOf(w', q)) {
        EndRespStep(w, p, q);
      }
    } else {
      var pl := w.bus.pendingResp[u][0];
      WaitingResp(w, u);
      StageFacts(LocalOf(w, pl));
      StagePops(LocalOf(w, pl));
      EndRespPopsStep(w, p, pl, p);
      forall q | q in w'.up && q != p ensures LocalOk(LocalOf(w', q)) {
        EndRespPopsStep(w, p, pl, q);
      }
    }
  }

  lemma EndReqLocals(w: World, p: nat)
    requires Fits(w) && Homed(w) && AllLocal(w) && Event(p, EndReq) in w.bus.bw
    ensures Fits(HandleBw(w, Event(p, EndReq))) && AllLocal(HandleBw(w, Event(p, EndReq)))
  {
    hide LocalOk, LocalOf, Homed, HandleBw;
    var w' := HandleBw(w, Event(p, EndReq));
    HandlingKeepsKeys(w, Event(p, EndReq));
    Views(w, p);
    Sockets(w, p);
    StageFacts(LocalOf(w, p));
    StageHandlesBw(LocalOf(w, p));
    var d := w.bus.routes[p].dsock;
    if w.bus.pendingReq[d] == [] {
      EndReqStep(w, p, p);
      forall q | q in w'.up && q != p ensures LocalOk(LocalOf(w', q)) {
        EndReqStep(w, p, q);
      }
    } else {
      var pl := w.bus.pendingReq[d][0];
      WaitingReq(w, d);
      StageFacts(LocalOf(w, pl));
      StagePops(LocalOf(w, pl));
      EndReqPopsStep(w, p, pl, p);
      forall q | q in w'.up && q != p ensures LocalOk(LocalOf(w', q)) {
        EndReqPopsStep(w, p, pl, q);
      }
    }
  }

  lemma BeginRespLocals(w: World, p: nat)
    requires Fits(w) && Homed(w) && AllLocal(w) && Event(p, BeginResp) in w.bus.bw && Event(p, EndReq) !in w.bus.bw
    ensures Fits(HandleBw(w, Event(p, BeginResp))) && AllLocal(HandleBw(w, Event(p, BeginResp)))
  {
    hide LocalOk, LocalOf, Homed, HandleBw;
    var w' := HandleBw(w, Event(p, BeginResp));
    HandlingKeepsKeys(w, Event(p, BeginResp));
    Views(w, p);
    Sockets(w, p);
    StageFacts(LocalOf(w, p));
    StageHandlesBw(LocalOf(w, p));
    SlotsAgree(w, w.bus.routes[p].usock, w.bus.routes[p].dsock);
    if w.bus.respInProgress[w.bus.routes[p].usock].None? {
      BeginRespForwarded(w, p, p);
      forall q | q in w'.up && q != p ensures LocalOk(LocalOf(w', q)) {
        BeginRespForwarded(w, p, q);
      }
    } else {
      BeginRespHeld(w, p, p);
      forall q | q in w'.up && q != p ensures LocalOk(LocalOf(w', q)) {
        BeginRespHeld(w, p, q);
      }
    }
  }

  // ---- no step raises an alarm, and queues and slots stay at home

  lemma RoutesGrow(b: Bus, p: nat, r: Route)
    requires QueuesHome(b) && p !in b.routes
    ensures ReqsHome(b.pendingReq, b.routes[p := r]) && RespsHome(b.pendingResp, b.routes[p := r])
    ensures ReqSlotsHome(b.reqInProgress, b.routes[p := r]) && RespSlotsHome(b.respInProgress, b.routes[p := r])
  {
  }

  lemma HoldsStill(m: multiset<Event>, e: Event, x: Phase, y: Phase)
    requires Holds(m, x, y)
    ensures e.phase == x || e.phase == y ==> Holds(m + multiset{e}, x, y)
    ensures Holds(m - multiset{e}, x, y)
  {
  }

  lemma SendsKeepQueuesHome(w: World, a: Action)
    requires Fits(w) && QueuesHome(w.bus) && EventsHome(w.bus) && Enabled(w, a) && !a.DeliverFw? && !a.DeliverBw?
    ensures QueuesHome(Act(w, a).bus) && EventsHome(Act(w, a).bus)
  {
    hide ReqsHome, RespsHome, ReqSlotsHome, RespSlotsHome, Holds, Sized, Known;
    match a
    case SendBeginReq(u, d, p) =>
      RoutesGrow(w.bus, p, Route(u, d));
      HoldsStill(w.bus.fw, Event(p, BeginReq), BeginReq, EndResp);
    case SendEndResp(u, p) => HoldsStill(w.bus.fw, Event(p, EndResp), BeginReq, EndResp);
    case SendEndReq(d, p) => HoldsStill(w.bus.bw, Event(p, EndReq), EndReq, BeginResp);
    case SendBeginResp(d, p) => HoldsStill(w.bus.bw, Event(p, BeginResp), EndReq, BeginResp);
  }

  lemma SendsKeepSlotsHome(w: World, a: Action)
    requires Fits(w) && Enabled(w, a) && !a.DeliverFw? && !a.DeliverBw? && Fits(Act(w, a))
    requires UpSlotsHome(w) && DownSlotsHome(w)
    ensures UpSlotsHome(Act(w, a)) && DownSlotsHome(Act(w, a))
  {
    hide Fits, Act, Enabled, UpSlotsHome, DownSlotsHome;
    SendsKeepUpHome(w, a);
    SendsKeepDownHome(w, a);
  }

  lemma SendsKeepUpHome(w: World, a: Action)
    requires Fits(w) && Enabled(w, a) && !a.DeliverFw? && !a.DeliverBw? && Fits(Act(w, a)) && UpSlotsHome(w)
    ensures UpSlotsHome(Act(w, a))
  {
    hide Known;
  }

  lemma SendsKeepDownHome(w: World, a: Action)
    requires Fits(w) && Enabled(w, a) && !a.DeliverFw? && !a.DeliverBw? && Fits(Act(w, a)) && DownSlotsHome(w)
    ensures DownSlotsHome(Act(w, a))
  {
    hide Known;
  }

  lemma SendsRaiseNothing(w: World, a: Action)
    requires Inv(w) && Enabled(w, a) && !a.DeliverFw? && !a.DeliverBw?
    ensures !Act(w, a).violated
  {
    hide LocalOk, LocalOf;
    match a
    case SendEndResp(u, p) =>
      Views(w, p);
      StageFacts(LocalOf(w, p));
    case _ =>
  }

  lemma ReqQueueChanges(queues: seq<seq<nat>>, routes: map<nat, Route>, d: nat, p: nat)
    requires ReqsHome(queues, routes) && d < |queues|
    ensures p in routes && routes[p].dsock == d ==> ReqsHome(queues[d := queues[d] + [p]], routes)
    ensures queues[d] != [] ==> ReqsHome(queues[d := queues[d][1..]], routes)
    ensures queues[d] != [] ==> queues[d][0] in routes && routes[queues[d][0]].dsock == d
  {
  }

  lemma RespQueueChanges(queues: seq<seq<nat>>, routes: map<nat, Route>, u: nat, p: nat)
    requires RespsHome(queues, routes) && u < |queues|
    ensures p in routes && routes[p].usock == u ==> RespsHome(queues[u := queues[u] + [p]], routes)
    ensures queues[u] != [] ==> RespsHome(queues[u := queues[u][1..]], routes)
    ensures queues[u] != [] ==> queues[u][0] in routes && routes[queues[u][0]].usock == u
  {
  }

  lemma SlotsChange(b: Bus, u: nat, d: nat, p: nat)
    requires Sized(b) && QueuesHome(b) && u < |b.respInProgress| && d < |b.reqInProgress|
    ensures ReqSlotsHome(b.reqInProgress[d := None], b.routes) && RespSlotsHome(b.respInProgress[u := None], b.routes)
    ensures p in b.routes && b.routes[p].dsock == d ==> ReqSlotsHome(b.reqInProgress[d := Some(p)], b.routes)
    ensures p in b.routes && b.routes[p].usock == u ==> RespSlotsHome(b.respInProgress[u := Some(p)], b.routes)
  {
    hide ReqsHome, RespsHome;
  }

  lemma HandlingKeepsQueuesHome(b: Bus, p: nat)
    requires Sized(b) && QueuesHome(b) && p in b.routes
    ensures QueuesHome(FwCallback(b, p, BeginReq).bus) && QueuesHome(FwCallback(b, p, EndResp).bus)
    ensures QueuesHome(BwCallback(b, p, EndReq).bus) && QueuesHome(BwCallback(b, p, BeginResp).bus)
  {
    hide ReqsHome, RespsHome, ReqSlotsHome, RespSlotsHome;
    var (u, d) := (b.routes[p].usock, b.routes[p].dsock);
    ReqQueueChanges(b.pendingReq, b.routes, d, p);
    RespQueueChanges(b.pendingResp, b.routes, u, p);
    SlotsChange(b, u, d, p);
    if b.pendingReq[d] != [] { SlotsChange(b, u, d, b.pendingReq[d][0]); }
    if b.pendingResp[u] != [] { SlotsChange(b, u, d, b.pendingResp[u][0]); }
  }

  lemma HandlingKeepsEventsHome(b: Bus, p: nat, phase: Phase)
    requires Sized(b) && EventsHome(b) && p in b.routes
    ensures EventsHome(FwCallback(b, p, phase).bus) && EventsHome(BwCallback(b, p, phase).bus)
  {
    hide Holds;
    var (u, d) := (b.routes[p].usock, b.routes[p].dsock);
    if b.pendingReq[d] != [] { HoldsStill(b.fw, Event(b.pendingReq[d][0], BeginReq), BeginReq, EndResp); }
    if b.pendingResp[u] != [] { HoldsStill(b.bw, Event(b.pendingResp[u][0], BeginResp), EndReq, BeginResp); }
  }

  lemma HandleFwKeepsSlotsHome(w: World, e: Event)
    requires Fits(w) && UpSlotsHome(w) && DownSlotsHome(w) && e in w.bus.fw && Fits(HandleFw(w, e))
    requires PhaseOf(w.down, e.p) != Some(BeginReq)
    ensures UpSlotsHome(HandleFw(w, e)) && DownSlotsHome(HandleFw(w, e))
  {
    hide HandleFw, Fits, UpSlotsHome, DownSlotsHome;
    HandleFwKeepsUpHome(w, e);
    HandleFwKeepsDownHome(w, e);
  }

  lemma HandleFwKeepsUpHome(w: World, e: Event)
    requires Fits(w) && UpSlotsHome(w) && e in w.bus.fw && Fits(HandleFw(w, e))
    ensures UpSlotsHome(HandleFw(w, e))
  {
    hide Known;
  }

  lemma HandleFwKeepsDownHome(w: World, e: Event)
    requires Fits(w) && DownSlotsHome(w) && e in w.bus.fw && Fits(HandleFw(w, e))
    requires PhaseOf(w.down, e.p) != Some(BeginReq)
    ensures DownSlotsHome(HandleFw(w, e))
  {
    hide Known;
  }

  lemma EndReqKeepsSlotsHome(w: World, p: nat)
    requires Fits(w) && UpSlotsHome(w) && DownSlotsHome(w)
    requires Event(p, EndReq) in w.bus.bw && Fits(HandleBw(w, Event(p, EndReq)))
    requires p in w.up && w.up[p] != BeginResp
    ensures UpSlotsHome(HandleBw(w, Event(p, EndReq))) && DownSlotsHome(HandleBw(w, Event(p, EndReq)))
  {
    hide Known;
  }

  lemma BeginRespKeepsSlotsHome(w: World, p: nat)
    requires Fits(w) && UpSlotsHome(w) && DownSlotsHome(w)
    requires Event(p, BeginResp) in w.bus.bw && Fits(HandleBw(w, Event(p, BeginResp)))
    requires p in w.up && w.up[p] != BeginResp
    ensures UpSlotsHome(HandleBw(w, Event(p, BeginResp))) && DownSlotsHome(HandleBw(w, Event(p, BeginResp)))
  {
    hide Known;
  }

  lemma HandleFwRaisesNothing(w: World, e: Event)
    requires Inv(w) && e in w.bus.fw
    ensures !HandleFw(w, e).violated
  {
    hide LocalOk, LocalOf;
    Views(w, e.p);
    StageFacts(LocalOf(w, e.p));
    SlotsAgree(w, w.bus.routes[e.p].usock, w.bus.routes[e.p].dsock);
  }

  lemma HandleBwRaisesNothing(w: World, e: Event)
    requires Inv(w) && e in w.bus.bw
    ensures !HandleBw(w, e).violated
  {
    hide LocalOk, LocalOf;
    Views(w, e.p);
    StageFacts(LocalOf(w, e.p));
    SlotsAgree(w, w.bus.routes[e.p].usock, w.bus.routes[e.p].dsock);
  }

  // ---------------------------------------------------------------- every run

  lemma SendsKeepInv(w: World, a: Action)
    requires Inv(w) && Enabled(w, a) && !a.DeliverFw? && !a.DeliverBw?
    ensures Inv(Act(w, a))
  {
    hide LocalOk, AllLocal, QueuesHome, EventsHome, UpSlotsHome, DownSlotsHome;
    match a {
      case SendBeginReq(u, d, p) => SendBeginReqLocals(w, u, d, p);
      case SendEndResp(u, p) => SendEndRespLocals(w, u, p);
      case SendEndReq(d, p) => SendEndReqLocals(w, d, p);
      case SendBeginResp(d, p) => SendBeginRespLocals(w, d, p);
    }
    SendsKeepQueuesHome(w, a);
    SendsKeepSlotsHome(w, a);
    SendsRaiseNothing(w, a);
  }

  lemma EventKinds(w: World, e: Event)
    requires Fits(w) && EventsHome(w.bus)
    ensures e in w.bus.fw ==> e.p in w.up && (e.phase == BeginReq || e.phase == EndResp)
    ensures e in w.bus.bw ==> e.p in w.up && (e.phase == EndReq || e.phase == BeginResp)
  {
  }

  lemma HandleFwQueuesHome(w: World, e: Event)
    requires Fits(w) && Homed(w) && e in w.bus.fw
    ensures QueuesHome(HandleFw(w, e).bus) && EventsHome(HandleFw(w, e).bus)
    ensures HandleFw(w, e).queuedReq <= HandleFw(w, e).up.Keys && HandleFw(w, e).queuedResp <= HandleFw(w, e).up.Keys
  {
    hide ReqsHome, RespsHome, ReqSlotsHome, RespSlotsHome, UpSlotsHome, DownSlotsHome, Holds;
    EventKinds(w, e);
    HandlingKeepsQueuesHome(w.bus.(fw := w.bus.fw - multiset{e}), e.p);
    HoldsStill(w.bus.fw, e, BeginReq, EndResp);
    HandlingKeepsEventsHome(w.bus.(fw := w.bus.fw - multiset{e}), e.p, e.phase);
  }

  lemma HandleBwQueuesHome(w: World, e: Event)
    requires Fits(w) && Homed(w) && e in w.bus.bw
    ensures QueuesHome(HandleBw(w, e).bus) && EventsHome(HandleBw(w, e).bus)
    ensures HandleBw(w, e).queuedReq <= HandleBw(w, e).up.Keys && HandleBw(w, e).queuedResp <= HandleBw(w, e).up.Keys
  {
    hide ReqsHome, RespsHome, ReqSlotsHome, RespSlotsHome, UpSlotsHome, DownSlotsHome, Holds;
    EventKinds(w, e);
    HandlingKeepsQueuesHome(w.bus.(bw := w.bus.bw - multiset{e}), e.p);
    HoldsStill(w.bus.bw, e, EndReq, BeginResp);
    HandlingKeepsEventsHome(w.bus.(bw := w.bus.bw - multiset{e}), e.p, e.phase);
  }

  /** The phases a payload can have when one of its events is handled. */
  lemma BeforeHandling(w: World, p: nat)
    requires Fits(w) && AllLocal(w) && p in w.up
    ensures Event(p, BeginReq) in w.bus.fw ==> PhaseOf(w.down, p).None?
    ensures Event(p, EndResp) in w.bus.fw ==> PhaseOf(w.down, p) == Some(BeginResp)
    ensures Event(p, EndReq) in w.bus.bw || Event(p, BeginResp) in w.bus.bw ==> w.up[p] != BeginResp
  {
    hide LocalOk, LocalOf;
    Views(w, p);
    StageFacts(LocalOf(w, p));
  }

  lemma DeliverBeginReqInv(w: World, p: nat)
    requires Fits(w) && Event(p, BeginReq) in w.bus.fw && Inv(w)
    ensures Inv(HandleFw(w, Event(p, BeginReq)))
  {
    hide LocalOk, LocalOf, HandleFw, QueuesHome, EventsHome, UpSlotsHome, DownSlotsHome, AllLocal, Known, Sized;
    var e := Event(p, BeginReq);
    EventKinds(w, e);
    BeforeHandling(w, p);
    BeginReqLocals(w, p);
    HandleFwQueuesHome(w, e);
    HandleFwKeepsSlotsHome(w, e);
    HandleFwRaisesNothing(w, e);
  }

  lemma DeliverEndRespInv(w: World, p: nat)
    requires Fits(w) && Event(p, EndResp) in w.bus.fw && Inv(w)
    ensures Inv(HandleFw(w, Event(p, EndResp)))
  {
    hide LocalOk, LocalOf, HandleFw, QueuesHome, EventsHome, UpSlotsHome, DownSlotsHome, AllLocal, Known, Sized;
    var e := Event(p, EndResp);
    EventKinds(w, e);
    BeforeHandling(w, p);
    EndRespLocals(w, p);
    HandleFwQueuesHome(w, e);
    HandleFwKeepsSlotsHome(w, e);
    HandleFwRaisesNothing(w, e);
  }

  lemma DeliverEndReqInv(w: World, p: nat)
    requires Fits(w) && Event(p, EndReq) in w.bus.bw && Inv(w)
    ensures Inv(HandleBw(w, Event(p, EndReq)))
  {
    hide LocalOk, LocalOf, HandleBw, QueuesHome, EventsHome, UpSlotsHome, DownSlotsHome, AllLocal, Known, Sized;
    var e := Event(p, EndReq);
    EventKinds(w, e);
    BeforeHandling(w, p);
    EndReqLocals(w, p);
    HandleBwQueuesHome(w, e);
    EndReqKeepsSlotsHome(w, p);
    HandleBwRaisesNothing(w, e);
  }

  lemma DeliverBeginRespInv(w: World, p: nat)
    requires Fits(w) && Event(p, BeginResp) in w.bus.bw && Event(p, EndReq) !in w.bus.bw && Inv(w)
    ensures Inv(HandleBw(w, Event(p, BeginResp)))
  {
    hide LocalOk, LocalOf, HandleBw, QueuesHome, EventsHome, UpSlotsHome, DownSlotsHome, AllLocal, Known, Sized;
    var e := Event(p, BeginResp);
    EventKinds(w, e);
    BeforeHandling(w, p);
    BeginRespLocals(w, p);
    HandleBwQueuesHome(w, e);
    BeginRespKeepsSlotsHome(w, p);
    HandleBwRaisesNothing(w, e);
  }

  lemma DeliverInv(w: World, e: Event)
    requires Fits(w) && Inv(w)
    ensures e in w.bus.fw ==> Inv(HandleFw(w, e))
    ensures e in w.bus.bw && (e.phase == BeginResp ==> Event(e.p, EndReq) !in w.bus.bw) ==> Inv(HandleBw(w, e))
  {
    hide LocalOk, LocalOf, HandleFw, HandleBw, Known, Sized, AllLocal, QueuesHome, UpSlotsHome, DownSlotsHome;
    EventKinds(w, e);
    if e in w.bus.fw {
      if e.phase == BeginReq { DeliverBeginReqInv(w, e.p); } else { DeliverEndRespInv(w, e.p); }
    }
    if e in w.bus.bw {
      if e.phase == EndReq { DeliverEndReqInv(w, e.p); }
      else if Event(e.p, EndReq) !in w.bus.bw { DeliverBeginRespInv(w, e.p); }
    }
  }

  lemma StepInv(w: World, a: Action)
    requires Inv(w) && Enabled(w, a)
    ensures Inv(Act(w, a))
  {
    hide Fits, AllLocal, Homed, HandleFw, HandleBw;
    match a
    case DeliverFw(e) => DeliverInv(w, e);
    case DeliverBw(e) => DeliverInv(w, e);
    case _ => SendsKeepInv(w, a);
  }

  /** A run that starts at `w`: each action is enabled where it is taken. */
  predicate IsRun(w: World, actions: seq<Action>)
    decreases |actions|
  {
    actions == [] || (Fits(w) && Enabled(w, actions[0]) && IsRun(Act(w, actions[0]), actions[1..]))
  }

  function Run(w: World, actions: seq<Action>): World
    requires IsRun(w, actions)
    decreases |actions|
  {
    if actions == [] then w else Run(Act(w, actions[0]), actions[1..])
  }

  lemma {:induction false} RunKeepsInv(w: World, actions: seq<Action>)
    requires Inv(w) && IsRun(w, actions)
    ensures Inv(Run(w, actions))
    decreases |actions|
  {
    hide Inv, Act, Fits;
    if actions != [] {
      StepInv(w, actions[0]);
      RunKeepsInv(Act(w, actions[0]), actions[1..]);
    }
  }

  // ---------------------------------------------------------------- what the protocol's users get

  /** Two payloads in the same exclusive phase on the same socket are the same payload. */
  ghost predicate Exclusive(w: World) {
    && (forall p, q :: Requesting(w, p) && Requesting(w, q) && w.home[p].dsock == w.home[q].dsock ==> p == q)
    && (forall p, q :: Responding(w, p) && Responding(w, q) && w.home[p].usock == w.home[q].usock ==> p == q)
  }

  /** A BEGIN_REQ is outstanding downstream. */
  predicate Requesting(w: World, p: nat) {
    p in w.home && p in w.down && w.down[p] == BeginReq
  }

  /** A BEGIN_RESP is outstanding upstream. */
  predicate Responding(w: World, p: nat) {
    p in w.home && p in w.up && w.up[p] == BeginResp
  }

  lemma ExclusiveByInv(w: World)
    requires Inv(w)
    ensures Exclusive(w)
  {
    hide LocalOk, LocalOf, Homed;
    forall p | p in w.up
      ensures p in w.down && w.down[p] == BeginReq ==> w.bus.reqInProgress[w.home[p].dsock] == Some(p)
      ensures w.up[p] == BeginResp ==> w.bus.respInProgress[w.home[p].usock] == Some(p)
    {
      Views(w, p);
      StageFacts(LocalOf(w, p));
    }
  }

  /**
   Main result for any number of initiators and targets: in every run no checker complains, no
   assertion or fatal report of the bus fires, every call is made on the transaction's own socket,
   and requests and responses are exclusive on each socket.
   */
  lemma NoRunViolates(initiators: nat, targets: nat, actions: seq<Action>)
    requires IsRun(Initial(initiators, targets), actions)
    ensures var w := Run(Initial(initiators, targets), actions); !w.violated && Exclusive(w)
  {
    hide LocalOk, LocalOf, Homed, Act, Exclusive;
    InitialInv(initiators, targets);
    RunKeepsInv(Initial(initiators, targets), actions);
    ExclusiveByInv(Run(Initial(initiators, targets), actions));
  }

  // ---- what happens to a transaction that is put on hold

  lemma HeldGrows(w: World, a: Action)
    requires Fits(w) && Enabled(w, a)
    ensures w.queuedReq <= Act(w, a).queuedReq && w.queuedResp <= Act(w, a).queuedResp
    ensures w.up.Keys <= Act(w, a).up.Keys
  {
    hide HandleFw, HandleBw;
    match a
    case DeliverFw(e) => HeldGrowsByHandling(w, e);
    case DeliverBw(e) => HeldGrowsByHandling(w, e);
    case _ =>
  }

  lemma HeldGrowsByHandling(w: World, e: Event)
    requires Fits(w)
    ensures e in w.bus.fw ==> var w' := HandleFw(w, e);
      w.queuedReq <= w'.queuedReq && w.queuedResp <= w'.queuedResp && w.up.Keys <= w'.up.Keys
    ensures e in w.bus.bw ==> var w' := HandleBw(w, e);
      w.queuedReq <= w'.queuedReq && w.queuedResp <= w'.queuedResp && w.up.Keys <= w'.up.Keys
  {
  }

  /** A request that found its target busy once is never forwarded, however the run goes on. */
  lemma {:induction false} HeldRequestIsLost(w: World, p: nat, actions: seq<Action>)
    requires Inv(w) && p in w.queuedReq && IsRun(w, actions)
    ensures p !in Run(w, actions).down && p in Run(w, actions).up && Run(w, actions).up[p] == BeginReq
    decreases |actions|
  {
    hide LocalOk, Act, Fits, LocalOf;
    if actions == [] {
      HeldNow(w, p);
    } else {
      StepInv(w, actions[0]);
      HeldGrows(w, actions[0]);
      HeldRequestIsLost(Act(w, actions[0]), p, actions[1..]);
    }
  }

  lemma HeldNow(w: World, p: nat)
    requires Inv(w)
    ensures p in w.queuedReq ==> p !in w.down && p in w.up && w.up[p] == BeginReq
    ensures p in w.queuedResp ==> p in w.up && (w.up[p] == BeginReq || w.up[p] == EndReq)
  {
    hide LocalOf;
    if p in w.up {
      Views(w, p);
      Sockets(w, p);
    }
  }

  /** A response that found its initiator busy once is never delivered. */
  lemma {:induction false} HeldResponseIsLost(w: World, p: nat, actions: seq<Action>)
    requires Inv(w) && p in w.queuedResp && IsRun(w, actions)
    ensures p in Run(w, actions).up && (Run(w, actions).up[p] == BeginReq || Run(w, actions).up[p] == EndReq)
    decreases |actions|
  {
    hide LocalOk, Act, Fits, LocalOf;
    if actions == [] {
      HeldNow(w, p);
    } else {
      StepInv(w, actions[0]);
      HeldGrows(w, actions[0]);
      HeldResponseIsLost(Act(w, actions[0]), p, actions[1..]);
    }
  }

  /**
   When its BEGIN_REQ is handled, a request is forwarded exactly if the target's slot is free;
   otherwise it is held.
   */
  lemma ForwardedIffIdle(w: World, p: nat)
    requires Fits(w) && Inv(w) && Event(p, BeginReq) in w.bus.fw
    ensures var idle := w.bus.reqInProgress[w.bus.routes[p].dsock].None?;
      (p in HandleFw(w, Event(p, BeginReq)).down <==> idle) &&
        (p in HandleFw(w, Event(p, BeginReq)).queuedReq <==> !idle)
  {
    hide LocalOk, LocalOf, Homed;
    BeforeHandling(w, p);
    Views(w, p);
    Sockets(w, p);
    StageFacts(LocalOf(w, p));
  }

  // ---- a target that is lost for good

  /** The target's slot belongs to a request that was held and has never been forwarded. */
  predicate Wedged(w: World, d: nat, p: nat) {
    d < |w.bus.reqInProgress| && w.bus.reqInProgress[d] == Some(p) && p in w.home &&
      w.home[p].dsock == d && p !in w.down
  }

  /** The payloads that have ever been forwarded on a target's socket. */
  function ForwardedOn(w: World, d: nat): set<nat> {
    set p | p in w.down && p in w.home && w.home[p].dsock == d
  }

  /** The wedging request is in no position to be answered. */
  lemma WedgedIsMute(w: World, d: nat, p: nat, q: nat)
    requires Fits(w) && AllLocal(w) && Wedged(w, d, p) && q in w.up
    ensures Event(q, EndReq) in w.bus.bw && w.home[q].dsock == d ==> false
    ensures Event(q, BeginResp) in w.bus.bw ==> q != p && q in w.down
    ensures Event(q, EndResp) in w.bus.fw ==> q in w.down
  {
    hide LocalOk, LocalOf;
    Views(w, p);
    Views(w, q);
    StageFacts(LocalOf(w, p));
    StageFacts(LocalOf(w, q));
  }

  lemma WedgedSendStep(w: World, d: nat, p: nat, a: Action)
    requires Fits(w) && Wedged(w, d, p) && Enabled(w, a) && !a.DeliverFw? && !a.DeliverBw?
    ensures Wedged(Act(w, a), d, p) && ForwardedOn(Act(w, a), d) == ForwardedOn(w, d)
  {
  }

  lemma WedgedFwStep(w: World, d: nat, p: nat, e: Event)
    requires Fits(w) && Inv(w) && Wedged(w, d, p) && e in w.bus.fw
    ensures Wedged(HandleFw(w, e), d, p) && ForwardedOn(HandleFw(w, e), d) == ForwardedOn(w, d)
  {
    hide AllLocal, QueuesHome, UpSlotsHome, DownSlotsHome;
    EventKinds(w, e);
    WedgedIsMute(w, d, p, e.p);
  }

  lemma WedgedBwStep(w: World, d: nat, p: nat, e: Event)
    requires Fits(w) && Inv(w) && Wedged(w, d, p) && e in w.bus.bw
    ensures Wedged(HandleBw(w, e), d, p) && ForwardedOn(HandleBw(w, e), d) == ForwardedOn(w, d)
  {
    hide AllLocal, QueuesHome, UpSlotsHome, DownSlotsHome, HandleBw;
    EventKinds(w, e);
    WedgedIsMute(w, d, p, e.p);
    HandleBwKeepsSlot(w, e, d, p);
  }

  /** A backward event leaves alone what was forwarded, and a slot that it is not about. */
  lemma HandleBwKeepsSlot(w: World, e: Event, d: nat, p: nat)
    requires Fits(w) && e in w.bus.bw && d < |w.bus.reqInProgress| && w.bus.reqInProgress[d] == Some(p)
    requires (e.phase == EndReq && w.home[e.p].dsock != d) || (e.phase == BeginResp && e.p != p)
    ensures var w' := HandleBw(w, e);
      w'.down == w.down && w'.home == w.home && d < |w'.bus.reqInProgress| && w'.bus.reqInProgress[d] == Some(p)
  {
  }

  lemma WedgedStep(w: World, d: nat, p: nat, a: Action)
    requires Fits(w) && Inv(w) && Wedged(w, d, p) && Enabled(w, a)
    ensures Wedged(Act(w, a), d, p) && ForwardedOn(Act(w, a), d) == ForwardedOn(w, d)
  {
    hide Wedged, ForwardedOn, HandleFw, HandleBw, AllLocal, Homed;
    match a
    case DeliverFw(e) => WedgedFwStep(w, d, p, e);
    case DeliverBw(e) => WedgedBwStep(w, d, p, e);
    case _ => WedgedSendStep(w, d, p, a);
  }

  /** Once a target is wedged, nothing is forwarded to it any more in any continuation. */
  lemma {:induction false} WedgedForever(w: World, d: nat, p: nat, actions: seq<Action>)
    requires Inv(w) && Wedged(w, d, p) && IsRun(w, actions)
    ensures Wedged(Run(w, actions), d, p) && ForwardedOn(Run(w, actions), d) == ForwardedOn(w, d)
    decreases |actions|
  {
    hide Inv, Act, Fits, Wedged, ForwardedOn;
    if actions != [] {
      StepInv(w, actions[0]);
      WedgedStep(w, d, p, actions[0]);
      WedgedForever(Act(w, actions[0]), d, p, actions[1..]);
    }
  }

  /** END_REQ wedges its target exactly if a request is waiting for it. */
  lemma EndReqWedges(w: World, p: nat)
    requires Fits(w) && Inv(w) && Event(p, EndReq) in w.bus.bw
    ensures var d := w.bus.routes[p].dsock;
      (exists q :: Wedged(HandleBw(w, Event(p, EndReq)), d, q)) <==> w.bus.pendingReq[d] != []
  {
    hide LocalOk, LocalOf, QueuesHome, EventsHome, UpSlotsHome, DownSlotsHome;
    var d := w.bus.routes[p].dsock;
    if w.bus.pendingReq[d] != [] {
      var q := w.bus.pendingReq[d][0];
      WaitingReq(w, d);
      Views(w, q);
      StageFacts(LocalOf(w, q));
      assert Wedged(HandleBw(w, Event(p, EndReq)), d, q);
    }
  }

  // ---- when nothing is ever put on hold

  lemma SocketsStay(w: World, a: Action)
    requires Fits(w) && Enabled(w, a)
    ensures |Act(w, a).upReq| == |w.upReq| && |Act(w, a).downReq| == |w.downReq|
  {
    hide Known;
    match a
    case DeliverFw(e) => HandlingKeepsSockets(w, e);
    case DeliverBw(e) => HandlingKeepsSockets(w, e);
    case _ =>
  }

  lemma HandlingKeepsSockets(w: World, e: Event)
    requires Fits(w)
    ensures e in w.bus.fw ==> |HandleFw(w, e).upReq| == |w.upReq| && |HandleFw(w, e).downReq| == |w.downReq|
    ensures e in w.bus.bw ==> |HandleBw(w, e).upReq| == |w.upReq| && |HandleBw(w, e).downReq| == |w.downReq|
  {
  }

  lemma OneInitiatorNeverCollides(w: World, p: nat)
    requires Fits(w) && Inv(w) && |w.upReq| == 1 && w.queuedReq == {} && Event(p, BeginReq) in w.bus.fw
    ensures w.bus.reqInProgress[w.bus.routes[p].dsock].None?
  {
    hide LocalOk, LocalOf, ReqsHome, RespsHome, UpSlotsHome, DownSlotsHome;
    var slot := w.bus.reqInProgress[w.bus.routes[p].dsock];
    EventKinds(w, Event(p, BeginReq));
    Views(w, p);
    Sockets(w, p);
    StageFacts(LocalOf(w, p));
    if slot.Some? {
      Views(w, slot.value);
      Sockets(w, slot.value);
      StageFacts(LocalOf(w, slot.value));
    }
  }

  lemma OneTargetNeverCollides(w: World, p: nat)
    requires Fits(w) && Inv(w) && |w.downReq| == 1 && w.queuedResp == {} && Event(p, BeginResp) in w.bus.bw
    ensures w.bus.respInProgress[w.bus.routes[p].usock].None?
  {
    hide LocalOk, LocalOf, ReqsHome, RespsHome, UpSlotsHome, DownSlotsHome;
    var slot := w.bus.respInProgress[w.bus.routes[p].usock];
    EventKinds(w, Event(p, BeginResp));
    Views(w, p);
    Sockets(w, p);
    StageFacts(LocalOf(w, p));
    if slot.Some? {
      Views(w, slot.value);
      Sockets(w, slot.value);
      StageFacts(LocalOf(w, slot.value));
    }
  }

  lemma QueuedBy(w: World, a: Action)
    requires Fits(w) && Inv(w) && Enabled(w, a)
    ensures |w.upReq| == 1 && w.queuedReq == {} ==> Act(w, a).queuedReq == {}
    ensures |w.downReq| == 1 && w.queuedResp == {} ==> Act(w, a).queuedResp == {}
  {
    hide LocalOk, LocalOf, AllLocal, Homed;
    match a
    case DeliverFw(e) =>
      if e.phase == BeginReq && |w.upReq| == 1 && w.queuedReq == {} { OneInitiatorNeverCollides(w, e.p); }
    case DeliverBw(e) =>
      if e.phase == BeginResp && |w.downReq| == 1 && w.queuedResp == {} { OneTargetNeverCollides(w, e.p); }
    case _ =>
  }

  lemma {:induction false} NothingHeldFrom(w: World, actions: seq<Action>)
    requires Inv(w) && IsRun(w, actions)
    ensures |w.upReq| == 1 && w.queuedReq == {} ==> Run(w, actions).queuedReq == {}
    ensures |w.downReq| == 1 && w.queuedResp == {} ==> Run(w, actions).queuedResp == {}
    decreases |actions|
  {
    hide LocalOk, LocalOf, Act, Fits;
    if actions != [] {
      StepInv(w, actions[0]);
      SocketsStay(w, actions[0]);
      QueuedBy(w, actions[0]);
      NothingHeldFrom(Act(w, actions[0]), actions[1..]);
    }
  }

  /** With a single initiator no request is ever held, with a single target no response is. */
  lemma NothingHeld(initiators: nat, targets: nat, actions: seq<Action>)
    requires IsRun(Initial(initiators, targets), actions)
    ensures initiators == 1 ==> Run(Initial(initiators, targets), actions).queuedReq == {}
    ensures targets == 1 ==> Run(Initial(initiators, targets), actions).queuedResp == {}
  {
    hide LocalOk, LocalOf, Act;
    InitialInv(initiators, targets);
    NothingHeldFrom(Initial(initiators, targets), actions);
  }

  /** Two initiators issue overlapping requests to the one target. */
  lemma BothIssued(w: World)
    requires w == Initial(2, 1)
    ensures Fits(w) && Enabled(w, SendBeginReq(0, 0, 0))
    ensures var w1 := Act(w, SendBeginReq(0, 0, 0));
      Fits(w1) && Enabled(w1, SendBeginReq(1, 0, 1)) && Overlapping(Act(w1, SendBeginReq(1, 0, 1)))
  {
    SendBeginReqFits(w, 0, 0, 0);
    var w1 := Act(w, SendBeginReq(0, 0, 0));
    SendBeginReqFits(w1, 1, 0, 1);
  }

  predicate Overlapping(w: World) {
    && Fits(w) && w.home == map[0 := Route(0, 0), 1 := Route(1, 0)]
    && Event(0, BeginReq) in w.bus.fw && Event(1, BeginReq) in w.bus.fw
    && w.down == map[] && w.bus.reqInProgress == [None] && w.bus.pendingReq == [[]]
  }

  predicate SecondHeld(w: World) {
    && Fits(w) && w.home == map[0 := Route(0, 0), 1 := Route(1, 0)]
    && w.down == map[0 := BeginReq] && w.bus.reqInProgress == [Some(0)] && w.bus.pendingReq == [[1]]
  }

  predicate FirstForwarded(w: World) {
    && Fits(w) && w.home == map[0 := Route(0, 0), 1 := Route(1, 0)] && Event(1, BeginReq) in w.bus.fw
    && w.down == map[0 := BeginReq] && w.bus.reqInProgress == [Some(0)] && w.bus.pendingReq == [[]]
  }

  lemma FirstHandled(w: World)
    requires Overlapping(w)
    ensures Fits(w) && Enabled(w, DeliverFw(Event(0, BeginReq)))
    ensures FirstForwarded(Act(w, DeliverFw(Event(0, BeginReq))))
  {
    BeginReqForwarded(w, 0, 0);
  }

  lemma SecondHandled(w: World)
    requires FirstForwarded(w)
    ensures Fits(w) && Enabled(w, DeliverFw(Event(1, BeginReq)))
    ensures SecondHeld(Act(w, DeliverFw(Event(1, BeginReq))))
  {
    BeginReqHeld(w, 1, 1);
    assert w.bus.pendingReq[0] == [] && [] + [1 as nat] == [1];
    assert w.bus.pendingReq[0 := w.bus.pendingReq[0] + [1]] == [[1]];
  }

  lemma FirstAccepted(w: World)
    requires SecondHeld(w)
    ensures Fits(w) && Enabled(w, SendEndReq(0, 0))
    ensures var w1 := Act(w, SendEndReq(0, 0));
      Fits(w1) && Enabled(w1, DeliverBw(Event(0, EndReq))) && Wedged(Act(w1, DeliverBw(Event(0, EndReq))), 0, 1)
  {
    SendEndReqStep(w, 0, 0, 0);
  }

  /**
   With two initiators the hold is reachable, and so is the wedge: the second of two overlapping
   requests is lost and takes the target with it.
   */
  lemma TwoInitiatorsCanWedge()
    ensures exists actions :: IsRun(Initial(2, 1), actions) && Wedged(Run(Initial(2, 1), actions), 0, 1)
  {
    hide Act, Enabled, Fits, Overlapping, FirstForwarded, SecondHeld, Wedged, Initial;
    var w0 := Initial(2, 1);
    BothIssued(w0);
    var w1 := Act(w0, SendBeginReq(0, 0, 0));
    var w2 := Act(w1, SendBeginReq(1, 0, 1));
    FirstHandled(w2);
    var w3 := Act(w2, DeliverFw(Event(0, BeginReq)));
    SecondHandled(w3);
    var w4 := Act(w3, DeliverFw(Event(1, BeginReq)));
    FirstAccepted(w4);
    var w5 := Act(w4, SendEndReq(0, 0));
    var last := DeliverBw(Event(0, EndReq));
    RunOfOne(w5, last);
    RunExtends(w4, SendEndReq(0, 0), [last]);
    RunExtends(w3, DeliverFw(Event(1, BeginReq)), [SendEndReq(0, 0), last]);
    RunExtends(w2, DeliverFw(Event(0, BeginReq)), [DeliverFw(Event(1, BeginReq)), SendEndReq(0, 0), last]);
    var rest := [DeliverFw(Event(0, BeginReq)), DeliverFw(Event(1, BeginReq)), SendEndReq(0, 0), last];
    RunExtends(w1, SendBeginReq(1, 0, 1), rest);
    RunExtends(w0, SendBeginReq(0, 0, 0), [SendBeginReq(1, 0, 1)] + rest);
  }

  lemma RunOfOne(w: World, a: Action)
    requires Fits(w) && Enabled(w, a)
    ensures IsRun(w, [a]) && Run(w, [a]) == Act(w, a)
  {
    hide Fits, Enabled, Act;
    assert [a][1..] == [];
  }

  lemma RunExtends(w: World, a: Action, rest: seq<Action>)
    requires Fits(w) && Enabled(w, a) && IsRun(Act(w, a), rest)
    ensures IsRun(w, [a] + rest) && Run(w, [a] + rest) == Run(Act(w, a), rest)
  {
    hide Fits, Enabled, Act;
    assert ([a] + rest)[1..] == rest;
  }
}
