/**
 The memory's front door: a list of pending requests, a pointer to the first one that was denied,
 and the bridge's loop that takes requests, answers them and grants the denied ones.
 */
module DdrAdmission {
  import opened Sequences
  import opened Wrappers

  /** What the bridge is doing: nothing, working on a request, or inside that request's response callback. */
  datatype Stage = Free | Busy | Responding

  /**
   Requests are numbered in the order of the pending list, from `head` on still in it. `stalledAt`
   is the pointer to the first denied request. `denied` and `granted` log who was told to wait and
   who was told to go on; `crashed` means the grant followed a null pointer.
   */
  datatype Ddr = Ddr(
    submitted: nat, head: nat, current: nat, stalledAt: Option<nat>, stage: Stage,
    denied: seq<nat>, granted: seq<nat>, crashed: bool)

  datatype Step = Submit | Take | Respond | Grant

  function Start(): Ddr {
    Ddr(0, 0, 0, None, Free, [], [], false)
  }

  predicate CanStep(s: Ddr, x: Step) {
    match x
    case Submit => true
    case Take => s.stage == Free && s.head < s.submitted
    case Respond => s.stage == Busy
    case Grant => s.stage == Responding
  }

  function Next(max: nat, s: Ddr, x: Step): Ddr
    requires CanStep(s, x)
  {
    match x
    case Submit =>
      var n := s.submitted;
      if s.current + 1 > max then
        s.(submitted := n + 1, current := s.current + 1, denied := s.denied + [n],
           stalledAt := if s.stalledAt.None? then Some(n) else s.stalledAt)
      else s.(submitted := n + 1, current := s.current + 1)
    case Take => s.(head := s.head + 1, stage := Busy)
    case Respond => s.(current := if s.current > 0 then s.current - 1 else 0, stage := Responding)
    case Grant =>
      if s.current < max then s.(stage := Free)
      else if s.stalledAt.None? then s.(stage := Free, crashed := true)
      else
        var g := s.stalledAt.value;
        s.(stage := Free, granted := s.granted + [g], stalledAt := if g + 1 < s.submitted then Some(g + 1) else None)
  }

  // ---------------------------------------------------------------- as an object

  class FrontDoor {
    const maxReqs: nat
    var submitted: nat
    var head: nat
    var currentReqs: nat
    var firstStalled: Option<nat>
    var stage: Stage
    ghost var denied: seq<nat>
    ghost var granted: seq<nat>
    var crashed: bool

    constructor (maxReqs: nat)
      ensures this.maxReqs == maxReqs && View() == Start()
    {
      this.maxReqs := maxReqs;
      submitted, head, currentReqs, firstStalled, stage, crashed := 0, 0, 0, None, Free, false;
      denied, granted := [], [];
    }

    ghost function View(): Ddr
      reads this
    {
      Ddr(submitted, head, currentReqs, firstStalled, stage, denied, granted, crashed)
    }

    method Req() returns (pending: bool)
      modifies this
      ensures View() == Next(maxReqs, old(View()), Submit)
      ensures pending <==> denied == old(denied)
    {
      var n := submitted;
      submitted := submitted + 1;
      currentReqs := currentReqs + 1;
      pending := currentReqs <= maxReqs;
      if !pending {
        if firstStalled.None? { firstStalled := Some(n); }
        denied := denied + [n];
      }
    }

    method TakeNext() returns (req: nat)
      requires CanStep(View(), Take)
      modifies this
      ensures View() == Next(maxReqs, old(View()), Take) && req == old(head)
    {
      req := head;
      head := head + 1;
      stage := Busy;
    }

    method BeginResponse()
      requires CanStep(View(), Respond)
      modifies this
      ensures View() == Next(maxReqs, old(View()), Respond)
    {
      if currentReqs > 0 { currentReqs := currentReqs - 1; }
      stage := Responding;
    }

    method GrantStalled()
      requires CanStep(View(), Grant)
      modifies this
      ensures View() == Next(maxReqs, old(View()), Grant)
    {
      stage := Free;
      if currentReqs >= maxReqs {
        if firstStalled.None? {
          crashed := true;
        } else {
          var g := firstStalled.value;
          granted := granted + [g];
          firstStalled := if g + 1 < submitted then Some(g + 1) else None;
        }
      }
    }
  }

  // ---------------------------------------------------------------- what holds in every run

  /** The requests from `from` to `to`, in order. */
  function Range(from: nat, to: nat): seq<nat>
    decreases (to as int) - from
  {
    if from < to then [from] + Range(from + 1, to) else []
  }

  /** The denied requests still waiting are the last `current - max` ones. */
  predicate Inv(max: nat, s: Ddr) {
    && !s.crashed && s.head <= s.submitted && s.stage != Responding && (s.stage == Busy ==> s.head > 0)
    && s.current == s.submitted - s.head + (if s.stage == Busy then 1 else 0)
    && s.stalledAt == (if s.current > max then Some(FirstWaiting(max, s)) else None)
    && s.denied == s.granted + Waiting(max, s)
  }

  function FirstWaiting(max: nat, s: Ddr): nat {
    if max <= s.current <= s.submitted + max then s.submitted + max - s.current else s.submitted
  }

  function Waiting(max: nat, s: Ddr): seq<nat> {
    Range(FirstWaiting(max, s), s.submitted)
  }

  lemma {:induction false} RangeOneMore(from: nat, to: nat)
    requires from <= to
    ensures Range(from, to + 1) == Range(from, to) + [to]
    decreases (to as int) - from
  {
    if from < to { RangeOneMore(from + 1, to); }
  }

  lemma {:induction false} RangeHolds(from: nat, to: nat, x: nat)
    ensures x in Range(from, to) <==> from <= x < to
    decreases (to as int) - from
  {
    if from < to { RangeHolds(from + 1, to, x); }
  }

  lemma StartInv(max: nat)
    ensures Inv(max, Start())
  {
  }

  lemma SubmitKeepsInv(max: nat, s: Ddr)
    requires Inv(max, s)
    ensures Inv(max, Next(max, s, Submit))
  {
    var s' := Next(max, s, Submit);
    if s.current + 1 > max {
      RangeOneMore(FirstWaiting(max, s), s.submitted);
      assert FirstWaiting(max, s') == FirstWaiting(max, s);
      assert s.granted + (Waiting(max, s) + [s.submitted]) == s.denied + [s.submitted];
    }
  }

  lemma TakeKeepsInv(max: nat, s: Ddr)
    requires Inv(max, s) && CanStep(s, Take)
    ensures Inv(max, Next(max, s, Take))
  {
  }

  // ---- serving one request, with `k` more submitted by its response callback

  function SubmitTimes(max: nat, s: Ddr, k: nat): Ddr {
    if k == 0 then s else Next(max, SubmitTimes(max, s, k - 1), Submit)
  }

  function Serve(max: nat, s: Ddr, k: nat): Ddr
    requires s.stage == Busy
  {
    var r := SubmitTimes(max, Next(max, s, Respond), k);
    if r.stage == Responding then Next(max, r, Grant) else r
  }

  lemma {:induction false} SubmitTimesKeeps(max: nat, s: Ddr, k: nat)
    ensures var r := SubmitTimes(max, s, k);
      r.stage == s.stage && r.submitted == s.submitted + k && r.current == s.current + k && r.head == s.head
      && r.crashed == s.crashed && r.granted == s.granted
  {
    if k > 0 { SubmitTimesKeeps(max, s, k - 1); }
  }

  /** The first submission that finds the memory full sets the pointer; every one from there on is denied. */
  lemma {:induction false} SubmitTimesStalls(max: nat, s: Ddr, k: nat, from: nat)
    requires from == s.submitted + (if s.current < max then max - s.current else 0)
    requires s.current > max ==> s.stalledAt.Some?
    ensures var r := SubmitTimes(max, s, k);
      r.stalledAt == (if s.stalledAt.Some? || s.current + k <= max then s.stalledAt else Some(from))
      && r.denied == s.denied + Range(from, s.submitted + k)
  {
    SubmitTimesKeeps(max, s, k);
    if k > 0 {
      SubmitTimesKeeps(max, s, k - 1);
      SubmitTimesStalls(max, s, k - 1, from);
      if s.current + k > max {
        RangeOneMore(from, s.submitted + k - 1);
        Associate(s.denied, Range(from, s.submitted + k - 1), [s.submitted + k - 1]);
      }
    }
  }

  /**
   The callback may submit as long as that leaves room below the limit, or when requests were
   waiting already; exactly then the grant is right.
   */
  lemma ServeIsRightIff(max: nat, s: Ddr, k: nat)
    requires Inv(max, s) && s.stage == Busy
    ensures Inv(max, Serve(max, s, k)) <==> s.current > max || s.current - 1 + k < max
  {
    var r := Next(max, s, Respond);
    var from := r.submitted + (if r.current < max then max - r.current else 0);
    SubmitTimesKeeps(max, r, k);
    SubmitTimesStalls(max, r, k, from);
    var s' := Serve(max, s, k);
    var first := FirstWaiting(max, s);
    if s.current > max {
      RangeJoin(first, s.submitted, s.submitted + k);
      Associate(s.granted, Waiting(max, s), Range(s.submitted, s.submitted + k));
      assert Range(first, s.submitted + k) == [first] + Range(first + 1, s.submitted + k);
      Associate(s.granted, [first], Range(first + 1, s.submitted + k));
      assert FirstWaiting(max, s') == first + 1;
    } else if s.current - 1 + k < max {
      assert Range(from, s.submitted + k) == [] && Waiting(max, s) == [] && Waiting(max, s') == [];
    } else if s.current - 1 + k > max {
      assert FirstWaiting(max, s') == from;
    }
  }

  lemma {:induction false} RangeJoin(from: nat, mid: nat, to: nat)
    requires from <= mid <= to
    ensures Range(from, mid) + Range(mid, to) == Range(from, to)
    decreases (mid as int) - from
  {
    if from < mid { RangeJoin(from + 1, mid, to); }
  }

  /** The grant follows a null pointer exactly if the callback fills the memory up to its limit, and no further. */
  lemma GrantFindsNobodyIff(max: nat, s: Ddr, k: nat)
    requires Inv(max, s) && s.stage == Busy
    ensures Serve(max, s, k).crashed <==> s.current <= max && s.current - 1 + k == max
  {
    var r := Next(max, s, Respond);
    var from := r.submitted + (if r.current < max then max - r.current else 0);
    SubmitTimesKeeps(max, r, k);
    SubmitTimesStalls(max, r, k, from);
  }

  // ---- every run whose callbacks keep to that

  datatype Act = Arrive | Begin | Finish(resubmits: nat)

  predicate Runs(max: nat, s: Ddr, acts: seq<Act>)
    decreases |acts|
  {
    acts == [] ||
    match acts[0]
    case Arrive => Runs(max, Next(max, s, Submit), acts[1..])
    case Begin => CanStep(s, Take) && Runs(max, Next(max, s, Take), acts[1..])
    case Finish(k) =>
      s.stage == Busy && (s.current > max || s.current - 1 + k < max) && Runs(max, Serve(max, s, k), acts[1..])
  }

  function End(max: nat, s: Ddr, acts: seq<Act>): Ddr
    requires Runs(max, s, acts)
    decreases |acts|
  {
    if acts == [] then s
    else
      match acts[0]
      case Arrive => End(max, Next(max, s, Submit), acts[1..])
      case Begin => End(max, Next(max, s, Take), acts[1..])
      case Finish(k) => End(max, Serve(max, s, k), acts[1..])
  }

  lemma {:induction false} RunKeepsInv(max: nat, s: Ddr, acts: seq<Act>)
    requires Inv(max, s) && Runs(max, s, acts)
    ensures Inv(max, End(max, s, acts))
    decreases |acts|
  {
    hide Inv, Next, Serve;
    if acts != [] {
      match acts[0]
      case Arrive =>
        SubmitKeepsInv(max, s);
        RunKeepsInv(max, Next(max, s, Submit), acts[1..]);
      case Begin =>
        TakeKeepsInv(max, s);
        RunKeepsInv(max, Next(max, s, Take), acts[1..]);
      case Finish(k) =>
        ServeIsRightIff(max, s, k);
        RunKeepsInv(max, Serve(max, s, k), acts[1..]);
    }
  }

  // ---- who is denied

  /** Denied requests are logged once each, in the order of submission. */
  predicate Logged(s: Ddr) {
    && (forall i, j :: 0 <= i < j < |s.denied| ==> s.denied[i] < s.denied[j])
    && forall i :: 0 <= i < |s.denied| ==> s.denied[i] < s.submitted
  }

  /** The requests that are submitted and not answered yet. */
  function Held(s: Ddr): int {
    s.submitted - s.head + (if s.stage == Busy then 1 else 0)
  }

  lemma {:induction false} RangeAscends(from: nat, to: nat)
    ensures forall i, j :: 0 <= i < j < |Range(from, to)| ==> Range(from, to)[i] < Range(from, to)[j]
    ensures forall i :: 0 <= i < |Range(from, to)| ==> from <= Range(from, to)[i] < to
    decreases (to as int) - from
  {
    if from < to { RangeAscends(from + 1, to); }
  }

  /** What `k` submissions starting with `current` requests held do to the log: those above the limit are denied. */
  predicate Decides(max: nat, s: Ddr, r: Ddr, current: int, k: nat) {
    && Logged(r) && r.submitted == s.submitted + k
    && (forall x: nat :: x < s.submitted ==> (x in r.denied <==> x in s.denied))
    && forall x: nat :: s.submitted <= x < s.submitted + k ==>
      (x in r.denied <==> current + (x - s.submitted) + 1 > max)
  }

  lemma SubmitTimesDenies(max: nat, s: Ddr, k: nat)
    requires Logged(s) && (s.current > max ==> s.stalledAt.Some?)
    ensures Decides(max, s, SubmitTimes(max, s, k), s.current, k)
  {
    var r := SubmitTimes(max, s, k);
    var from := s.submitted + (if s.current < max then max - s.current else 0);
    var to := s.submitted + k;
    SubmitTimesKeeps(max, s, k);
    SubmitTimesStalls(max, s, k, from);
    RangeAscends(from, to);
    forall x: nat ensures x in r.denied <==> x in s.denied || from <= x < to { RangeHolds(from, to, x); }
  }

  lemma ServeDenies(max: nat, s: Ddr, k: nat)
    requires Inv(max, s) && Logged(s) && s.stage == Busy
    ensures Decides(max, s, Serve(max, s, k), Held(s) - 1, k)
  {
    var r := Next(max, s, Respond);
    assert Logged(r) && r.current == Held(s) - 1;
    SubmitTimesDenies(max, r, k);
    SubmitTimesKeeps(max, r, k);
  }

  lemma ArriveDenies(max: nat, s: Ddr)
    requires Inv(max, s) && Logged(s)
    ensures Decides(max, s, Next(max, s, Submit), Held(s), 1)
  {
  }

  /** What was decided about a request stays decided. */
  lemma {:induction false} DecisionsStay(max: nat, s: Ddr, acts: seq<Act>)
    requires Inv(max, s) && Logged(s) && Runs(max, s, acts)
    ensures Logged(End(max, s, acts)) && s.submitted <= End(max, s, acts).submitted
    ensures forall x: nat :: x < s.submitted ==> (x in End(max, s, acts).denied <==> x in s.denied)
    decreases |acts|
  {
    hide Inv, Next, Serve, Logged;
    if acts != [] {
      match acts[0]
      case Arrive =>
        SubmitKeepsInv(max, s);
        ArriveDenies(max, s);
        DecisionsStay(max, Next(max, s, Submit), acts[1..]);
      case Begin =>
        TakeKeepsInv(max, s);
        TakeDecidesNothing(max, s);
        DecisionsStay(max, Next(max, s, Take), acts[1..]);
      case Finish(k) =>
        ServeIsRightIff(max, s, k);
        ServeDenies(max, s, k);
        DecisionsStay(max, Serve(max, s, k), acts[1..]);
    }
  }

  lemma TakeDecidesNothing(max: nat, s: Ddr)
    requires Logged(s) && CanStep(s, Take)
    ensures var r := Next(max, s, Take); Logged(r) && r.submitted == s.submitted && r.denied == s.denied
  {
  }

  lemma {:induction false} EndSplits(max: nat, s: Ddr, acts: seq<Act>, more: seq<Act>)
    requires Runs(max, s, acts + more)
    ensures Runs(max, s, acts) && Runs(max, End(max, s, acts), more)
    ensures End(max, s, acts + more) == End(max, End(max, s, acts), more)
    decreases |acts|
  {
    hide Next, Serve;
    if acts == [] {
      assert acts + more == more;
    } else {
      assert (acts + more)[1..] == acts[1..] + more && (acts + more)[0] == acts[0];
      match acts[0]
      case Arrive => EndSplits(max, Next(max, s, Submit), acts[1..], more);
      case Begin => EndSplits(max, Next(max, s, Take), acts[1..], more);
      case Finish(k) => EndSplits(max, Serve(max, s, k), acts[1..], more);
    }
  }

  /** How many requests the memory holds before the `j`-th submission of an action, after the first `i` actions. */
  function HeldBefore(max: nat, s: Ddr, act: Act, j: nat): int {
    if act.Finish? then Held(s) - 1 + j else Held(s)
  }

  /** The number of requests an action submits. */
  function Submissions(act: Act): nat {
    match act case Arrive => 1 case Begin => 0 case Finish(k) => k
  }

  /**
   In every run whose callbacks leave room, the requests denied are exactly those whose submission, by a
   requester or by a response callback, makes the memory hold more than its limit.
   */
  lemma DeniedIffAboveLimit(max: nat, past: seq<Act>, act: Act, more: seq<Act>, j: nat)
    requires Runs(max, Start(), past + ([act] + more)) && j < Submissions(act)
    ensures Runs(max, Start(), past)
    ensures var s := End(max, Start(), past); var s' := End(max, Start(), past + ([act] + more));
      s.submitted + j in s'.denied <==> HeldBefore(max, s, act, j) + 1 > max
  {
    hide Inv, Next, Serve, Logged;
    StartInv(max);
    NothingLogged();
    EndSplits(max, Start(), past, [act] + more);
    RunKeepsInv(max, Start(), past);
    DecisionsStay(max, Start(), past);
    var s := End(max, Start(), past);
    assert ([act] + more)[1..] == more;
    match act
    case Arrive =>
      SubmitKeepsInv(max, s);
      ArriveDenies(max, s);
      DecisionsStay(max, Next(max, s, Submit), more);
    case Begin =>
    case Finish(k) =>
      ServeIsRightIff(max, s, k);
      ServeDenies(max, s, k);
      DecisionsStay(max, Serve(max, s, k), more);
  }

  lemma NothingLogged()
    ensures Logged(Start())
  {
  }

  /**
   Denied requests are granted in the order in which they were denied, each once, before the bridge
   takes them (unless the limit is nought); the others that were denied are still waiting.
   */
  lemma DeniedAreGrantedInOrder(max: nat, acts: seq<Act>)
    requires Runs(max, Start(), acts)
    ensures var s := End(max, Start(), acts);
      !s.crashed && s.denied == s.granted + Waiting(max, s)
      && (forall i, j :: 0 <= i < j < |s.denied| ==> s.denied[i] < s.denied[j])
      && (max > 0 ==> forall x :: x in s.denied && x < s.head ==> x in s.granted)
  {
    StartInv(max);
    RunKeepsInv(max, Start(), acts);
    DecisionsStay(max, Start(), acts);
    var s := End(max, Start(), acts);
    forall x | max > 0 && x in s.denied && x < s.head ensures x in s.granted {
      RangeHolds(FirstWaiting(max, s), s.submitted, x);
    }
  }

  // ---------------------------------------------------------------- from a request to its transactions

  /** The number of transactions of `bytes` bytes each that a request of `size` bytes becomes. */
  function Transactions(size: nat, bytes: nat): nat
    requires bytes > 0
  {
    var nt := (size / bytes) % 0x1_0000_0000;
    if nt > 0 then nt else 1
  }

  /** A request becomes as many transactions as fit in it, but at least one. */
  lemma TransactionsAre(size: nat, bytes: nat)
    requires 0 < bytes && size / bytes < 0x1_0000_0000
    ensures var nt := Transactions(size, bytes);
      nt > 0 && (nt == 1 || nt * bytes <= size) && size < (nt + 1) * bytes
  {
    var nt := Transactions(size, bytes);
    assert size == size / bytes * bytes + size % bytes;
    if size / bytes > 0 { assert nt == size / bytes && (nt + 1) * bytes == nt * bytes + bytes; }
  }

  /**
   The transactions cover the request's bytes and no others exactly if the size is a positive multiple
   of the width.
   */
  lemma TransactionsCoverIff(size: nat, bytes: nat)
    requires 0 < bytes
    ensures Transactions(size, bytes) * bytes == size <==> size % bytes == 0 && 0 < size / bytes < 0x1_0000_0000
  {
    var q := size / bytes;
    assert size == q * bytes + size % bytes;
    if Transactions(size, bytes) * bytes == size {
      QuotientIsExact(Transactions(size, bytes), bytes);
    }
  }

  lemma QuotientIsExact(n: nat, bytes: nat)
    requires bytes > 0
    ensures (n * bytes) / bytes == n && (n * bytes) % bytes == 0
  {
    DivisionIsUnique(n * bytes, bytes, n);
  }

  lemma DivisionIsUnique(x: nat, bytes: nat, n: nat)
    requires bytes > 0 && x == n * bytes
    ensures x / bytes == n && x % bytes == 0
  {
    var q, r := x / bytes, x % bytes;
    assert (n - q) * bytes == r;
    if n > q { Grows(n - q, bytes); }
  }

  lemma Grows(k: nat, bytes: nat)
    requires k > 0
    ensures k * bytes >= bytes
  {
    assert k * bytes == bytes + (k - 1) * bytes;
  }

  /** From the start: one request, whose response callback submits as many as the memory admits. */
  lemma GrantCanFindNobody(max: nat)
    requires max > 0
    ensures Runs(max, Start(), [Arrive, Begin]) && End(max, Start(), [Arrive, Begin]).stage == Busy
    ensures Serve(max, End(max, Start(), [Arrive, Begin]), max).crashed
  {
    assert [Arrive, Begin][1..] == [Begin] && [Begin][1..] == [];
    var s1 := Next(max, Start(), Submit);
    var s2 := Next(max, s1, Take);
    assert Runs(max, s2, []) && Runs(max, s1, [Begin]) && End(max, s1, [Begin]) == s2;
    StartInv(max);
    GrantFindsNobodyIff(max, s2, max);
  }
}
