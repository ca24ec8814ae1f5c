/**
 Which requests the converter forwards as they are, and when it sends the pieces of the others: the slave
 is left alone for as long as it said its last answer takes.
 */
module ConverterTiming {
  import opened Wrappers
  import opened Arithmetic
  import opened ConverterModel

  // ---------------------------------------------------------------- what is forwarded whole

  /** All bytes lie in one word of the slave. */
  predicate InOneWord(c: Config, r: Req)
    requires c.align > 0
  {
    r.addr % c.align + r.size <= c.align
  }

  lemma FitsIff(c: Config, r: Req)
    requires Sane(c) && Clean(r) && r.size > 0
    ensures Fits(c, r) <==> InOneWord(c, r)
  {
    var last := r.addr + r.size - 1;
    ModUnique(last, WORD, 0, last);
    hide Floor;
    if InOneWord(c, r) { SameWord(r.addr, r.size, c.align); } else { NextWord(r.addr, r.size, c.align); }
  }

  lemma SameWord(addr: nat, size: nat, a: nat)
    requires a > 0 && size > 0 && addr % a + size <= a
    ensures Floor(addr, a) == Floor(addr + size - 1, a)
  {
    var q, m := addr / a, addr % a;
    assert addr == q * a + m;
    DivAdd(q, m, a);
    DivAdd(q, m + size - 1, a);
  }

  lemma NextWord(addr: nat, size: nat, a: nat)
    requires a > 0 && addr % a + size > a
    ensures Floor(addr, a) < Floor(addr + size - 1, a)
  {
    var q, m, last := addr / a, addr % a, addr + size - 1;
    assert addr == q * a + m;
    IsFloor(addr, a);
    IsFloor(last, a);
    assert (q + 1) * a == q * a + a;
    if last / a <= q { Mult(last / a, q, a); }
    Mult(q + 1, last / a, a);
  }

  lemma IsFloor(x: nat, a: nat)
    requires a > 0
    ensures Floor(x, a) == x / a * a <= x < x / a * a + a
  {
  }

  /**
   A request that arrives when the converter is idle is sent as it is exactly if it lies in one word;
   otherwise nothing is sent yet.
   */
  lemma ForwardedWholeIff(c: Config, w: World, r: Req, ok: bool)
    requires Sane(c) && Clean(r) && r.size > 0 && w.conv.ongoing.None?
    ensures var w' := Next(c, w, Request(r, ok));
      w'.sent == if InOneWord(c, r) then w.sent + [Piece(r.addr, r.size)] else w.sent
  {
    hide Arrive;
    FitsIff(c, r);
  }

  /**
   The requester is told that it is done exactly if the slave was and it was sent as it is, to hold back
   exactly if it has been put aside, and otherwise that the answer will come later.
   */
  lemma ReplyTells(c: Config, w: World, r: Req, ok: bool)
    requires Sane(c) && Clean(r)
    ensures var w' := Next(c, w, Request(r, ok)); var reply := Arrive(c, w.conv, r, w.now, ok).1;
      && (reply == Denied <==> w'.conv.stalled == w.conv.stalled + [r])
      && (reply == Done <==> w'.done == w.done + [Job(r, true, true)])
      && (reply == Later <==>
           (w.conv.ongoing.None? && w'.conv.ongoing == Some(r)) || w'.done == w.done + [Job(r, true, false)])
  {
    hide Fits, Sending;
    var yes, no := w.done + [Job(r, true, true)], w.done + [Job(r, true, false)];
    assert |yes| == |no| == |w.done| + 1 && yes[|w.done|] != no[|w.done|];
    assert |w.conv.stalled + [r]| == |w.conv.stalled| + 1;
  }

  // ---------------------------------------------------------------- when pieces are sent

  /**
   After a piece the next one is due as soon as the slave is ready: a cycle after the latency it gave, or
   never in practice if it refused.
   */
  lemma NextPieceIsDue(c: Config, w: World, ok: bool, latency: nat)
    requires Sane(c) && c.width >= c.align && Inv(c, w) && CanStep(w, Event(ok, latency))
    requires w.now < INT32_MAX && Next(c, w, Event(ok, latency)).conv.pending != []
    ensures Next(c, w, Event(ok, latency)).conv.wake == Some(if ok then w.now + latency + 1 else INT32_MAX)
  {
    hide InOrder, Sending;
    SentAccounts(c, w.conv, w.refused, w.now, ok, latency);
  }

  /** A request that is cut up has its first piece sent in the next cycle, or when the slave is ready. */
  lemma FirstPieceIsDue(c: Config, w: World, r: Req, ok: bool)
    requires Sane(c) && c.width >= c.align && Inv(c, w) && Clean(r) && r.size > 0 && !InOneWord(c, r)
    requires w.conv.ongoing.None?
    ensures Next(c, w, Request(r, ok)).conv.wake ==
      Some(if w.conv.readyCycle > w.now + 1 then w.conv.readyCycle else w.now + 1)
  {
    hide InOrder, Sending, Fits, InOneWord;
    FitsIff(c, r);
    SendingIsEmptyIff(c, r);
  }

  /** The cycles at which pieces are sent. */
  function SendTimes(c: Config, w: World, steps: seq<Step>): seq<int>
    requires Sane(c) && IsRun(c, w, steps)
    decreases |steps|
  {
    if steps == [] then []
    else (if steps[0].Event? then [w.now] else []) + SendTimes(c, Next(c, w, steps[0]), steps[1..])
  }

  lemma StepTime(c: Config, w: World, x: Step)
    requires Sane(c) && c.width >= c.align && Inv(c, w) && CanStep(w, x)
    ensures var w' := Next(c, w, x);
      && w.now <= w'.now && (x.Event? ==> w.now >= w.conv.readyCycle)
      && (!x.Event? ==> w'.conv.readyCycle == w.conv.readyCycle)
      && (x.Event? ==> w'.conv.readyCycle == if x.ok then w.now + x.latency + 1 else INT32_MAX)
  {
    hide InOrder, Sending, Fits, Accounts;
  }

  /** No piece is sent before a cycle that is past, or before the slave is ready. */
  lemma {:induction false} SendsAreNotBefore(c: Config, w: World, steps: seq<Step>, t: int)
    requires Sane(c) && c.width >= c.align && Inv(c, w) && IsRun(c, w, steps)
    requires t <= w.now || t <= w.conv.readyCycle
    ensures forall i :: 0 <= i < |SendTimes(c, w, steps)| ==> t <= SendTimes(c, w, steps)[i]
    decreases |steps|
  {
    hide Inv, CanStep, Enabled, Next;
    if steps != [] {
      EnabledOf(w, steps[0]);
      StepInv(c, w, steps[0]);
      StepTime(c, w, steps[0]);
      SendsAreNotBefore(c, Next(c, w, steps[0]), steps[1..], t);
    }
  }

  /**
   Main result: over every run, after a piece that the slave has accepted with some latency no other piece
   is sent for that many cycles.
   */
  lemma SlaveIsLeftAlone(c: Config, before: seq<Step>, latency: nat, after: seq<Step>)
    requires Sane(c) && c.width >= c.align && IsRun(c, Start(), before)
    requires CanStep(Run(c, Start(), before), Event(true, latency))
    requires IsRun(c, Next(c, Run(c, Start(), before), Event(true, latency)), after)
    ensures var w := Run(c, Start(), before); var times := SendTimes(c, Next(c, w, Event(true, latency)), after);
      forall i :: 0 <= i < |times| ==> w.now + latency < times[i]
  {
    hide CanStep, Enabled, Next, Inv, IsRun, SendTimes;
    StartIsRight(c);
    RunKeepsInv(c, Start(), before);
    var w := Run(c, Start(), before);
    EnabledOf(w, Event(true, latency));
    StepInv(c, w, Event(true, latency));
    StepTime(c, w, Event(true, latency));
    SendsAreNotBefore(c, Next(c, w, Event(true, latency)), after, w.now + latency + 1);
  }

  lemma StartIsRight(c: Config)
    requires Sane(c)
    ensures Inv(c, Start())
  {
  }
}
