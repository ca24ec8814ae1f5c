/**
 The times in an LXT2 file. A set-time call is compared with `maxtime`, and that is the first time
 ever set; so a later call may go back, and the file with it.
 */
module Lxt2Times {
  import opened Wrappers
  import opened Lxt2Codec
  import opened Lxt2Trace

  function TimesOf(log: seq<Position>): (ts: seq<int>)
    ensures |ts| == |log| && forall i :: 0 <= i < |log| ==> ts[i] == log[i].time
  {
    seq(|log|, i requires 0 <= i < |log| => log[i].time)
  }

  function RowTimes(rows: seq<Row>): (ts: seq<int>)
    ensures |ts| == |rows| && forall i :: 0 <= i < |rows| ==> ts[i] == rows[i].time
  {
    seq(|rows|, i requires 0 <= i < |rows| => rows[i].time)
  }

  predicate Ascending(ts: seq<int>) {
    forall i, j :: 0 <= i < j < |ts| ==> ts[i] < ts[j]
  }

  // ---------------------------------------------------------------- the first time

  /** The writer moves its clock: this is the first time, or it is later than `maxtime`. */
  predicate Accepted(st: State, t: int) {
    !st.timeset || t > st.maxtime
  }

  /** An emission keeps the log, `maxtime` and the clock. */
  lemma EmitKeepsTimes(cfg: Config, st: State, k: nat, v: string)
    requires Ready(st) && k < |st.syms| && |v| == |st.syms[k].value|
    ensures var r := Emit(cfg, st, k, v); r.log == st.log && r.rows == st.rows && r.maxtime == st.maxtime
  {
  }

  lemma {:induction false} BurstKeepsTimes(cfg: Config, st: State, k: nat)
    requires Ready(st) && k <= |st.syms|
    ensures var r := Burst(cfg, st, k); r.log == st.log && r.rows == st.rows && r.maxtime == st.maxtime
    decreases |st.syms| - k
  {
    hide Emit, Ready;
    if k < |st.syms| {
      EmitKeepsTimes(cfg, st, k, st.syms[k].value);
      assert Lens(Emit(cfg, st, k, st.syms[k].value).syms)[k] == Lens(st.syms)[k];
      BurstKeepsTimes(cfg, Emit(cfg, st, k, st.syms[k].value), k + 1);
    }
  }

  /** Finishing a position files it with its time in the log and in the rows alike. */
  lemma FinishTimes(cfg: Config, st: State, finalize: bool)
    requires Ready(st) && st.timeset
    ensures var r := FinishPosition(cfg, st, finalize); var t := st.times[st.timepos];
      && r.maxtime == st.maxtime
      && TimesOf(r.log) == TimesOf(st.log) + [t] && RowTimes(r.rows) == RowTimes(st.rows) + [t]
  {
  }

  /** What a set-time call does to the times. */
  lemma SetTimeTimes(cfg: Config, st: State, t: int)
    requires Ready(st)
    ensures var r := SetTime(cfg, st, t);
      && r.maxtime == (if st.timeset then st.maxtime else t)
      && TimesOf(r.log) == TimesOf(st.log) + Finished(st, t)
      && RowTimes(r.rows) == RowTimes(st.rows) + Finished(st, t)
  {
    hide Burst, FinishPosition, Ready;
    var m := MoveTime(cfg, st, t);
    if Finishes(st, t) { FinishTimes(cfg, st, false); }
    if AtSectionStart(m) && (m.numblock == 0 || !cfg.noCheckpoint) { BurstKeepsTimes(cfg, m, 0); }
  }

  /** The time of the position that a set-time call finishes, if it finishes one. */
  ghost function Finished(st: State, t: int): seq<int>
    requires Ready(st)
  {
    if Finishes(st, t) then [st.times[st.timepos]] else []
  }

  /** The set-time call that a step amounts to: the first value of all sets time 0. */
  function TimeArg(st: State, op: Op): Option<int> {
    match op
    case TimeOp(t) => Some(t)
    case ValueOp(k, v) => if !st.timeset && k < |st.syms| && v != "" then Some(0) else None
  }

  ghost function OpenTime(st: State): int
    requires Ready(st) && st.timeset
  {
    st.times[st.timepos]
  }

  lemma StepTimes(cfg: Config, st: State, op: Op)
    requires Ready(st)
    ensures var r := Step(cfg, st, op); var arg := TimeArg(st, op);
      && r.timeset == (st.timeset || arg.Some?)
      && r.maxtime == (if st.timeset || arg.None? then st.maxtime else arg.value)
      && TimesOf(r.log) == TimesOf(st.log) + (if arg.Some? then Finished(st, arg.value) else [])
      && RowTimes(r.rows) == RowTimes(st.rows) + (if arg.Some? then Finished(st, arg.value) else [])
      && (r.timeset ==>
           OpenTime(r) == if arg.Some? && Accepted(st, arg.value) then arg.value else OpenTime(st))
  {
    hide SetTime, Emit;
    match op
    case TimeOp(t) => SetTimeTimes(cfg, st, t);
    case ValueOp(k, v) =>
      if k < |st.syms| && v != "" {
        if !st.timeset { SetTimeTimes(cfg, st, 0); }
        var m := if st.timeset then st else SetTime(cfg, st, 0);
        assert Lens(m.syms)[k] == |m.syms[k].value|;
        EmitKeepsTimes(cfg, m, k, Normalise(v, |st.syms[k].value|));
      } else {
        assert TimesOf(st.log) + [] == TimesOf(st.log) && RowTimes(st.rows) + [] == RowTimes(st.rows);
      }
  }

  /** The first time that these calls set, if any. */
  ghost function FirstSet(cfg: Config, st: State, ops: seq<Op>): Option<int>
    requires Ready(st)
    decreases |ops|
  {
    if ops == [] then None
    else if TimeArg(st, ops[0]).Some? then TimeArg(st, ops[0])
    else FirstSet(cfg, Step(cfg, st, ops[0]), ops[1..])
  }

  lemma {:induction false} MaxtimeStays(cfg: Config, st: State, ops: seq<Op>)
    requires Ready(st)
    ensures var r := Run(cfg, st, ops);
      if st.timeset then r.timeset && r.maxtime == st.maxtime
      else r.timeset == FirstSet(cfg, st, ops).Some? && (r.timeset ==> r.maxtime == FirstSet(cfg, st, ops).value)
    decreases |ops|
  {
    hide Step, Ready, TimesOf, RowTimes;
    if ops != [] {
      StepTimes(cfg, st, ops[0]);
      MaxtimeStays(cfg, Step(cfg, st, ops[0]), ops[1..]);
    }
  }

  /**
   In every run `maxtime` is the first time set, however late the later ones are: a call is accepted
   exactly if it is later than that.
   */
  lemma AcceptedIff(cfg: Config, lens: seq<nat>, c: char, ops: seq<Op>, t: int)
    requires InitialChar(c) && forall k :: 0 <= k < |lens| ==> lens[k] > 0
    ensures Ready(Initial(lens, c))
    ensures var first := FirstSet(cfg, Initial(lens, c), ops);
      Accepted(Run(cfg, Initial(lens, c), ops), t) <==> (first.Some? ==> t > first.value)
  {
    InitialReady(lens, c);
    MaxtimeStays(cfg, Initial(lens, c), ops);
  }

  // ---------------------------------------------------------------- when the file ascends

  /** The open position will be finished with the time it has now: no accepted call replaces that before. */
  ghost predicate Lasts(cfg: Config, st: State, ops: seq<Op>)
    requires Ready(st) && st.timeset
    decreases |ops|
  {
    if ops == [] then true
    else
      var arg := TimeArg(st, ops[0]);
      if arg.Some? && Accepted(st, arg.value) then st.bumptime else Lasts(cfg, Step(cfg, st, ops[0]), ops[1..])
  }

  /** A time is later than all these. */
  predicate LaterThan(t: int, ts: seq<int>) {
    ts != [] ==> t > ts[|ts| - 1]
  }

  /** The call's argument is later than the time of the last position finished, by this call or before. */
  ghost predicate Guarded(st: State, t: int)
    requires Ready(st)
  {
    LaterThan(t, RowTimes(st.rows) + Finished(st, t))
  }

  /** Every accepted call whose time gets into the file is guarded. */
  ghost predicate AllGuarded(cfg: Config, st: State, ops: seq<Op>)
    requires Ready(st)
    decreases |ops|
  {
    ops == [] ||
    (var arg := TimeArg(st, ops[0]); var r := Step(cfg, st, ops[0]);
     && (arg.Some? && Accepted(st, arg.value) && r.timeset && Lasts(cfg, r, ops[1..]) ==> Guarded(st, arg.value))
     && AllGuarded(cfg, r, ops[1..]))
  }

  lemma AscendingSnoc(ts: seq<int>, t: int)
    ensures Ascending(ts + [t]) <==> Ascending(ts) && LaterThan(t, ts)
  {
    var r := ts + [t];
    if Ascending(r) {
      forall i, j | 0 <= i < j < |ts| ensures ts[i] < ts[j] { assert r[i] < r[j]; }
      if ts != [] { assert r[|ts| - 1] < r[|ts|]; }
    }
  }

  ghost function ClosedTimes(cfg: Config, st: State): seq<int>
    requires Ready(st)
  {
    RowTimes(Close(cfg, st).rows)
  }

  lemma CloseTimes(cfg: Config, st: State)
    requires Ready(st)
    ensures ClosedTimes(cfg, st) == if st.timeset then RowTimes(st.rows) + [OpenTime(st)] else RowTimes(st.rows)
    ensures TimesOf(Close(cfg, st).log) == if st.timeset then TimesOf(st.log) + [OpenTime(st)] else TimesOf(st.log)
  {
    if st.timeset { FinishTimes(cfg, st, true); }
  }

  lemma {:induction false} AscendFrom(cfg: Config, st: State, ops: seq<Op>)
    requires Ready(st)
    ensures st.timeset ==>
      (Ascending(ClosedTimes(cfg, Run(cfg, st, ops))) <==>
        Ascending(RowTimes(st.rows)) && (Lasts(cfg, st, ops) ==> LaterThan(OpenTime(st), RowTimes(st.rows)))
        && AllGuarded(cfg, st, ops))
    ensures !st.timeset && st.rows == [] ==>
      (Ascending(ClosedTimes(cfg, Run(cfg, st, ops))) <==> AllGuarded(cfg, st, ops))
    decreases |ops|
  {
    hide Step, Ready, TimesOf, RowTimes, Close, ClosedTimes, Ascending, OpenTime;
    if ops == [] {
      CloseTimes(cfg, st);
      if st.timeset { AscendingSnoc(RowTimes(st.rows), OpenTime(st)); } else { NoTimes(st.rows); }
    } else {
      var r := Step(cfg, st, ops[0]);
      StepTimes(cfg, st, ops[0]);
      AscendFrom(cfg, r, ops[1..]);
      var arg := TimeArg(st, ops[0]);
      NoTimes(st.rows);
      assert RowTimes(st.rows) + [] == RowTimes(st.rows);
      if arg.Some? { FinishedIs(st, arg.value); }
      if st.timeset { AscendingSnoc(RowTimes(st.rows), OpenTime(st)); }
    }
  }

  lemma FinishedIs(st: State, t: int)
    requires Ready(st)
    ensures Finished(st, t) == if st.timeset && Accepted(st, t) && st.bumptime then [OpenTime(st)] else []
  {
  }

  lemma NoTimes(rows: seq<Row>)
    ensures rows == [] ==> RowTimes(rows) == [] && Ascending(RowTimes(rows))
  {
  }

  lemma {:induction false} SameTimes(cfg: Config, st: State, ops: seq<Op>)
    requires Ready(st) && TimesOf(st.log) == RowTimes(st.rows)
    ensures TimesOf(Close(cfg, Run(cfg, st, ops)).log) == ClosedTimes(cfg, Run(cfg, st, ops))
    decreases |ops|
  {
    hide Step, Ready, TimesOf, RowTimes, Close, ClosedTimes, OpenTime, Finished;
    if ops == [] {
      CloseTimes(cfg, st);
    } else {
      StepTimes(cfg, st, ops[0]);
      SameTimes(cfg, Step(cfg, st, ops[0]), ops[1..]);
    }
  }

  /** What a reader of the closed file finds is what was logged. */
  lemma FileIsLog(cfg: Config, st: State)
    requires Inv(st)
    ensures ReadFile(Close(cfg, st).file) == Close(cfg, st).log
  {
    if st.timeset {
      hide ReadFile;
      FinishKeeps(cfg, st, true);
    } else {
      assert OpenPositions(st) == [] && ReadGranules(st.granules, st.masks, st.dict) == [] by { NothingYet(st); }
    }
  }

  lemma NothingYet(st: State)
    requires Inv(st) && !st.timeset
    ensures OpenPositions(st) == [] && ReadGranules(st.granules, st.masks, st.dict) == [] && st.log == []
  {
  }

  /** The times a reader finds in the file that these calls leave. */
  ghost function FileTimes(cfg: Config, lens: seq<nat>, c: char, ops: seq<Op>): seq<int>
    requires Ready(Initial(lens, c))
  {
    TimesOf(ReadFile(Close(cfg, Run(cfg, Initial(lens, c), ops)).file))
  }

  /**
   Main result: after any calls, the times in the closed file strictly ascend exactly if every accepted
   set-time call whose time gets into the file is later than the last position finished by then.
   */
  lemma FileAscendsIff(cfg: Config, lens: seq<nat>, c: char, ops: seq<Op>)
    requires InitialChar(c) && forall k :: 0 <= k < |lens| ==> lens[k] > 0
    ensures Ready(Initial(lens, c))
    ensures Ascending(FileTimes(cfg, lens, c, ops)) <==> AllGuarded(cfg, Initial(lens, c), ops)
  {
    hide AllGuarded, Ascending, Close, Inv, Run;
    InitialInv(lens, c);
    InitialReady(lens, c);
    var st := Initial(lens, c);
    RunInv(cfg, st, ops);
    FileIsLog(cfg, Run(cfg, st, ops));
    SameTimes(cfg, st, ops);
    AscendFrom(cfg, st, ops);
  }

  /** Every accepted call is later than the time of the position that is open. */
  ghost predicate AllLater(cfg: Config, st: State, ops: seq<Op>)
    requires Ready(st)
    decreases |ops|
  {
    ops == [] ||
    (var arg := TimeArg(st, ops[0]);
     && (st.timeset && arg.Some? && Accepted(st, arg.value) ==> arg.value > OpenTime(st))
     && AllLater(cfg, Step(cfg, st, ops[0]), ops[1..]))
  }

  /** That is enough, though not necessary: a time that is replaced before anything changes does not matter. */
  lemma {:induction false} LaterIsGuarded(cfg: Config, st: State, ops: seq<Op>)
    requires Ready(st) && AllLater(cfg, st, ops)
    requires if st.timeset then LaterThan(OpenTime(st), RowTimes(st.rows)) else st.rows == []
    ensures AllGuarded(cfg, st, ops)
    decreases |ops|
  {
    hide Step, Ready, TimesOf, RowTimes, OpenTime, Finished;
    if ops != [] {
      var arg := TimeArg(st, ops[0]);
      StepTimes(cfg, st, ops[0]);
      if arg.Some? { FinishedIs(st, arg.value); }
      assert RowTimes(st.rows) + [] == RowTimes(st.rows);
      NoTimes(st.rows);
      NoRows(Step(cfg, st, ops[0]).rows);
      LaterIsGuarded(cfg, Step(cfg, st, ops[0]), ops[1..]);
    }
  }

  lemma NoRows(rows: seq<Row>)
    ensures RowTimes(rows) == [] ==> rows == []
  {
  }

  // ---------------------------------------------------------------- a file that goes back

  /** Times 0, 5 and, after a change, 3. */
  function BackOps(): seq<Op> {
    [TimeOp(0)] + ([TimeOp(5)] + ([ValueOp(0, "0001")] + ([TimeOp(3)] + [])))
  }

  /** Where such a run has got to: the times logged, the open one, and whether there is anything to finish. */
  ghost predicate Standing(st: State, ts: seq<int>, open: int, bump: bool) {
    && Ready(st) && st.timeset && st.maxtime == 0 && Values(st.syms) == ["0000"]
    && TimesOf(st.log) == ts && OpenTime(st) == open && st.bumptime == bump
  }

  lemma BackFirst(cfg: Config)
    ensures Ready(Initial([4], '0')) && Standing(Step(cfg, Initial([4], '0'), TimeOp(0)), [], 0, true)
    ensures Step(cfg, Initial([4], '0'), TimeOp(0)).timepos == 0
  {
    hide Step, Ready, SetTime, Initial, Values, OpenTime, TimesOf;
    var s0 := Initial([4], '0');
    Lxt2Trace.FirstTime(cfg);
    NothingLogged();
    StepIsSet(cfg, s0, 0);
    StepTimes(cfg, s0, TimeOp(0));
    FinishedIs(s0, 0);
  }

  /** A later time finishes the open position and opens one without changes, unless a section begins there. */
  lemma BackSecond(cfg: Config, st: State)
    requires Standing(st, [], 0, true) && st.timepos == 0
    ensures Standing(Step(cfg, st, TimeOp(5)), [0], 5, false)
  {
    hide Ready, Values, TimesOf, OpenTime, Step;
    StepTimes(cfg, st, TimeOp(5));
    FinishedIs(st, 5);
    StepIsSet(cfg, st, 5);
    LaterIsQuiet(cfg, st, 5);
  }

  lemma LaterIsQuiet(cfg: Config, st: State, t: int)
    requires Ready(st) && st.timeset && t > st.maxtime && st.timepos == 0 && st.bumptime
    ensures !SetTime(cfg, st, t).bumptime && Values(SetTime(cfg, st, t).syms) == Values(st.syms)
  {
    assert FinishPosition(cfg, st, false) == Advance(st);
  }

  /** A change marks the open position as one that has to be finished. */
  lemma BackChange(cfg: Config, st: State)
    requires Standing(st, [0], 5, false)
    ensures var r := Step(cfg, st, ValueOp(0, "0001"));
      Ready(r) && r.timeset && r.maxtime == 0 && TimesOf(r.log) == [0] && OpenTime(r) == 5 && r.bumptime
  {
    hide Ready, Values, TimesOf, OpenTime, Step;
    StepTimes(cfg, st, ValueOp(0, "0001"));
    ValueIs(st);
    ChangeBumps(cfg, st);
  }

  lemma ChangeBumps(cfg: Config, st: State)
    requires Ready(st) && st.timeset && |st.syms| == 1 && st.syms[0].value == "0000"
    ensures Step(cfg, st, ValueOp(0, "0001")).bumptime
  {
    BitsAreNormal("0001");
  }

  lemma BackLast(cfg: Config, st: State)
    requires Ready(st) && st.timeset && st.maxtime == 0 && TimesOf(st.log) == [0] && OpenTime(st) == 5 && st.bumptime
    ensures TimesOf(Close(cfg, Step(cfg, st, TimeOp(3))).log) == [0, 5, 3]
  {
    hide Ready, TimesOf, OpenTime, Step, Close;
    StepTimes(cfg, st, TimeOp(3));
    FinishedIs(st, 3);
    CloseTimes(cfg, Step(cfg, st, TimeOp(3)));
  }

  lemma BackRun(cfg: Config)
    ensures Ready(Initial([4], '0')) && TimesOf(Close(cfg, Run(cfg, Initial([4], '0'), BackOps())).log) == [0, 5, 3]
  {
    hide Step, Ready, TimesOf, OpenTime, Close, Initial, Run, Values;
    BackFirst(cfg);
    var s0 := Initial([4], '0');
    var s1 := Step(cfg, s0, TimeOp(0));
    BackSecond(cfg, s1);
    var s2 := Step(cfg, s1, TimeOp(5));
    BackChange(cfg, s2);
    var s3 := Step(cfg, s2, ValueOp(0, "0001"));
    BackLast(cfg, s3);
    RunStep(cfg, s0, TimeOp(0), [TimeOp(5)] + ([ValueOp(0, "0001")] + ([TimeOp(3)] + [])));
    RunStep(cfg, s1, TimeOp(5), [ValueOp(0, "0001")] + ([TimeOp(3)] + []));
    RunStep(cfg, s2, ValueOp(0, "0001"), [TimeOp(3)] + []);
    RunStep(cfg, s3, TimeOp(3), []);
    RunNothing(cfg, Step(cfg, s3, TimeOp(3)));
  }

  /** The closed file holds these times in this order. */
  lemma FileGoesBack(cfg: Config)
    ensures Ready(Initial([4], '0')) && FileTimes(cfg, [4], '0', BackOps()) == [0, 5, 3]
  {
    hide Ready, Close, Inv, ReadFile, Initial, Run, BackOps, TimesOf;
    InitialInv([4], '0');
    InitialReady([4], '0');
    RunInv(cfg, Initial([4], '0'), BackOps());
    FileIsLog(cfg, Run(cfg, Initial([4], '0'), BackOps()));
    BackRun(cfg);
  }

  lemma StepIsSet(cfg: Config, st: State, t: int)
    requires Ready(st)
    ensures Step(cfg, st, TimeOp(t)) == SetTime(cfg, st, t)
  {
  }

  lemma NothingLogged()
    ensures TimesOf(Initial([4], '0').log) == [] && !Initial([4], '0').timeset
  {
  }

  lemma ValueIs(st: State)
    requires Values(st.syms) == ["0000"]
    ensures |st.syms| == 1 && st.syms[0].value == "0000"
  {
    assert Values(st.syms)[0] == "0000";
  }
}
