/**
 How the file is divided: granules of as many positions as fit a change mask, and sections of a configured
 number of granules, each with dictionaries of its own.
 */
module Lxt2Sections {
  import opened Wrappers
  import opened Lxt2Codec
  import opened Lxt2Trace
  import opened Lxt2Dictionary

  /** The number of granules of a full section. */
  function Most(cfg: Config): (n: nat)
    ensures n > 0
  {
    if cfg.maxgranule > 0 then cfg.maxgranule else 1
  }

  /** All these granules are full. */
  predicate Full(gs: seq<Granule>) {
    forall i :: 0 <= i < |gs| ==> |gs[i].times| == GRANULE
  }

  predicate FullSections(cfg: Config, file: seq<Section>) {
    forall i :: 0 <= i < |file| ==> |file[i].granules| == Most(cfg) && Full(file[i].granules)
  }

  /** While the trace is open: what is in the file is full, and what is not is counted. */
  predicate Shaped(cfg: Config, st: State) {
    && st.timegranule == |st.granules| < Most(cfg) && Full(st.granules)
    && st.numblock == |st.file| && FullSections(cfg, st.file)
  }

  lemma EmitShapes(cfg: Config, st: State, k: nat, v: string)
    requires Ready(st) && k < |st.syms| && |v| == |st.syms[k].value|
    ensures var r := Emit(cfg, st, k, v);
      r.granules == st.granules && r.file == st.file && r.numblock == st.numblock && r.timegranule == st.timegranule
  {
  }

  lemma {:induction false} BurstShapes(cfg: Config, st: State, k: nat)
    requires Ready(st) && k <= |st.syms|
    ensures Shaped(cfg, st) ==> Shaped(cfg, Burst(cfg, st, k))
    decreases |st.syms| - k
  {
    hide Emit, Ready, Full, FullSections;
    if k < |st.syms| {
      EmitShapes(cfg, st, k, st.syms[k].value);
      assert Lens(Emit(cfg, st, k, st.syms[k].value).syms)[k] == Lens(st.syms)[k];
      BurstShapes(cfg, Emit(cfg, st, k, st.syms[k].value), k + 1);
    }
  }

  /**
   Finishing a position writes a granule exactly if it is full or the trace is closed, and a section
   exactly if it then has all its granules or the trace is closed. A section leaves nothing behind.
   */
  lemma FinishIs(cfg: Config, st: State, finalize: bool)
    requires Ready(st) && st.timeset && Shaped(cfg, st)
    ensures var r := FinishPosition(cfg, st, finalize);
      var granule := st.timepos + 1 == GRANULE || finalize;
      var section := granule && (|st.granules| + 1 == Most(cfg) || finalize);
      && r.timepos == (if granule then 0 else st.timepos + 1)
      && (!granule ==> r.granules == st.granules && r.dict == st.dict && r.masks == st.masks)
      && (granule && !section ==>
            |r.granules| == |st.granules| + 1 && r.granules[..|st.granules|] == st.granules
            && r.granules[|st.granules|].times == st.times && r.dict == st.dict)
      && (!section ==> r.file == st.file)
      && (section ==>
            && r.granules == [] && r.dict == [] && r.masks == []
            && |r.file| == |st.file| + 1 && r.file[..|st.file|] == st.file
            && |r.file[|st.file|].granules| == |st.granules| + 1
            && r.file[|st.file|].granules[..|st.granules|] == st.granules
            && r.file[|st.file|].granules[|st.granules|].times == st.times && r.file[|st.file|].dict == st.dict)
      && r.timegranule == |r.granules| && r.numblock == |r.file|
  {
    hide Full, FullSections, Cleared, MapIds, InternAll, Flat;
  }

  lemma FinishShapes(cfg: Config, st: State)
    requires Ready(st) && st.timeset && Shaped(cfg, st)
    ensures Shaped(cfg, FinishPosition(cfg, st, false))
  {
    hide FinishPosition;
    FinishIs(cfg, st, false);
    var r := FinishPosition(cfg, st, false);
    TimesSoFar(st);
    if |r.file| > |st.file| {
      forall i | 0 <= i < |r.file| ensures |r.file[i].granules| == Most(cfg) && Full(r.file[i].granules) {
        if i < |st.file| {
          assert r.file[i] == r.file[..|st.file|][i];
        } else {
          OneMoreFull(st.granules, r.file[i].granules);
        }
      }
    } else if |r.granules| > |st.granules| {
      OneMoreFull(st.granules, r.granules);
    }
  }

  lemma TimesSoFar(st: State)
    requires Ready(st) && st.timeset
    ensures |st.times| == st.timepos + 1
  {
  }

  lemma OneMoreFull(a: seq<Granule>, b: seq<Granule>)
    requires Full(a) && |b| == |a| + 1 && b[..|a|] == a && |b[|a|].times| == GRANULE
    ensures Full(b)
  {
    forall i | 0 <= i < |b| ensures |b[i].times| == GRANULE { if i < |a| { assert b[i] == b[..|a|][i]; } }
  }

  lemma SetTimeShapes(cfg: Config, st: State, t: int)
    requires Ready(st) && Shaped(cfg, st)
    ensures Shaped(cfg, SetTime(cfg, st, t))
  {
    hide Burst, FinishPosition, Ready, Full, FullSections;
    if Finishes(st, t) { FinishShapes(cfg, st); }
    var m := MoveTime(cfg, st, t);
    if AtSectionStart(m) && (m.numblock == 0 || !cfg.noCheckpoint) { BurstShapes(cfg, m, 0); }
  }

  lemma StepShapes(cfg: Config, st: State, op: Op)
    requires Ready(st) && Shaped(cfg, st)
    ensures Shaped(cfg, Step(cfg, st, op))
  {
    hide SetTime, Emit, Ready, Full, FullSections, Normalise;
    match op
    case TimeOp(t) => SetTimeShapes(cfg, st, t);
    case ValueOp(k, v) =>
      if k < |st.syms| && v != "" {
        if !st.timeset { SetTimeShapes(cfg, st, 0); }
        var m := if st.timeset then st else SetTime(cfg, st, 0);
        assert Lens(m.syms)[k] == |m.syms[k].value|;
        EmitShapes(cfg, m, k, Normalise(v, |st.syms[k].value|));
      }
  }

  lemma {:induction false} RunShapes(cfg: Config, st: State, ops: seq<Op>)
    requires Ready(st) && Shaped(cfg, st)
    ensures Shaped(cfg, Run(cfg, st, ops))
    decreases |ops|
  {
    hide Step, Ready, Shaped;
    if ops != [] {
      StepShapes(cfg, st, ops[0]);
      RunShapes(cfg, Step(cfg, st, ops[0]), ops[1..]);
    }
  }

  /** All sections but the last are full, and so are all granules but the last of all. */
  predicate Divided(cfg: Config, file: seq<Section>) {
    file != [] ==>
      var last := file[|file| - 1].granules;
      && FullSections(cfg, file[..|file| - 1])
      && 0 < |last| <= Most(cfg) && Full(last[..|last| - 1]) && 0 < |last[|last| - 1].times| <= GRANULE
  }

  /** Main result: after any calls the closed file is so divided. */
  lemma FileIsDivided(cfg: Config, lens: seq<nat>, c: char, ops: seq<Op>)
    requires forall k :: 0 <= k < |lens| ==> lens[k] > 0
    ensures Ready(Initial(lens, c)) && Divided(cfg, Close(cfg, Run(cfg, Initial(lens, c), ops)).file)
  {
    InitialReady(lens, c);
    InitialShapes(cfg, lens, c);
    hide Initial, Step, Ready, Shaped, Divided, Close;
    RunShapes(cfg, Initial(lens, c), ops);
    CloseDivides(cfg, Run(cfg, Initial(lens, c), ops));
  }

  lemma CloseDivides(cfg: Config, st: State)
    requires Ready(st) && Shaped(cfg, st)
    ensures Divided(cfg, Close(cfg, st).file)
  {
    hide FinishPosition, Full, FullSections;
    if st.timeset {
      FinishIs(cfg, st, true);
      TimesSoFar(st);
      InGranule(st);
    } else {
      NothingWritten(st);
    }
  }

  lemma InGranule(st: State)
    requires Ready(st)
    ensures st.timepos < GRANULE
  {
  }

  lemma NothingWritten(st: State)
    requires Ready(st) && !st.timeset
    ensures st.file == []
  {
  }

  lemma InitialShapes(cfg: Config, lens: seq<nat>, c: char)
    ensures Shaped(cfg, Initial(lens, c))
  {
  }

  // ---------------------------------------------------------------- checkpoints

  /** At the open position's first place every symbol has an event. */
  predicate AllMarked(syms: seq<Sym>) {
    forall k :: 0 <= k < |syms| ==> syms[k].msk != [] && syms[k].msk[0]
  }

  /** The granule's first position has an event for each of `n` symbols. */
  predicate Begins(g: Granule, masks: seq<seq<bool>>, n: nat) {
    && |g.maps| == n
    && forall k :: 0 <= k < n ==> g.maps[k] < |masks| && masks[g.maps[k]] != [] && masks[g.maps[k]][0]
  }

  predicate SectionBegins(s: Section, n: nat) {
    s.granules != [] && Begins(s.granules[0], s.masks, n)
  }

  predicate FileBegins(file: seq<Section>, n: nat) {
    forall i :: 0 <= i < |file| ==> SectionBegins(file[i], n)
  }

  predicate Checked(st: State) {
    && FileBegins(st.file, |st.syms|)
    && (st.timeset ==>
         if st.granules == [] then AllMarked(st.syms) else Begins(st.granules[0], st.masks, |st.syms|))
  }

  lemma EmitMarks(cfg: Config, st: State, k: nat, v: string)
    requires Ready(st) && k < |st.syms| && |v| == |st.syms[k].value|
    ensures var r := Emit(cfg, st, k, v);
      && |r.syms| == |st.syms| && r.granules == st.granules && r.file == st.file && r.masks == st.masks
      && (forall j :: 0 <= j < |st.syms| && st.syms[j].msk != [] && st.syms[j].msk[0] ==>
            r.syms[j].msk != [] && r.syms[j].msk[0])
      && (AtSectionStart(st) ==> r.syms[k].msk != [] && r.syms[k].msk[0])
  {
  }

  lemma {:induction false} BurstMarks(cfg: Config, st: State, k: nat)
    requires Ready(st) && k <= |st.syms| && AtSectionStart(st) && AllMarked(st.syms[..k])
    ensures var r := Burst(cfg, st, k);
      && |r.syms| == |st.syms| && r.granules == st.granules && r.file == st.file && r.masks == st.masks
      && AllMarked(r.syms)
    decreases |st.syms| - k
  {
    hide Emit, Ready;
    if k < |st.syms| {
      EmitMarks(cfg, st, k, st.syms[k].value);
      var r := Emit(cfg, st, k, st.syms[k].value);
      assert Lens(r.syms)[k] == Lens(st.syms)[k];
      forall j | 0 <= j < k + 1 ensures r.syms[j].msk != [] && r.syms[j].msk[0] {
        if j < k { assert st.syms[j] == st.syms[..k][j]; }
      }
      BurstMarks(cfg, r, k + 1);
    } else {
      assert st.syms[..k] == st.syms;
    }
  }

  /** What the granule that is written says about its first position. */
  lemma FinishMarks(cfg: Config, st: State, finalize: bool)
    requires Ready(st) && st.timeset && Checked(st)
    ensures var r := FinishPosition(cfg, st, finalize);
      && |r.syms| == |st.syms| && r.timeset
      && (if r.granules != [] then Begins(r.granules[0], r.masks, |r.syms|)
          else FileBegins(r.file, |r.syms|) && (r.timepos > 0 ==> AllMarked(r.syms)))
      && FileBegins(r.file, |r.syms|)
  {
    hide Cleared, Flat, Interned;
    AdvanceIsBetween(st);
    var a := Advance(st);
    if a.timepos == GRANULE || finalize {
      IdsAreFinal(a.masks, MasksOf(a.syms));
      var masks := InternAll(a.masks, MasksOf(a.syms));
      assert forall k :: 0 <= k < |a.syms| ==> MasksOf(a.syms)[k] == a.syms[k].msk;
      var g := Granule(a.times, MapIds(a.syms, masks), Flat(a.syms));
      hide InternAll;
      if st.granules == [] {
        assert Begins(g, masks, |a.syms|);
        assert (st.granules + [g])[0] == g;
      } else {
        assert Begins(st.granules[0], masks, |a.syms|);
        assert (st.granules + [g])[0] == st.granules[0];
      }
      MoreSections(st.file, Section(st.granules + [g], a.dict, masks), |a.syms|);
    }
  }

  lemma MoreSections(file: seq<Section>, s: Section, n: nat)
    requires FileBegins(file, n)
    ensures SectionBegins(s, n) ==> FileBegins(file + [s], n)
  {
    hide SectionBegins;
  }

  lemma SetTimeMarks(cfg: Config, st: State, t: int)
    requires Ready(st) && Checked(st) && Shaped(cfg, st) && !cfg.noCheckpoint
    ensures Checked(SetTime(cfg, st, t)) && |SetTime(cfg, st, t).syms| == |st.syms|
  {
    hide Burst, FinishPosition, Ready, FileBegins, Begins, AllMarked, Full, FullSections;
    if !st.timeset { Untouched(st); }
    if Finishes(st, t) {
      FinishMarks(cfg, st, false);
      FinishShapes(cfg, st);
    }
    var m := MoveTime(cfg, st, t);
    if AtSectionStart(m) {
      assert m.syms[..0] == [];
      NoneMarked();
      BurstMarks(cfg, m, 0);
      hide MoveTime;
      assert Lens(m.syms) == Lens(st.syms);
    }
  }

  lemma Untouched(st: State)
    requires Ready(st) && !st.timeset
    ensures AtSectionStart(st) && st.numblock == 0
  {
  }

  lemma NoneMarked()
    ensures AllMarked([])
  {
  }

  lemma StepMarks(cfg: Config, st: State, op: Op)
    requires Ready(st) && Checked(st) && Shaped(cfg, st) && !cfg.noCheckpoint
    ensures Checked(Step(cfg, st, op)) && |Step(cfg, st, op).syms| == |st.syms|
  {
    hide SetTime, Emit, Ready, Normalise, FileBegins, Begins, Shaped;
    match op
    case TimeOp(t) => SetTimeMarks(cfg, st, t);
    case ValueOp(k, v) =>
      if k < |st.syms| && v != "" {
        if !st.timeset { SetTimeMarks(cfg, st, 0); }
        var m := if st.timeset then st else SetTime(cfg, st, 0);
        assert Lens(m.syms)[k] == |m.syms[k].value|;
        EmitMarks(cfg, m, k, Normalise(v, |st.syms[k].value|));
      }
  }

  lemma {:induction false} RunMarks(cfg: Config, st: State, ops: seq<Op>)
    requires Ready(st) && Checked(st) && Shaped(cfg, st) && !cfg.noCheckpoint
    ensures Checked(Run(cfg, st, ops))
    decreases |ops|
  {
    hide Step, Ready, Shaped, Checked;
    if ops != [] {
      StepMarks(cfg, st, ops[0]);
      StepShapes(cfg, st, ops[0]);
      RunMarks(cfg, Step(cfg, st, ops[0]), ops[1..]);
    }
  }

  /**
   Main result: with checkpoints switched on, every section of the closed file begins with an event for
   every symbol, so that a reader can start with any of them.
   */
  lemma SectionsBeginWithAll(cfg: Config, lens: seq<nat>, c: char, ops: seq<Op>)
    requires !cfg.noCheckpoint && forall k :: 0 <= k < |lens| ==> lens[k] > 0
    ensures Ready(Initial(lens, c)) && FileBegins(Close(cfg, Run(cfg, Initial(lens, c), ops)).file, |lens|)
  {
    hide FinishPosition, Shaped, FileBegins;
    InitialReady(lens, c);
    InitialShapes(cfg, lens, c);
    NoSections(|lens|);
    RunMarks(cfg, Initial(lens, c), ops);
    var st := Run(cfg, Initial(lens, c), ops);
    assert |Lens(st.syms)| == |lens|;
    if st.timeset { FinishMarks(cfg, st, true); }
  }

  lemma NoSections(n: nat)
    ensures FileBegins([], n)
  {
  }
}
