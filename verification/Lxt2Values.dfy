/**
 What a caller reports and what is recorded of it: the value that a string stands for on a symbol of a
 certain length, the value each symbol has after some calls, and the rows of the file in those terms.
 */
module Lxt2Values {
  import opened Wrappers
  import opened Lxt2Codec
  import opened Lxt2Trace
  import Lxt2Times

  const UPPER: string := "ABCDEFGHIJKLMNOPQRSTUVWXYZ"
  const LOWER: string := "abcdefghijklmnopqrstuvwxyz"

  ghost predicate InLowerCase(c: char, r: char) {
    (forall i :: 0 <= i < 26 && UPPER[i] == c ==> r == LOWER[i]) && (c !in UPPER ==> r == c)
  }

  /**
   The value of `len` characters that the string `v` stands for, in lower case: the last characters are
   those of `v`, with 0 before them if `v` begins with 1, and the first character of `v` otherwise. Of a
   string that is too long it is the beginning.
   */
  ghost predicate Means(v: string, len: nat, s: string)
    requires v != ""
  {
    && |s| == len
    && (|v| <= len ==>
         && (forall i :: 0 <= i < |v| ==> InLowerCase(v[i], s[len - |v| + i]))
         && (forall i :: 0 <= i < len - |v| ==> if v[0] == '1' then s[i] == '0' else InLowerCase(v[0], s[i])))
    && (|v| > len ==> forall i :: 0 <= i < len ==> InLowerCase(v[i], s[i]))
  }

  lemma Lowered(c: char)
    ensures InLowerCase(c, LowerChar(c))
  {
    var k := c as int - 'A' as int;
    if 0 <= k < 26 {
      Alphabet(k);
    } else {
      forall i | 0 <= i < 26 ensures UPPER[i] != c { Alphabet(i); }
    }
    forall i | 0 <= i < 26 && UPPER[i] == c ensures LowerChar(c) == LOWER[i] { Alphabet(i); }
  }

  lemma Alphabet(k: nat)
    requires k < 26
    ensures UPPER[k] as int == 65 + k && LOWER[k] as int == 97 + k
  {
  }

  lemma OneLowerCase(c: char, a: char, b: char)
    requires InLowerCase(c, a) && InLowerCase(c, b)
    ensures a == b
  {
    if c in UPPER { var i :| 0 <= i < 26 && UPPER[i] == c; }
  }

  /** A string stands for one value only. */
  lemma OneMeaning(v: string, len: nat, a: string, b: string)
    requires v != "" && Means(v, len, a) && Means(v, len, b)
    ensures a == b
  {
    hide InLowerCase;
    forall i | 0 <= i < len ensures a[i] == b[i] {
      if |v| > len {
        OneLowerCase(v[i], a[i], b[i]);
      } else if i < len - |v| {
        if v[0] != '1' { OneLowerCase(v[0], a[i], b[i]); }
      } else {
        var j := i - (len - |v|);
        assert InLowerCase(v[j], a[len - |v| + j]) && InLowerCase(v[j], b[len - |v| + j]);
        OneLowerCase(v[j], a[i], b[i]);
      }
    }
  }

  lemma NormaliseMeans(v: string, len: nat)
    requires v != ""
    ensures Means(v, len, Normalise(v, len))
  {
    hide InLowerCase, LowerChar;
    forall c ensures InLowerCase(c, LowerChar(c)) { Lowered(c); }
    assert v[0] == '1' ==> LowerChar('0') == '0' by { Zero(); }
  }

  lemma Zero()
    ensures LowerChar('0') == '0'
  {
  }

  lemma BitsStay(c: char, r: char)
    requires InLowerCase(c, r)
    ensures IsBit(c) ==> r == c
  {
    if IsBit(c) {
      forall i | 0 <= i < 26 ensures UPPER[i] != c { Alphabet(i); }
    }
  }

  lemma {:induction false} LeadingZeros(n: nat, s: string)
    requires n <= |s| && forall i :: 0 <= i < n ==> s[i] == '0'
    ensures Number(s) == Number(s[n..])
    decreases |s|
  {
    if n < |s| {
      LeadingZeros(n, s[..|s| - 1]);
      assert s[n..][..|s[n..]| - 1] == s[..|s| - 1][n..];
    } else if n > 0 {
      LeadingZeros(n - 1, s[..n - 1]);
      assert s[..n - 1][n - 1..] == "" && s[n..] == "";
    }
  }

  /** A number keeps its value, however many digits the symbol has beyond those reported. */
  lemma NumberIsKept(v: string, len: nat, s: string)
    requires v != "" && Binary(v) && |v| <= len && Means(v, len, s)
    ensures Binary(s) && Number(s) == Number(v)
  {
    hide InLowerCase, Number;
    var n := len - |v|;
    forall c, r | InLowerCase(c, r) ensures IsBit(c) ==> r == c { BitsStay(c, r); }
    forall i | 0 <= i < |v| ensures s[n + i] == v[i] { assert InLowerCase(v[i], s[len - |v| + i]); }
    assert s[n..] == v;
    forall i | 0 <= i < n ensures s[i] == '0' {
      if v[0] != '1' { assert InLowerCase(v[0], s[i]) && IsBit(v[0]); }
    }
    LeadingZeros(n, s);
    forall i | n <= i < len ensures IsBit(s[i]) { assert s[i] == s[n..][i - n] == v[i - n]; }
  }

  /** A value call gives its symbol the value that the string stands for, and leaves the others alone. */
  lemma EmitMeans(cfg: Config, st: State, k: nat, v: string)
    requires Ready(st) && k < |st.syms| && v != ""
    ensures var r := EmitValue(cfg, st, k, v);
      && |r.syms| == |st.syms| && Means(v, |st.syms[k].value|, r.syms[k].value)
      && forall j :: 0 <= j < |st.syms| && j != k ==> r.syms[j].value == st.syms[j].value
  {
    hide Normalise, Means;
    NormaliseMeans(v, |st.syms[k].value|);
    var r := EmitValue(cfg, st, k, v);
    var values := Values(st.syms)[k := Normalise(v, |st.syms[k].value|)];
    assert Lens(r.syms) == Lens(st.syms);
    forall j | 0 <= j < |st.syms| ensures r.syms[j].value == values[j] { assert Values(r.syms)[j] == values[j]; }
  }

  // ---------------------------------------------------------------- after some calls

  predicate IsValue(op: Op, k: nat) {
    op.ValueOp? && op.k == k && op.v != ""
  }

  /** The last of these calls that gives symbol `k` a value. */
  predicate LastValue(ops: seq<Op>, j: nat, k: nat) {
    j < |ops| && IsValue(ops[j], k) && forall i :: j < i < |ops| ==> !IsValue(ops[i], k)
  }

  /** The value of symbol `k` after these calls: what the last one about it said, or the initial one. */
  ghost predicate ValueAfter(lens: seq<nat>, c: char, ops: seq<Op>, k: nat, s: string)
    requires k < |lens|
  {
    && (forall j: nat :: LastValue(ops, j, k) ==> Means(ops[j].v, lens[k], s))
    && ((forall j :: 0 <= j < |ops| ==> !IsValue(ops[j], k)) ==> s == Fill(lens[k], c))
  }

  ghost predicate ValuesAfter(lens: seq<nat>, c: char, ops: seq<Op>, values: seq<string>) {
    |values| == |lens| && forall k :: 0 <= k < |lens| ==> ValueAfter(lens, c, ops, k, values[k])
  }

  lemma ValueSnoc(lens: seq<nat>, c: char, ops: seq<Op>, op: Op, k: nat, s: string, s': string)
    requires k < |lens| && ValueAfter(lens, c, ops, k, s)
    requires if IsValue(op, k) then Means(op.v, lens[k], s') else s' == s
    ensures ValueAfter(lens, c, ops + [op], k, s')
  {
    hide Means;
    var all := ops + [op];
    forall j: nat | LastValue(all, j, k) ensures Means(all[j].v, lens[k], s') {
      if j < |ops| {
        assert all[|ops|] == op && !IsValue(op, k);
        forall i | j < i < |ops| ensures !IsValue(ops[i], k) { assert all[i] == ops[i]; }
        assert LastValue(ops, j, k);
      }
    }
    if forall j :: 0 <= j < |all| ==> !IsValue(all[j], k) {
      assert all[|ops|] == op;
      forall j | 0 <= j < |ops| ensures !IsValue(ops[j], k) { assert all[j] == ops[j]; }
    }
  }

  // ---------------------------------------------------------------- the time after some calls

  datatype Clock = Unset | At(first: int, open: int)

  /** The first time set, and the one set last among those that are later: no other call counts. */
  function ClockAfter(symbols: nat, ops: seq<Op>): Clock {
    if ops == [] then Unset
    else
      var before, op := ClockAfter(symbols, ops[..|ops| - 1]), ops[|ops| - 1];
      if op.TimeOp? then
        if before.Unset? then At(op.t, op.t) else if op.t > before.first then before.(open := op.t) else before
      else if before.Unset? && op.k < symbols && op.v != "" then At(0, 0)
      else before
  }

  ghost predicate ClockIs(st: State, clock: Clock)
    requires Ready(st)
  {
    st.timeset == clock.At? && (clock.At? ==> st.maxtime == clock.first && Lxt2Times.OpenTime(st) == clock.open)
  }

  lemma ClockSteps(cfg: Config, st: State, ops: seq<Op>, op: Op)
    requires Ready(st) && ClockIs(st, ClockAfter(|st.syms|, ops))
    ensures ClockIs(Step(cfg, st, op), ClockAfter(|st.syms|, ops + [op]))
  {
    hide Step, Ready, Lxt2Times.OpenTime;
    Lxt2Times.StepTimes(cfg, st, op);
    assert (ops + [op])[..|ops|] == ops;
  }

  // ---------------------------------------------------------------- the rows

  /** Each row is cut off at one of these numbers of calls, and holds the time and the values after them. */
  ghost predicate RowsMean(lens: seq<nat>, c: char, ops: seq<Op>, rows: seq<Row>, cuts: seq<nat>) {
    && |cuts| == |rows| && (forall p, q :: 0 <= p < q < |cuts| ==> cuts[p] < cuts[q])
    && (forall p :: 0 <= p < |cuts| ==> cuts[p] <= |ops| && RowMeans(lens, c, ops[..cuts[p]], rows[p]))
  }

  ghost predicate RowMeans(lens: seq<nat>, c: char, past: seq<Op>, row: Row) {
    && ValuesAfter(lens, c, past, row.values)
    && ClockAfter(|lens|, past).At? && row.time == ClockAfter(|lens|, past).open
  }

  /** While nothing has changed since the last row, the values are those of that row. */
  ghost predicate Settled(st: State) {
    st.timeset && st.syms != [] && !st.bumptime ==>
      st.rows != [] && st.rows[|st.rows| - 1].values == Values(st.syms)
  }

  /** What holds after the calls `ops`. */
  ghost predicate Recorded(lens: seq<nat>, c: char, ops: seq<Op>, st: State, cuts: seq<nat>)
    requires Ready(st)
  {
    && ValuesAfter(lens, c, ops, Values(st.syms)) && ClockIs(st, ClockAfter(|lens|, ops)) && Settled(st)
    && RowsMean(lens, c, ops, st.rows, cuts) && (forall p :: 0 <= p < |cuts| ==> cuts[p] < |ops|)
  }

  lemma EmitSettles(cfg: Config, st: State, k: nat, v: string)
    requires Ready(st) && k < |st.syms| && |v| == |st.syms[k].value|
    ensures Settled(st) ==> Settled(Emit(cfg, st, k, v))
    ensures AtSectionStart(st) ==> Emit(cfg, st, k, v).bumptime
    ensures st.bumptime ==> Emit(cfg, st, k, v).bumptime
  {
  }

  lemma {:induction false} BurstSettles(cfg: Config, st: State, k: nat)
    requires Ready(st) && k <= |st.syms| && AtSectionStart(st)
    ensures k < |st.syms| || st.bumptime ==> Burst(cfg, st, k).bumptime
    decreases |st.syms| - k
  {
    hide Emit, Ready;
    if k < |st.syms| {
      EmitSettles(cfg, st, k, st.syms[k].value);
      assert Lens(Emit(cfg, st, k, st.syms[k].value).syms)[k] == Lens(st.syms)[k];
      BurstSettles(cfg, Emit(cfg, st, k, st.syms[k].value), k + 1);
    }
  }

  lemma SetTimeSettles(cfg: Config, st: State, t: int)
    requires Ready(st) && Settled(st) && (!st.timeset ==> AtSectionStart(st) && st.numblock == 0)
    ensures Settled(SetTime(cfg, st, t))
  {
    hide Burst, FinishPosition, Ready, Values;
    var m := MoveTime(cfg, st, t);
    if AtSectionStart(m) && (m.numblock == 0 || !cfg.noCheckpoint) {
      BurstSettles(cfg, m, 0);
    }
  }

  lemma NothingSet(st: State)
    requires Ready(st) && !st.timeset
    ensures AtSectionStart(st) && st.numblock == 0
  {
  }

  lemma StepSettles(cfg: Config, st: State, op: Op)
    requires Ready(st) && Settled(st)
    ensures Settled(Step(cfg, st, op))
  {
    hide SetTime, Emit, Ready, Settled, Normalise;
    if !st.timeset { NothingSet(st); }
    match op
    case TimeOp(t) => SetTimeSettles(cfg, st, t);
    case ValueOp(k, v) =>
      if k < |st.syms| && v != "" {
        if !st.timeset { SetTimeSettles(cfg, st, 0); }
        var m := if st.timeset then st else SetTime(cfg, st, 0);
        assert Lens(m.syms)[k] == |m.syms[k].value|;
        EmitSettles(cfg, m, k, Normalise(v, |st.syms[k].value|));
      }
  }

  /** A call adds a row only as a later time call does: with the values and the time before it. */
  lemma StepRows(cfg: Config, st: State, op: Op)
    requires Ready(st)
    ensures Step(cfg, st, op).rows ==
      if op.TimeOp? && Finishes(st, op.t) then st.rows + [Row(Lxt2Times.OpenTime(st), Values(st.syms))] else st.rows
  {
    hide SetTime, Emit, Ready, Normalise;
    match op
    case TimeOp(t) =>
    case ValueOp(k, v) =>
      if k < |st.syms| && v != "" {
        var m := if st.timeset then st else SetTime(cfg, st, 0);
        assert Lens(m.syms)[k] == |m.syms[k].value|;
      }
  }

  lemma StepValues(cfg: Config, st: State, op: Op, lens: seq<nat>, c: char, ops: seq<Op>)
    requires Ready(st) && Lens(st.syms) == lens && ValuesAfter(lens, c, ops, Values(st.syms))
    ensures ValuesAfter(lens, c, ops + [op], Values(Step(cfg, st, op).syms))
  {
    hide SetTime, EmitValue, Ready, Means, ValueAfter;
    var r := Step(cfg, st, op);
    if op.ValueOp? && op.k < |st.syms| && op.v != "" { EmitMeans(cfg, st, op.k, op.v); }
    assert |Values(r.syms)| == |Lens(r.syms)| == |lens|;
    forall k | 0 <= k < |lens| ensures ValueAfter(lens, c, ops + [op], k, Values(r.syms)[k]) {
      assert lens[k] == |st.syms[k].value|;
      if !IsValue(op, k) { ValueStays(cfg, st, op, k); }
      ValueSnoc(lens, c, ops, op, k, Values(st.syms)[k], Values(r.syms)[k]);
    }
  }

  lemma ValueStays(cfg: Config, st: State, op: Op, k: nat)
    requires Ready(st) && k < |st.syms| && !IsValue(op, k)
    ensures |Step(cfg, st, op).syms| == |st.syms| && Values(Step(cfg, st, op).syms)[k] == Values(st.syms)[k]
  {
    hide SetTime, EmitValue, Ready, Normalise;
    assert |Lens(Step(cfg, st, op).syms)| == |Lens(st.syms)|;
  }

  lemma OneMoreCut(lens: seq<nat>, c: char, ops: seq<Op>, rows: seq<Row>, cuts: seq<nat>, row: Row)
    requires RowsMean(lens, c, ops, rows, cuts) && (forall p :: 0 <= p < |cuts| ==> cuts[p] < |ops|)
    requires RowMeans(lens, c, ops, row)
    ensures RowsMean(lens, c, ops, rows + [row], cuts + [|ops|])
  {
    hide RowMeans;
    assert ops[..|ops|] == ops;
  }

  lemma MoreCalls(lens: seq<nat>, c: char, ops: seq<Op>, op: Op, rows: seq<Row>, cuts: seq<nat>)
    requires RowsMean(lens, c, ops, rows, cuts)
    ensures RowsMean(lens, c, ops + [op], rows, cuts)
  {
    hide RowMeans;
    forall p | 0 <= p < |cuts| ensures (ops + [op])[..cuts[p]] == ops[..cuts[p]] { }
  }

  /** The row that is open when a later time comes, or at the end, is what was reported by then. */
  lemma OpenRowMeans(lens: seq<nat>, c: char, ops: seq<Op>, st: State)
    requires Ready(st) && st.timeset && ValuesAfter(lens, c, ops, Values(st.syms))
    requires ClockIs(st, ClockAfter(|lens|, ops))
    ensures RowMeans(lens, c, ops, Row(Lxt2Times.OpenTime(st), Values(st.syms)))
  {
  }

  lemma StepRecorded(cfg: Config, st: State, op: Op, lens: seq<nat>, c: char, ops: seq<Op>, cuts: seq<nat>)
    returns (cuts': seq<nat>)
    requires Ready(st) && Lens(st.syms) == lens && Recorded(lens, c, ops, st, cuts)
    ensures Recorded(lens, c, ops + [op], Step(cfg, st, op), cuts')
  {
    hide Step, Ready, ValuesAfter, ClockIs, ClockAfter, RowMeans, RowsMean, Settled, Lxt2Times.OpenTime;
    assert |st.syms| == |lens|;
    StepRows(cfg, st, op);
    StepValues(cfg, st, op, lens, c, ops);
    StepSettles(cfg, st, op);
    ClockSteps(cfg, st, ops, op);
    cuts' := cuts;
    if op.TimeOp? && Finishes(st, op.t) {
      OpenRowMeans(lens, c, ops, st);
      OneMoreCut(lens, c, ops, st.rows, cuts, Row(Lxt2Times.OpenTime(st), Values(st.syms)));
      cuts' := cuts + [|ops|];
    }
    MoreCalls(lens, c, ops, op, Step(cfg, st, op).rows, cuts');
  }

  lemma {:induction false} RunSnoc(cfg: Config, st: State, ops: seq<Op>, op: Op)
    requires Ready(st)
    ensures Run(cfg, st, ops + [op]) == Step(cfg, Run(cfg, st, ops), op)
    decreases |ops|
  {
    hide Step, Ready;
    if ops == [] {
      assert [] + [op] == [op] && [op][1..] == [];
      assert Run(cfg, st, [op]) == Run(cfg, Step(cfg, st, op), []);
    } else {
      assert (ops + [op])[1..] == ops[1..] + [op];
      RunSnoc(cfg, Step(cfg, st, ops[0]), ops[1..], op);
    }
  }

  lemma InitialRecorded(lens: seq<nat>, c: char)
    requires forall k :: 0 <= k < |lens| ==> lens[k] > 0
    ensures Ready(Initial(lens, c)) && Recorded(lens, c, [], Initial(lens, c), [])
  {
    InitialReady(lens, c);
  }

  lemma {:induction false} RunRecorded(cfg: Config, lens: seq<nat>, c: char, ops: seq<Op>) returns (cuts: seq<nat>)
    requires forall k :: 0 <= k < |lens| ==> lens[k] > 0
    ensures Ready(Initial(lens, c)) && Recorded(lens, c, ops, Run(cfg, Initial(lens, c), ops), cuts)
    decreases |ops|
  {
    hide Step, Recorded, Initial, Ready;
    InitialReady(lens, c);
    if ops == [] {
      InitialRecorded(lens, c);
      cuts := [];
    } else {
      var n := |ops| - 1;
      var past := RunRecorded(cfg, lens, c, ops[..n]);
      cuts := StepRecorded(cfg, Run(cfg, Initial(lens, c), ops[..n]), ops[n], lens, c, ops[..n], past);
      assert ops == ops[..n] + [ops[n]];
      RunSnoc(cfg, Initial(lens, c), ops[..n], ops[n]);
    }
  }

  /**
   Main result: after any calls and the close, every row holds, symbol by symbol, the value that the last
   call about the symbol stood for at some point of the run, and the time that was set last by then; the
   rows' points ascend, and the last one is the end.
   */
  lemma RowsAreWhatWasReported(cfg: Config, lens: seq<nat>, c: char, ops: seq<Op>) returns (cuts: seq<nat>)
    requires forall k :: 0 <= k < |lens| ==> lens[k] > 0
    ensures Ready(Initial(lens, c))
    ensures var rows := Close(cfg, Run(cfg, Initial(lens, c), ops)).rows;
      RowsMean(lens, c, ops, rows, cuts) &&
      (ClockAfter(|lens|, ops).At? ==> cuts != [] && cuts[|cuts| - 1] == |ops|)
  {
    hide Step, Ready, Initial, ValuesAfter, RowMeans, ClockAfter, Lxt2Times.OpenTime;
    cuts := RunRecorded(cfg, lens, c, ops);
    var st := Run(cfg, Initial(lens, c), ops);
    if st.timeset {
      OpenRowMeans(lens, c, ops, st);
      hide RowsMean;
      OneMoreCut(lens, c, ops, st.rows, cuts, Row(Lxt2Times.OpenTime(st), Values(st.syms)));
      CloseAddsRow(cfg, st);
      cuts := cuts + [|ops|];
    }
  }

  lemma CloseAddsRow(cfg: Config, st: State)
    requires Ready(st) && st.timeset
    ensures Close(cfg, st).rows == st.rows + [Row(Lxt2Times.OpenTime(st), Values(st.syms))]
  {
  }

  /** No change slips through: after a call that sets a later time the last row holds the values there were. */
  lemma LaterTimeRecords(cfg: Config, lens: seq<nat>, c: char, ops: seq<Op>, t: int)
    requires lens != [] && forall k :: 0 <= k < |lens| ==> lens[k] > 0
    requires ClockAfter(|lens|, ops).At? && t > ClockAfter(|lens|, ops).first
    ensures Ready(Initial(lens, c))
    ensures var rows := Step(cfg, Run(cfg, Initial(lens, c), ops), TimeOp(t)).rows;
      rows != [] && ValuesAfter(lens, c, ops, rows[|rows| - 1].values)
  {
    hide Step, Ready, Initial, ValuesAfter, RowMeans, ClockAfter, Lxt2Times.OpenTime, RowsMean;
    var cuts := RunRecorded(cfg, lens, c, ops);
    InitialReady(lens, c);
    var st := Run(cfg, Initial(lens, c), ops);
    assert |Lens(st.syms)| == |lens|;
    StepRows(cfg, st, TimeOp(t));
  }

  /** A reader of the file finds rows that hold what was reported. */
  ghost predicate FileMeans(lens: seq<nat>, c: char, ops: seq<Op>, log: seq<Position>, cuts: seq<nat>) {
    exists rows: seq<Row> :: Replays(log, lens, rows) && RowsMean(lens, c, ops, rows, cuts)
  }

  /**
   With one change per symbol and position a reader of the closed file finds, position by position, the
   time set last and the values reported last by then.
   */
  lemma FileShowsWhatWasReported(cfg: Config, lens: seq<nat>, c: char, ops: seq<Op>) returns (cuts: seq<nat>)
    requires InitialChar(c) && forall k :: 0 <= k < |lens| ==> lens[k] > 0
    ensures Ready(Initial(lens, c))
    ensures Gentle(cfg, Initial(lens, c), ops) ==>
      FileMeans(lens, c, ops, ReadFile(Close(cfg, Run(cfg, Initial(lens, c), ops)).file), cuts)
  {
    hide Replays, RowsMean, Initial, Ready, Close, Gentle, ClockAfter;
    GentleTraceReplays(cfg, lens, c, ops);
    cuts := RowsAreWhatWasReported(cfg, lens, c, ops);
  }
}
