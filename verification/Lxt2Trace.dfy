/**
 The LXT2 trace as a state machine and its reader.

 The writer works on time positions: 64 to a granule, `maxgranule` granules to a section. Within
 a granule each symbol has a mask of the positions where it changed and a list of codes; a
 granule stores one map id per symbol and all code lists end to end; a section ends with the
 dictionaries that resolve word codes and map ids.
 */
module Lxt2Trace {
  import opened Sequences
  import opened Wrappers
  import opened Lxt2Codec
  import opened Lxt2Dictionary

  const GRANULE: nat := 64

  // ---------------------------------------------------------------- the file

  datatype Granule = Granule(times: seq<int>, maps: seq<nat>, codes: seq<nat>)
  datatype Section = Section(granules: seq<Granule>, dict: seq<string>, masks: seq<seq<bool>>)

  /** How many positions below `t` are set in the mask. */
  function Count(msk: seq<bool>, t: nat): (n: nat)
    requires t <= |msk|
    ensures n <= t
  {
    if t == 0 then 0 else Count(msk, t - 1) + (if msk[t - 1] then 1 else 0)
  }

  /** Where the codes of symbol `k` begin in a granule's code list. */
  function Offset(masks: seq<seq<bool>>, maps: seq<nat>, k: nat): nat
    requires k <= |maps|
  {
    if k == 0 then 0
    else Offset(masks, maps, k - 1) + (if maps[k - 1] < |masks| then Count(masks[maps[k - 1]], |masks[maps[k - 1]]|)
      else 0)
  }

  // ---------------------------------------------------------------- reading

  /** A code with its dictionary word looked up. */
  datatype Resolved = Plain(code: nat) | AWord(w: string) | Bad

  function Resolve(code: nat, dict: seq<string>): Resolved {
    if code < DICT_START then Plain(code)
    else if code < DICT_START + |dict| then AWord(dict[code - DICT_START])
    else Bad
  }

  /** One time position: its time and, for each symbol, the change recorded there. */
  datatype Position = Position(time: int, events: seq<Option<Resolved>>)

  /** What symbol data `(msk, codes)` records at position `p`. */
  function EventAt(msk: seq<bool>, codes: seq<nat>, p: nat, dict: seq<string>): Option<Resolved> {
    if p >= |msk| || !msk[p] then None
    else if Count(msk, p) < |codes| then Some(Resolve(codes[Count(msk, p)], dict))
    else Some(Bad)
  }

  function GranuleEvent(g: Granule, masks: seq<seq<bool>>, dict: seq<string>, k: nat, p: nat): Option<Resolved>
    requires k < |g.maps|
  {
    var from := Offset(masks, g.maps, k);
    if g.maps[k] < |masks| && from <= |g.codes| then
      EventAt(masks[g.maps[k]], g.codes[from..], p, dict)
    else Some(Bad)
  }

  function ReadGranule(g: Granule, masks: seq<seq<bool>>, dict: seq<string>): (ps: seq<Position>)
    ensures |ps| == |g.times|
  {
    seq(|g.times|, p requires 0 <= p < |g.times| =>
      Position(g.times[p], seq(|g.maps|, k requires 0 <= k < |g.maps| => GranuleEvent(g, masks, dict, k, p))))
  }

  function ReadGranules(gs: seq<Granule>, masks: seq<seq<bool>>, dict: seq<string>): seq<Position> {
    if gs == [] then []
    else ReadGranules(gs[..|gs| - 1], masks, dict) + ReadGranule(gs[|gs| - 1], masks, dict)
  }

  function ReadFile(file: seq<Section>): seq<Position> {
    if file == [] then []
    else
      var s := file[|file| - 1];
      ReadFile(file[..|file| - 1]) + ReadGranules(s.granules, s.masks, s.dict)
  }

  /** The value a change gives a symbol of length `len` that held `base` (`None`: nothing known yet). */
  function Apply(c: Resolved, base: Option<string>, len: nat): Option<string> {
    match c
    case Plain(code) =>
      if base.Some? then Decode(code, base.value, [])
      else if Reads(code, Fill(len, 'x')) == "" then Decode(code, Fill(len, 'x'), []) else None
    case AWord(w) => if w == "" then None else Some(Pad(w, len))
    case Bad => None
  }

  function Next(e: Option<Resolved>, base: Option<string>, len: nat): Option<string> {
    if e.None? then base else Apply(e.value, base, len)
  }

  /** What a reader holds for each symbol after the positions read so far. */
  function Held(log: seq<Position>, lens: seq<nat>): (vs: seq<Option<string>>)
    ensures |vs| == |lens|
  {
    if log == [] then seq(|lens|, _ => None)
    else
      var prev, p := Held(log[..|log| - 1], lens), log[|log| - 1];
      seq(|lens|, k requires 0 <= k < |lens| =>
        if k < |p.events| then Next(p.events[k], prev[k], lens[k]) else None)
  }

  /** A row of the waveform: the time and every symbol's value from then on. */
  datatype Row = Row(time: int, values: seq<string>)

  ghost predicate SameValues(vs: seq<Option<string>>, values: seq<string>) {
    |vs| == |values| && forall k :: 0 <= k < |vs| ==> vs[k] == Some(values[k])
  }

  /** The reader reconstructs exactly these rows. */
  ghost predicate Replays(log: seq<Position>, lens: seq<nat>, rows: seq<Row>) {
    && |log| == |rows|
    && forall p :: 0 <= p < |log| ==>
      log[p].time == rows[p].time && SameValues(Held(log[..p + 1], lens), rows[p].values)
  }

  // ---------------------------------------------------------------- the writer

  datatype Config = Config(maxgranule: nat, noCheckpoint: bool, signedShift: bool)

  datatype Sym = Sym(value: string, msk: seq<bool>, codes: seq<nat>)

  /**
   The writer's variables, and beside them the truth it ought to record: `rows` are the finished
   time positions as the caller saw them. `ok[k]` says that the code on record for symbol `k` at
   the open position is still readable, `faithful` that every finished position was.
   */
  datatype State = State(
    syms: seq<Sym>,
    timepos: nat, timegranule: nat, numblock: nat,
    timeset: bool, bumptime: bool, maxtime: int,
    times: seq<int>,
    dict: seq<string>, masks: seq<seq<bool>>,
    granules: seq<Granule>, file: seq<Section>,
    log: seq<Position>, rows: seq<Row>, ok: seq<bool>, faithful: bool)

  function Lens(syms: seq<Sym>): (lens: seq<nat>)
    ensures |lens| == |syms| && forall k :: 0 <= k < |syms| ==> lens[k] == |syms[k].value|
  {
    seq(|syms|, k requires 0 <= k < |syms| => |syms[k].value|)
  }

  function Values(syms: seq<Sym>): (values: seq<string>)
    ensures |values| == |syms| && forall k :: 0 <= k < |syms| ==> values[k] == syms[k].value
  {
    seq(|syms|, k requires 0 <= k < |syms| => syms[k].value)
  }

  function LowerChar(c: char): char {
    if 'A' <= c <= 'Z' then ((c as int) + 32) as char else c
  }

  /** The caller's string brought to the symbol's length and to lower case. */
  function Normalise(v: string, len: nat): (r: string)
    requires v != ""
    ensures |r| == len
  {
    var w := if |v| <= len then Pad(v, len) else v[..len];
    seq(len, i requires 0 <= i < len => LowerChar(w[i]))
  }

  function IndexOf<K(==)>(keys: seq<K>, k: K): (i: nat)
    requires k in keys
    ensures i < |keys| && keys[i] == k
  {
    if keys[0] == k then 0 else 1 + IndexOf(keys[1..], k)
  }

  predicate AtSectionStart(st: State) { st.timepos == 0 && st.timegranule == 0 }

  /** The code for a new value, and the dictionary after it. */
  function CodeFor(cfg: Config, st: State, k: nat, v: string): (nat, seq<string>)
    requires k < |st.syms| && |v| == |st.syms[k].value| > 0
  {
    match Choose(AtSectionStart(st), st.syms[k].value, v, cfg.signedShift)
    case Fixed(code) => (code, st.dict)
    case InDictionary =>
      var dict := Interned(st.dict, Word(v));
      (DICT_START + IndexOf(dict, Word(v)), dict)
  }

  /** Does overwriting the code of symbol `k` at the open position leave it readable? */
  function StillReadable(st: State, k: nat, code: nat): bool
    requires k < |st.syms|
  {
    st.rows == [] ||
    (var base := st.rows[|st.rows| - 1].values;
     k < |base| && Reads(code, base[k]) == Reads(code, st.syms[k].value))
  }

  /** `lxt2_wr_emit_value_bit_string` once the value has its final form. */
  function EmitNormal(cfg: Config, st: State, k: nat, v: string): State
    requires k < |st.syms| == |st.ok| && |v| == |st.syms[k].value| > 0
    requires st.timepos < |st.syms[k].msk|
    requires st.syms[k].msk[st.timepos] ==> st.syms[k].codes != []
  {
    var s := st.syms[k];
    if !AtSectionStart(st) && v == s.value then st
    else
      var (code, dict) := CodeFor(cfg, st, k, v);
      st.(bumptime := true, dict := dict,
          syms := st.syms[k := Marked(s, st.timepos, v, code)],
          ok := if s.msk[st.timepos] then st.ok[k := StillReadable(st, k, code)] else st.ok)
  }

  // ---------------------------------------------------------------- invariants

  predicate SymOk(s: Sym, timepos: nat, nDict: nat) {
    && s.value != ""
    && |s.msk| == GRANULE
    && (forall t :: timepos < t < GRANULE ==> !s.msk[t])
    && |s.codes| == Count(s.msk, GRANULE)
    && (forall i :: 0 <= i < |s.codes| ==> s.codes[i] < DICT_START + nDict)
  }

  predicate WordsOk(dict: seq<string>) {
    forall i :: 0 <= i < |dict| ==> dict[i] != ""
  }

  /** The data structures are well formed while a position is open. */
  predicate Open(st: State) {
    && st.timepos < GRANULE
    && |st.ok| == |st.syms|
    && (forall k :: 0 <= k < |st.syms| ==> SymOk(st.syms[k], st.timepos, |st.dict|))
    && WordsOk(st.dict)
    && (st.timeset ==> |st.times| == st.timepos + 1)
    && (!st.timeset ==>
          st.timepos == 0 && st.timegranule == 0 && st.numblock == 0 &&
          st.times == [] && st.rows == [] && st.file == [])
  }

  lemma {:induction false} CountMonotone(msk: seq<bool>, t: nat, u: nat)
    requires t <= u <= |msk|
    ensures Count(msk, t) <= Count(msk, u)
    ensures t < u && msk[t] ==> Count(msk, t) < Count(msk, u)
    decreases u
  {
    if t < u { CountMonotone(msk, t, u - 1); }
  }

  lemma {:induction false} CountStops(msk: seq<bool>, t: nat, u: nat)
    requires t <= u <= |msk| && forall i :: t <= i < u ==> !msk[i]
    ensures Count(msk, u) == Count(msk, t)
  {
    if t < u { CountStops(msk, t, u - 1); }
  }

  lemma {:induction false} CountAgrees(m: seq<bool>, m': seq<bool>, t: nat)
    requires t <= |m| && t <= |m'| && m[..t] == m'[..t]
    ensures Count(m, t) == Count(m', t)
  {
    if t > 0 {
      assert m[t - 1] == m[..t][t - 1] == m'[..t][t - 1];
      assert m[..t - 1] == m[..t][..t - 1] == m'[..t][..t - 1] == m'[..t - 1];
      CountAgrees(m, m', t - 1);
    }
  }

  /** Setting the open position's bit appends one code slot and moves no earlier one. */
  lemma MarkPosition(s: Sym, t: nat, n: nat)
    requires SymOk(s, t, n) && t < GRANULE
    ensures var m := s.msk[t := true];
      && Count(m, t) == Count(s.msk, t)
      && Count(m, GRANULE) == Count(m, t) + 1
      && Count(s.msk, GRANULE) == Count(s.msk, t) + (if s.msk[t] then 1 else 0)
      && forall p :: 0 <= p < t ==> Count(m, p) == Count(s.msk, p) && (s.msk[p] ==> Count(s.msk, p) < Count(s.msk, t))
  {
    var m := s.msk[t := true];
    forall p | 0 <= p <= t ensures Count(m, p) == Count(s.msk, p) {
      assert m[..p] == s.msk[..p];
      CountAgrees(m, s.msk, p);
    }
    CountStops(m, t + 1, GRANULE);
    CountStops(s.msk, t + 1, GRANULE);
    forall p | 0 <= p < t && s.msk[p] ensures Count(s.msk, p) < Count(s.msk, t) {
      CountMonotone(s.msk, p, t);
    }
  }

  lemma CodeForFits(cfg: Config, st: State, k: nat, v: string)
    requires k < |st.syms| && |v| == |st.syms[k].value| > 0
    ensures var (code, dict) := CodeFor(cfg, st, k, v);
      && code < DICT_START + |dict| && st.dict <= dict
      && (WordsOk(st.dict) ==> WordsOk(dict))
  {
    ChooseSound(AtSectionStart(st), st.syms[k].value, v, cfg.signedShift, []);
  }

  /** The symbol after a change: its code list still has one code per set bit. */
  function Marked(s: Sym, t: nat, v: string, code: nat): Sym
    requires t < |s.msk| && (s.msk[t] ==> s.codes != [])
  {
    Sym(v, s.msk[t := true], if s.msk[t] then s.codes[|s.codes| - 1 := code] else s.codes + [code])
  }

  lemma MarkedOk(s: Sym, t: nat, v: string, code: nat, n: nat, n': nat)
    requires SymOk(s, t, n) && t < GRANULE && v != "" && code < DICT_START + n' && n <= n'
    ensures s.msk[t] ==> s.codes != []
    ensures SymOk(Marked(s, t, v, code), t, n')
    ensures Count(s.msk[t := true], t) == |Marked(s, t, v, code).codes| - 1
    ensures Marked(s, t, v, code).codes[|Marked(s, t, v, code).codes| - 1] == code
  {
    MarkPosition(s, t, n);
  }

  lemma EmitStaysOpen(cfg: Config, st: State, k: nat, v: string)
    requires Open(st) && k < |st.syms| && |v| == |st.syms[k].value|
    ensures st.syms[k].msk[st.timepos] ==> st.syms[k].codes != []
    ensures Open(EmitNormal(cfg, st, k, v))
    ensures Lens(EmitNormal(cfg, st, k, v).syms) == Lens(st.syms)
  {
    CodeForFits(cfg, st, k, v);
    var (code, dict) := CodeFor(cfg, st, k, v);
    MarkedOk(st.syms[k], st.timepos, v, code, |st.dict|, |dict|);
    forall j | 0 <= j < |st.syms| ensures SymOk(st.syms[j], st.timepos, |dict|) { }
  }

  // ---------------------------------------------------------------- an open position is told truly

  function EventNow(st: State, k: nat): Option<Resolved>
    requires k < |st.syms|
  {
    EventAt(st.syms[k].msk, st.syms[k].codes, st.timepos, st.dict)
  }

  /** What a reader would hold for symbol `k` if the open position ended now. */
  function HeldNow(st: State, k: nat): Option<string>
    requires k < |st.syms|
  {
    Next(EventNow(st, k), Held(st.log, Lens(st.syms))[k], |st.syms[k].value|)
  }

  /** The finished rows, as far as the invariant needs their shape. */
  ghost predicate RowsOk(st: State) {
    && |st.log| == |st.rows|
    && forall p :: 0 <= p < |st.rows| ==>
      && |st.rows[p].values| == |st.syms|
      && forall k :: 0 <= k < |st.syms| ==> |st.rows[p].values[k]| == |st.syms[k].value|
  }

  /** No change of symbol `k` at the open position: it still has the last finished row's value. */
  ghost predicate Quiet(st: State, k: nat)
    requires k < |st.syms| == |st.ok| && RowsOk(st)
  {
    st.rows != [] && st.ok[k] && st.rows[|st.rows| - 1].values[k] == st.syms[k].value
  }

  /** The file tells the truth exactly as far as `faithful` and `ok` say it does. */
  ghost predicate Truthful(st: State)
    requires Open(st)
  {
    && RowsOk(st)
    && (st.rows == [] ==> AtSectionStart(st))
    && (st.faithful <==> Replays(st.log, Lens(st.syms), st.rows))
    && (forall k :: 0 <= k < |st.syms| && !st.syms[k].msk[st.timepos] ==> Quiet(st, k))
    && (st.faithful ==> forall k :: 0 <= k < |st.syms| ==> (HeldNow(st, k) == Some(st.syms[k].value) <==> st.ok[k]))
  }

  lemma ResolveIsStable(code: nat, dict: seq<string>, dict': seq<string>)
    requires code < DICT_START + |dict| && dict <= dict'
    ensures Resolve(code, dict') == Resolve(code, dict)
  {
  }

  lemma EventIsStable(s: Sym, t: nat, p: nat, dict: seq<string>, dict': seq<string>)
    requires SymOk(s, t, |dict|) && dict <= dict'
    ensures EventAt(s.msk, s.codes, p, dict') == EventAt(s.msk, s.codes, p, dict)
  {
    if p < |s.msk| && s.msk[p] && Count(s.msk, p) < |s.codes| {
      ResolveIsStable(s.codes[Count(s.msk, p)], dict, dict');
    }
  }

  lemma ApplyDecodes(code: nat, dict: seq<string>, base: string)
    requires code < DICT_START + |dict| && WordsOk(dict)
    ensures Apply(Resolve(code, dict), Some(base), |base|) == Decode(code, base, dict)
  {
  }

  /** The chosen code gives the new value back from the old one, through the reader's eyes. */
  lemma CodeForDecodes(cfg: Config, st: State, k: nat, v: string)
    requires Open(st) && k < |st.syms| && |v| == |st.syms[k].value|
    ensures var (code, dict) := CodeFor(cfg, st, k, v);
      && Decode(code, st.syms[k].value, dict) == Some(v)
      && (AtSectionStart(st) ==>
            Reads(code, st.syms[k].value) == "" && Apply(Resolve(code, dict), None, |v|) == Some(v))
  {
    var old_ := st.syms[k].value;
    var (code, dict) := CodeFor(cfg, st, k, v);
    ChooseSound(AtSectionStart(st), old_, v, cfg.signedShift, dict);
    if AtSectionStart(st) && code < DICT_START {
      ChooseSound(true, Fill(|v|, 'x'), v, cfg.signedShift, []);
    }
    if AtSectionStart(st) && code >= DICT_START {
      PadUndoesTruncation(v);
    }
  }

  lemma LastHeld(st: State)
    requires RowsOk(st) && st.rows != [] && Replays(st.log, Lens(st.syms), st.rows)
    ensures SameValues(Held(st.log, Lens(st.syms)), st.rows[|st.rows| - 1].values)
  {
    assert st.log[..|st.log| - 1 + 1] == st.log;
  }

  /** Emitting a value keeps `ok` exact: the code at the open position decodes iff `ok` says so. */
  lemma EmitStaysTruthful(cfg: Config, st: State, k: nat, v: string)
    requires Open(st) && Truthful(st) && k < |st.syms| && |v| == |st.syms[k].value|
    ensures st.syms[k].msk[st.timepos] ==> st.syms[k].codes != []
    ensures var st' := EmitNormal(cfg, st, k, v); Open(st') && Truthful(st')
  {
    hide HeldNow, StillReadable, Resolve, EventAt, WordsOk, Replays;
    EmitStaysOpen(cfg, st, k, v);
    var st' := EmitNormal(cfg, st, k, v);
    if st' != st {
      EmitEvents(cfg, st, k, v);
      if st.faithful { EmitHolds(cfg, st, k, v); }
    }
  }

  lemma EmitHolds(cfg: Config, st: State, k: nat, v: string)
    requires Open(st) && Truthful(st) && st.faithful && k < |st.syms| && |v| == |st.syms[k].value|
    requires AtSectionStart(st) || v != st.syms[k].value
    ensures st.syms[k].msk[st.timepos] ==> st.syms[k].codes != []
    ensures var st' := EmitNormal(cfg, st, k, v);
      Open(st') && forall j :: 0 <= j < |st.syms| ==> (HeldNow(st', j) == Some(st'.syms[j].value) <==> st'.ok[j])
  {
    EmitStaysOpen(cfg, st, k, v);
    EmitEvents(cfg, st, k, v);
    EmitDecodes(cfg, st, k, v);
    var st' := EmitNormal(cfg, st, k, v);
    forall j | 0 <= j < |st.syms| ensures HeldNow(st', j) == Some(st'.syms[j].value) <==> st'.ok[j] {
      if j != k { assert HeldNow(st', j) == HeldNow(st, j); }
    }
  }

  /** An emission changes the open position's event of its own symbol and no other. */
  lemma EmitEvents(cfg: Config, st: State, k: nat, v: string)
    requires Open(st) && k < |st.syms| && |v| == |st.syms[k].value|
    requires AtSectionStart(st) || v != st.syms[k].value
    ensures st.syms[k].msk[st.timepos] ==> st.syms[k].codes != []
    ensures var st' := EmitNormal(cfg, st, k, v);
      && EventNow(st', k) == Some(Resolve(CodeFor(cfg, st, k, v).0, st'.dict))
      && forall j :: 0 <= j < |st.syms| && j != k ==> EventNow(st', j) == EventNow(st, j)
  {
    CodeForFits(cfg, st, k, v);
    var (code, dict) := CodeFor(cfg, st, k, v);
    MarkedOk(st.syms[k], st.timepos, v, code, |st.dict|, |dict|);
    forall j | 0 <= j < |st.syms| && j != k
      ensures EventAt(st.syms[j].msk, st.syms[j].codes, st.timepos, dict) == EventNow(st, j)
    {
      EventIsStable(st.syms[j], st.timepos, st.timepos, st.dict, dict);
    }
  }

  lemma EmitDecodes(cfg: Config, st: State, k: nat, v: string)
    requires Open(st) && Truthful(st) && st.faithful && k < |st.syms| && |v| == |st.syms[k].value|
    ensures var (code, dict) := CodeFor(cfg, st, k, v);
      var held := Apply(Resolve(code, dict), Held(st.log, Lens(st.syms))[k], |v|);
      && (!st.syms[k].msk[st.timepos] ==> held == Some(v) && st.ok[k])
      && (st.syms[k].msk[st.timepos] ==> (held == Some(v) <==> StillReadable(st, k, code)))
  {
    var (code, dict) := CodeFor(cfg, st, k, v);
    var old_ := st.syms[k].value;
    CodeForFits(cfg, st, k, v);
    CodeForDecodes(cfg, st, k, v);
    if st.rows != [] {
      LastHeld(st);
      var base := st.rows[|st.rows| - 1].values[k];
      ApplyDecodes(code, dict, base);
      DecodeReadsOnly(code, base, old_, dict);
    }
  }

  // ---------------------------------------------------------------- moving to the next position

  function EventsNow(st: State): (es: seq<Option<Resolved>>)
    ensures |es| == |st.syms|
  {
    seq(|st.syms|, k requires 0 <= k < |st.syms| => EventNow(st, k))
  }

  function AllOk(ok: seq<bool>): bool { forall k :: 0 <= k < |ok| ==> ok[k] }

  /** `timepos++`: the open position is finished. */
  function Advance(st: State): State
    requires Open(st) && st.timeset
  {
    st.(timepos := st.timepos + 1,
        log := st.log + [Position(st.times[st.timepos], EventsNow(st))],
        rows := st.rows + [Row(st.times[st.timepos], Values(st.syms))],
        ok := seq(|st.syms|, _ => true),
        faithful := st.faithful && AllOk(st.ok))
  }

  /** `Open` and `Truthful` with no change yet at the position, which may be one past the granule. */
  ghost predicate Fresh(st: State) {
    && st.timepos <= GRANULE && st.timeset && |st.times| == st.timepos
    && |st.ok| == |st.syms| && AllOk(st.ok)
    && (forall k :: 0 <= k < |st.syms| ==> SymOk(st.syms[k], st.timepos, |st.dict|))
    && (forall k :: 0 <= k < |st.syms| && st.timepos < GRANULE ==> !st.syms[k].msk[st.timepos])
    && WordsOk(st.dict)
    && RowsOk(st) && st.rows != []
    && st.rows[|st.rows| - 1].values == Values(st.syms)
    && (st.faithful <==> Replays(st.log, Lens(st.syms), st.rows))
  }

  lemma ReplaysOneMore(log: seq<Position>, lens: seq<nat>, rows: seq<Row>, p: Position, r: Row)
    requires |log| == |rows|
    ensures Replays(log + [p], lens, rows + [r]) <==>
      Replays(log, lens, rows) && p.time == r.time && SameValues(Held(log + [p], lens), r.values)
  {
    var log', rows', n := log + [p], rows + [r], |log|;
    assert log'[..n + 1] == log';
    if Replays(log, lens, rows) && p.time == r.time && SameValues(Held(log', lens), r.values) {
      forall i | 0 <= i < n + 1
        ensures log'[i].time == rows'[i].time && SameValues(Held(log'[..i + 1], lens), rows'[i].values)
      {
        if i < n { assert log'[i] == log[i] && rows'[i] == rows[i] && log'[..i + 1] == log[..i + 1]; }
      }
    }
    if Replays(log', lens, rows') {
      forall i | 0 <= i < n
        ensures log[i].time == rows[i].time && SameValues(Held(log[..i + 1], lens), rows[i].values)
      {
        assert log'[i] == log[i] && rows'[i] == rows[i] && log'[..i + 1] == log[..i + 1];
      }
      assert log'[n] == p && rows'[n] == r;
    }
  }

  /** Finishing the position: its row is read back exactly when every code on record is `ok`. */
  lemma AdvanceIsFresh(st: State)
    requires Open(st) && Truthful(st) && st.timeset
    ensures Fresh(Advance(st))
  {
    var st', lens := Advance(st), Lens(st.syms);
    var p, r := Position(st.times[st.timepos], EventsNow(st)), Row(st.times[st.timepos], Values(st.syms));
    ReplaysOneMore(st.log, lens, st.rows, p, r);
    assert (st.log + [p])[..|st.log|] == st.log;
    assert forall k :: 0 <= k < |lens| ==> Held(st'.log, lens)[k] == HeldNow(st, k);
    if st.faithful && AllOk(st.ok) {
      assert SameValues(Held(st'.log, lens), r.values);
    }
    if st.faithful && SameValues(Held(st'.log, lens), r.values) {
      forall k | 0 <= k < |st.ok| ensures st.ok[k] { assert HeldNow(st, k) == Some(st.syms[k].value); }
    }
  }

  /** A fresh position, once it has a time, is open and truthful. */
  lemma FreshOpens(st: State, t: int)
    requires Fresh(st) && st.timepos < GRANULE
    ensures var st' := st.(times := st.times + [t], bumptime := false); Open(st') && Truthful(st')
  {
    var st' := st.(times := st.times + [t], bumptime := false);
    if st.faithful {
      LastHeld(st);
      forall k | 0 <= k < |st.syms| ensures HeldNow(st', k) == Some(st.syms[k].value) { }
    }
  }

  // ---------------------------------------------------------------- granules and sections

  /** All code lists, symbol after symbol. */
  function Flat(syms: seq<Sym>): seq<nat> {
    if syms == [] then [] else Flat(syms[..|syms| - 1]) + syms[|syms| - 1].codes
  }

  function MasksOf(syms: seq<Sym>): (ms: seq<seq<bool>>)
    ensures |ms| == |syms| && forall k :: 0 <= k < |syms| ==> ms[k] == syms[k].msk
  {
    seq(|syms|, k requires 0 <= k < |syms| => syms[k].msk)
  }

  function Cleared(syms: seq<Sym>): (r: seq<Sym>)
    ensures |r| == |syms|
    ensures forall k :: 0 <= k < |syms| ==> r[k] == Sym(syms[k].value, seq(GRANULE, _ => false), [])
  {
    seq(|syms|, k requires 0 <= k < |syms| => Sym(syms[k].value, seq(GRANULE, _ => false), []))
  }

  function MapIds(syms: seq<Sym>, masks: seq<seq<bool>>): (ids: seq<nat>)
    requires forall k :: 0 <= k < |syms| ==> syms[k].msk in masks
    ensures |ids| == |syms| && forall k :: 0 <= k < |syms| ==> ids[k] < |masks| && masks[ids[k]] == syms[k].msk
  {
    seq(|syms|, k requires 0 <= k < |syms| && syms[k].msk in masks => IndexOf(masks, syms[k].msk))
  }

  /** `lxt2_wr_flush_granule`: one more granule, and at the end of a section its dictionaries. */
  ghost function Flush(cfg: Config, st: State, finalize: bool): State
    requires Distinct(st.masks)
  {
    IdsAreFinal(st.masks, MasksOf(st.syms));
    var masks := InternAll(st.masks, MasksOf(st.syms));
    assert forall k :: 0 <= k < |st.syms| ==> MasksOf(st.syms)[k] == st.syms[k].msk;
    var g := Granule(st.times, MapIds(st.syms, masks), Flat(st.syms));
    var granules := st.granules + [g];
    var st' := st.(syms := Cleared(st.syms), times := [], timepos := 0);
    if st.timegranule + 1 >= cfg.maxgranule || finalize then
      st'.(timegranule := 0, numblock := st.numblock + 1,
           granules := [], dict := [], masks := [],
           file := st.file + [Section(granules, st.dict, masks)])
    else
      st'.(timegranule := st.timegranule + 1, granules := granules, masks := masks)
  }

  /** The finished positions of the open granule, as a reader will see them. */
  function OpenPositions(st: State): (ps: seq<Position>)
    requires st.timepos <= |st.times|
    ensures |ps| == st.timepos
  {
    seq(st.timepos, p requires 0 <= p < st.timepos =>
      Position(st.times[p], seq(|st.syms|, k requires 0 <= k < |st.syms| =>
        EventAt(st.syms[k].msk, st.syms[k].codes, p, st.dict))))
  }

  predicate MasksOk(masks: seq<seq<bool>>) {
    forall i :: 0 <= i < |masks| ==> |masks[i]| == GRANULE
  }

  predicate GranuleOk(g: Granule, nMasks: nat, nDict: nat) {
    && (forall k :: 0 <= k < |g.maps| ==> g.maps[k] < nMasks)
    && (forall i :: 0 <= i < |g.codes| ==> g.codes[i] < DICT_START + nDict)
  }

  /** Reading what has been written, then the open granule, gives the log. */
  ghost predicate Packed(st: State) {
    && st.timepos <= |st.times|
    && MasksOk(st.masks) && Distinct(st.masks)
    && (forall i :: 0 <= i < |st.granules| ==> GranuleOk(st.granules[i], |st.masks|, |st.dict|))
    && st.log == ReadFile(st.file) + ReadGranules(st.granules, st.masks, st.dict) + OpenPositions(st)
  }

  lemma {:induction false} OffsetIsStable(masks: seq<seq<bool>>, masks': seq<seq<bool>>, maps: seq<nat>, k: nat)
    requires k <= |maps| && masks <= masks' && forall i :: 0 <= i < |maps| ==> maps[i] < |masks|
    ensures Offset(masks', maps, k) == Offset(masks, maps, k)
  {
    if k > 0 { OffsetIsStable(masks, masks', maps, k - 1); }
  }

  /** Growing dictionaries do not change what an earlier granule says. */
  lemma GranuleIsStable(g: Granule, masks: seq<seq<bool>>, dict: seq<string>,
    masks': seq<seq<bool>>, dict': seq<string>)
    requires GranuleOk(g, |masks|, |dict|) && masks <= masks' && dict <= dict'
    ensures ReadGranule(g, masks', dict') == ReadGranule(g, masks, dict)
  {
    forall k, p | 0 <= k < |g.maps| && 0 <= p < |g.times|
      ensures GranuleEvent(g, masks', dict', k, p) == GranuleEvent(g, masks, dict, k, p)
    {
      OffsetIsStable(masks, masks', g.maps, k);
      var from, m := Offset(masks, g.maps, k), masks[g.maps[k]];
      if from <= |g.codes| && p < |m| && m[p] && Count(m, p) < |g.codes[from..]| {
        ResolveIsStable(g.codes[from..][Count(m, p)], dict, dict');
      }
    }
    var a, b := ReadGranule(g, masks', dict'), ReadGranule(g, masks, dict);
    forall p | 0 <= p < |g.times| ensures a[p] == b[p] {
      assert forall k :: 0 <= k < |g.maps| ==> a[p].events[k] == b[p].events[k];
    }
  }

  lemma {:induction false} GranulesAreStable(gs: seq<Granule>, masks: seq<seq<bool>>, dict: seq<string>,
                                             masks': seq<seq<bool>>, dict': seq<string>)
    requires forall i :: 0 <= i < |gs| ==> GranuleOk(gs[i], |masks|, |dict|)
    requires masks <= masks' && dict <= dict'
    ensures ReadGranules(gs, masks', dict') == ReadGranules(gs, masks, dict)
  {
    if gs != [] {
      GranulesAreStable(gs[..|gs| - 1], masks, dict, masks', dict');
      GranuleIsStable(gs[|gs| - 1], masks, dict, masks', dict');
    }
  }

  /** In the end-to-end code list of a granule, symbol `k`'s codes are where its offset says. */
  lemma {:induction false} FlatSlice(syms: seq<Sym>, masks: seq<seq<bool>>, maps: seq<nat>, k: nat)
    requires k <= |syms| == |maps|
    requires forall j :: 0 <= j < |syms| ==> maps[j] < |masks| && masks[maps[j]] == syms[j].msk
    requires forall j :: 0 <= j < |syms| ==> |syms[j].msk| == GRANULE && |syms[j].codes| == Count(syms[j].msk, GRANULE)
    ensures Offset(masks, maps, k) == |Flat(syms[..k])| <= |Flat(syms)|
    ensures Flat(syms)[..|Flat(syms[..k])|] == Flat(syms[..k])
    ensures k < |syms| ==> syms[k].codes <= Flat(syms)[Offset(masks, maps, k)..]
  {
    FlatPrefix(syms, k);
    OffsetIsFlat(syms, masks, maps, k);
    if k < |syms| {
      FlatPrefix(syms, k + 1);
      var f, a := Flat(syms), Flat(syms[..k]);
      assert syms[..k + 1][..k] == syms[..k] && syms[..k + 1][k] == syms[k];
      assert Flat(syms[..k + 1]) == a + syms[k].codes;
      assert f[|a|..][..|syms[k].codes|] == f[..|a| + |syms[k].codes|][|a|..] == syms[k].codes;
    }
  }

  lemma {:induction false} FlatPrefix(syms: seq<Sym>, k: nat)
    requires k <= |syms|
    ensures Flat(syms[..k]) <= Flat(syms)
    decreases |syms|
  {
    if k == |syms| { assert syms[..k] == syms; }
    else {
      var init := syms[..|syms| - 1];
      FlatPrefix(init, k);
      assert init[..k] == syms[..k];
    }
  }

  lemma {:induction false} OffsetIsFlat(syms: seq<Sym>, masks: seq<seq<bool>>, maps: seq<nat>, k: nat)
    requires k <= |syms| == |maps|
    requires forall j :: 0 <= j < |syms| ==> maps[j] < |masks| && masks[maps[j]] == syms[j].msk
    requires forall j :: 0 <= j < |syms| ==> |syms[j].msk| == GRANULE && |syms[j].codes| == Count(syms[j].msk, GRANULE)
    ensures Offset(masks, maps, k) == |Flat(syms[..k])|
  {
    if k > 0 {
      OffsetIsFlat(syms, masks, maps, k - 1);
      assert syms[..k][..k - 1] == syms[..k - 1] && syms[..k][k - 1] == syms[k - 1];
    }
  }

  lemma {:induction false} FlatFits(syms: seq<Sym>, t: nat, n: nat)
    requires forall k :: 0 <= k < |syms| ==> SymOk(syms[k], t, n)
    ensures forall i :: 0 <= i < |Flat(syms)| ==> Flat(syms)[i] < DICT_START + n
  {
    if syms != [] { FlatFits(syms[..|syms| - 1], t, n); }
  }

  lemma PackedEvent(st: State, masks: seq<seq<bool>>, k: nat, p: nat)
    requires k < |st.syms| && p < GRANULE
    requires forall j :: 0 <= j < |st.syms| ==> SymOk(st.syms[j], st.timepos, |st.dict|)
    requires st.timepos <= GRANULE && forall j :: 0 <= j < |st.syms| ==> st.syms[j].msk in masks
    ensures GranuleEvent(Granule(st.times, MapIds(st.syms, masks), Flat(st.syms)), masks, st.dict, k, p) ==
      EventAt(st.syms[k].msk, st.syms[k].codes, p, st.dict)
  {
    var s := st.syms[k];
    FlatSlice(st.syms, masks, MapIds(st.syms, masks), k);
    if s.msk[p] { CountMonotone(s.msk, p, GRANULE); }
  }

  /** Packing a granule and reading it back are inverse. */
  lemma PackReadsBack(st: State, masks: seq<seq<bool>>)
    requires st.timepos <= GRANULE && |st.times| == st.timepos
    requires forall k :: 0 <= k < |st.syms| ==> SymOk(st.syms[k], st.timepos, |st.dict|)
    requires forall k :: 0 <= k < |st.syms| ==> st.syms[k].msk in masks
    ensures ReadGranule(Granule(st.times, MapIds(st.syms, masks), Flat(st.syms)), masks, st.dict) == OpenPositions(st)
  {
    var maps := MapIds(st.syms, masks);
    var g := Granule(st.times, maps, Flat(st.syms));
    var a, b := ReadGranule(g, masks, st.dict), OpenPositions(st);
    forall p | 0 <= p < st.timepos ensures a[p] == b[p] {
      forall k | 0 <= k < |st.syms| ensures a[p].events[k] == b[p].events[k] {
        PackedEvent(st, masks, k, p);
      }
    }
  }

  lemma ReadGranulesSnoc(gs: seq<Granule>, g: Granule, masks: seq<seq<bool>>, dict: seq<string>)
    ensures ReadGranules(gs + [g], masks, dict) == ReadGranules(gs, masks, dict) + ReadGranule(g, masks, dict)
  {
    assert (gs + [g])[..|gs|] == gs;
  }

  lemma InternedMasksOk(masks: seq<seq<bool>>, ms: seq<seq<bool>>)
    requires MasksOk(masks) && MasksOk(ms)
    ensures MasksOk(InternAll(masks, ms))
    decreases |ms|
  {
    if ms != [] { InternedMasksOk(Interned(masks, ms[0]), ms[1..]); }
  }

  lemma FlushKeepsValues(cfg: Config, st: State, finalize: bool)
    requires Distinct(st.masks)
    requires forall k :: 0 <= k < |st.syms| ==> st.syms[k].value != ""
    ensures var r := Flush(cfg, st, finalize);
      && r.timepos == 0 && r.times == [] && r.rows == st.rows && r.log == st.log && r.ok == st.ok
      && r.syms == Cleared(st.syms) && Lens(r.syms) == Lens(st.syms) && Values(r.syms) == Values(st.syms)
      && r.faithful == st.faithful && r.timeset == st.timeset
      && (r.dict == st.dict || r.dict == [])
  {
    ClearedOk(st, 0);
  }

  lemma FlushStaysFresh(cfg: Config, st: State, finalize: bool)
    requires Fresh(st) && Distinct(st.masks)
    ensures Fresh(Flush(cfg, st, finalize))
  {
    var st' := Flush(cfg, st, finalize);
    FlushKeepsValues(cfg, st, finalize);
    ClearedOk(st, |st'.dict|);
    assert RowsOk(st') by {
      forall p, k | 0 <= p < |st.rows| && 0 <= k < |st.syms| ensures |st.rows[p].values[k]| == |st'.syms[k].value| {
        assert st'.syms[k].value == st.syms[k].value;
      }
    }
  }

  lemma FlushedMasks(st: State, masks: seq<seq<bool>>)
    requires MasksOk(st.masks) && Distinct(st.masks) && masks == InternAll(st.masks, MasksOf(st.syms))
    requires forall k :: 0 <= k < |st.syms| ==> |st.syms[k].msk| == GRANULE
    ensures forall k :: 0 <= k < |st.syms| ==> st.syms[k].msk in masks
    ensures st.masks <= masks && MasksOk(masks) && Distinct(masks)
  {
    var ms := MasksOf(st.syms);
    IdsAreFinal(st.masks, ms);
    InternedMasksOk(st.masks, ms);
    forall k | 0 <= k < |st.syms| ensures st.syms[k].msk in masks { assert ms[k] in masks; }
  }

  /** The granule about to be written joins the ones before it. */
  lemma FlushedGranule(st: State, masks: seq<seq<bool>>)
    requires st.timepos <= GRANULE && |st.times| == st.timepos
    requires forall k :: 0 <= k < |st.syms| ==> SymOk(st.syms[k], st.timepos, |st.dict|)
    requires forall k :: 0 <= k < |st.syms| ==> st.syms[k].msk in masks
    requires forall i :: 0 <= i < |st.granules| ==> GranuleOk(st.granules[i], |st.masks|, |st.dict|)
    requires st.masks <= masks
    ensures var g := Granule(st.times, MapIds(st.syms, masks), Flat(st.syms));
      && GranuleOk(g, |masks|, |st.dict|)
      && ReadGranules(st.granules + [g], masks, st.dict)
         == ReadGranules(st.granules, st.masks, st.dict) + OpenPositions(st)
  {
    PackReadsBack(st, masks);
    GranulesAreStable(st.granules, st.masks, st.dict, masks, st.dict);
    var g := Granule(st.times, MapIds(st.syms, masks), Flat(st.syms));
    ReadGranulesSnoc(st.granules, g, masks, st.dict);
    FlatFits(st.syms, st.timepos, |st.dict|);
  }

  lemma ReadFileSnoc(file: seq<Section>, sec: Section)
    ensures ReadFile(file + [sec]) == ReadFile(file) + ReadGranules(sec.granules, sec.masks, sec.dict)
  {
    assert (file + [sec])[..|file|] == file;
  }

  lemma FlushedLog(st: State, masks: seq<seq<bool>>)
    requires Fresh(st) && Packed(st)
    requires masks == InternAll(st.masks, MasksOf(st.syms))
    ensures MasksOk(masks) && Distinct(masks)
    ensures forall k :: 0 <= k < |st.syms| ==> st.syms[k].msk in masks
    ensures var granules := st.granules + [Granule(st.times, MapIds(st.syms, masks), Flat(st.syms))];
      && ReadFile(st.file) + ReadGranules(granules, masks, st.dict) == st.log
      && forall i :: 0 <= i < |granules| ==> GranuleOk(granules[i], |masks|, |st.dict|)
  {
    FlushedMasks(st, masks);
    FlushedGranule(st, masks);
    Associate(ReadFile(st.file), ReadGranules(st.granules, st.masks, st.dict), OpenPositions(st));
    var granules := st.granules + [Granule(st.times, MapIds(st.syms, masks), Flat(st.syms))];
    forall i | 0 <= i < |granules| ensures GranuleOk(granules[i], |masks|, |st.dict|) {
      assert i < |st.granules| ==> granules[i] == st.granules[i];
    }
  }

  lemma FlushStaysPacked(cfg: Config, st: State, finalize: bool)
    requires Fresh(st) && Packed(st)
    ensures Packed(Flush(cfg, st, finalize))
    ensures finalize ==> ReadFile(Flush(cfg, st, finalize).file) == st.log
  {
    var st' := Flush(cfg, st, finalize);
    var masks := InternAll(st.masks, MasksOf(st.syms));
    FlushedLog(st, masks);
    var granules := st.granules + [Granule(st.times, MapIds(st.syms, masks), Flat(st.syms))];
    ReadFileSnoc(st.file, Section(granules, st.dict, masks));
    NothingOpen(st', st.log);
  }

  lemma NothingOpen(st: State, log: seq<Position>)
    requires st.timepos == 0
    ensures log + OpenPositions(st) == log && log + ReadGranules([], [], []) == log
  {
  }

  lemma ClearedOk(st: State, n: nat)
    requires forall k :: 0 <= k < |st.syms| ==> st.syms[k].value != ""
    ensures forall k :: 0 <= k < |st.syms| ==> SymOk(Cleared(st.syms)[k], 0, n)
    ensures Lens(Cleared(st.syms)) == Lens(st.syms) && Values(Cleared(st.syms)) == Values(st.syms)
  {
    forall k | 0 <= k < |st.syms| ensures SymOk(Cleared(st.syms)[k], 0, n) {
      CountStops(Cleared(st.syms)[k].msk, 0, GRANULE);
    }
  }

  lemma AdvanceStaysPacked(st: State)
    requires Open(st) && st.timeset && Packed(st)
    ensures Packed(Advance(st))
  {
    var st' := Advance(st);
    var p := Position(st.times[st.timepos], EventsNow(st));
    var a, b := OpenPositions(st'), OpenPositions(st) + [p];
    forall i | 0 <= i < |a| ensures a[i] == b[i] {
      assert a[i].events == b[i].events;
    }
    assert a == b;
  }

  lemma EmitStaysPacked(cfg: Config, st: State, k: nat, v: string)
    requires Open(st) && Packed(st) && k < |st.syms| && |v| == |st.syms[k].value|
    ensures st.syms[k].msk[st.timepos] ==> st.syms[k].codes != []
    ensures Packed(EmitNormal(cfg, st, k, v))
  {
    EmitStaysOpen(cfg, st, k, v);
    var st' := EmitNormal(cfg, st, k, v);
    if st' != st {
      CodeForFits(cfg, st, k, v);
      var (code, dict) := CodeFor(cfg, st, k, v);
      GranulesAreStable(st.granules, st.masks, st.dict, st.masks, dict);
      var a, b := OpenPositions(st'), OpenPositions(st);
      forall p | 0 <= p < st.timepos ensures a[p] == b[p] {
        forall j | 0 <= j < |st.syms| ensures a[p].events[j] == b[p].events[j] {
          EmitKeepsPast(cfg, st, k, v, j, p);
        }
      }
      assert a == b;
    }
  }

  lemma MarkedKeepsPast(s: Sym, t: nat, v: string, code: nat, p: nat, dict: seq<string>)
    requires SymOk(s, t, |dict|) && p < t < GRANULE
    requires s.msk[t] ==> s.codes != []
    ensures EventAt(Marked(s, t, v, code).msk, Marked(s, t, v, code).codes, p, dict) == EventAt(s.msk, s.codes, p, dict)
  {
    MarkPosition(s, t, |dict|);
  }

  lemma EmitKeepsPast(cfg: Config, st: State, k: nat, v: string, j: nat, p: nat)
    requires Open(st) && k < |st.syms| && |v| == |st.syms[k].value| && j < |st.syms| && p < st.timepos
    requires st.syms[k].msk[st.timepos] ==> st.syms[k].codes != []
    ensures var st' := EmitNormal(cfg, st, k, v);
      EventAt(st'.syms[j].msk, st'.syms[j].codes, p, st'.dict) == EventAt(st.syms[j].msk, st.syms[j].codes, p, st.dict)
  {
    CodeForFits(cfg, st, k, v);
    var (code, dict) := CodeFor(cfg, st, k, v);
    EventIsStable(st.syms[j], st.timepos, p, st.dict, dict);
    if j == k {
      MarkedKeepsPast(st.syms[k], st.timepos, v, code, p, dict);
    }
  }

  // ---------------------------------------------------------------- the operations

  /** What every operation may rely on; the truth of the record is a separate matter. */
  ghost predicate Ready(st: State) { Open(st) && Distinct(st.masks) }

  /** Between two positions: the last one is finished, the next has no time yet. */
  ghost predicate Between(st: State) {
    && st.timepos <= GRANULE && st.timeset && |st.times| == st.timepos && |st.ok| == |st.syms|
    && (forall k :: 0 <= k < |st.syms| ==> SymOk(st.syms[k], st.timepos, |st.dict|))
    && WordsOk(st.dict) && Distinct(st.masks)
  }

  lemma EmitKeepsRest(cfg: Config, st: State, k: nat, v: string)
    requires Open(st) && k < |st.syms| && |v| == |st.syms[k].value|
    ensures st.syms[k].msk[st.timepos] ==> st.syms[k].codes != []
    ensures var r := EmitNormal(cfg, st, k, v);
      && Lens(r.syms) == Lens(st.syms) && Values(r.syms) == Values(st.syms)[k := v]
      && r.timeset == st.timeset && r.rows == st.rows && r.times == st.times
      && r.timepos == st.timepos && r.timegranule == st.timegranule && r.masks == st.masks
  {
    EmitStaysOpen(cfg, st, k, v);
  }

  ghost function Emit(cfg: Config, st: State, k: nat, v: string): (r: State)
    requires Ready(st) && k < |st.syms| && |v| == |st.syms[k].value|
    ensures Ready(r) && Lens(r.syms) == Lens(st.syms) && Values(r.syms) == Values(st.syms)[k := v]
    ensures r.timeset == st.timeset && r.rows == st.rows && r.times == st.times
    ensures r.timepos == st.timepos && r.timegranule == st.timegranule
  {
    EmitStaysOpen(cfg, st, k, v);
    EmitKeepsRest(cfg, st, k, v);
    EmitNormal(cfg, st, k, v)
  }

  /** The initial value burst: every symbol from `k` on is emitted again. */
  ghost function Burst(cfg: Config, st: State, k: nat): (r: State)
    requires Ready(st) && k <= |st.syms|
    ensures Ready(r) && Lens(r.syms) == Lens(st.syms) && Values(r.syms) == Values(st.syms)
    ensures r.timeset == st.timeset && r.rows == st.rows && r.times == st.times
    ensures r.timepos == st.timepos && r.timegranule == st.timegranule
    decreases |st.syms| - k
  {
    if k == |st.syms| then st else Burst(cfg, Emit(cfg, st, k, st.syms[k].value), k + 1)
  }

  lemma AdvanceIsBetween(st: State)
    requires Ready(st) && st.timeset
    ensures Between(Advance(st)) && Lens(Advance(st).syms) == Lens(st.syms)
    ensures Values(Advance(st).syms) == Values(st.syms)
  {
  }

  lemma FlushIsBetween(cfg: Config, st: State, finalize: bool)
    requires Between(st)
    ensures Between(Flush(cfg, st, finalize))
  {
    IdsAreFinal(st.masks, MasksOf(st.syms));
    FlushKeepsValues(cfg, st, finalize);
    ClearedOk(st, |Flush(cfg, st, finalize).dict|);
  }

  /** Finishing the open position, and with it perhaps the granule. */
  ghost function FinishPosition(cfg: Config, st: State, finalize: bool): (r: State)
    requires Ready(st) && st.timeset
    ensures Between(r) && r.timepos < GRANULE
    ensures r.rows == st.rows + [Row(st.times[st.timepos], Values(st.syms))]
    ensures Lens(r.syms) == Lens(st.syms) && Values(r.syms) == Values(st.syms)
  {
    AdvanceIsBetween(st);
    var a := Advance(st);
    if a.timepos == GRANULE || finalize then
      FlushKeepsValues(cfg, a, finalize);
      FlushIsBetween(cfg, a, finalize);
      Flush(cfg, a, finalize)
    else a
  }

  /** A later time than the first one of all finishes the open row, if anything changed in it. */
  ghost predicate Finishes(st: State, t: int) { st.timeset && t > st.maxtime && st.bumptime }

  ghost function MoveTime(cfg: Config, st: State, t: int): (r: State)
    requires Ready(st)
    ensures Ready(r) && Lens(r.syms) == Lens(st.syms) && Values(r.syms) == Values(st.syms) && r.timeset
    ensures r.rows == if Finishes(st, t) then st.rows + [Row(st.times[st.timepos], Values(st.syms))] else st.rows
    ensures r.times[r.timepos] == if st.timeset && t <= st.maxtime then st.times[st.timepos] else t
  {
    if !st.timeset then st.(timeset := true, maxtime := t, times := [t])
    else if t <= st.maxtime then st
    else if st.bumptime then
      var f := FinishPosition(cfg, st, false);
      f.(times := f.times + [t], bumptime := false)
    else st.(times := st.times[st.timepos := t])
  }

  /** `lxt2_wr_set_time64`. */
  ghost function SetTime(cfg: Config, st: State, t: int): (r: State)
    requires Ready(st)
    ensures Ready(r) && Lens(r.syms) == Lens(st.syms) && Values(r.syms) == Values(st.syms) && r.timeset
    ensures r.rows == if Finishes(st, t) then st.rows + [Row(st.times[st.timepos], Values(st.syms))] else st.rows
    ensures r.times[r.timepos] == if st.timeset && t <= st.maxtime then st.times[st.timepos] else t
  {
    var m := MoveTime(cfg, st, t);
    if AtSectionStart(m) && (m.numblock == 0 || !cfg.noCheckpoint) then Burst(cfg, m, 0) else m
  }

  /** `lxt2_wr_emit_value_bit_string`: the first emission of all starts time at 0. */
  ghost function EmitValue(cfg: Config, st: State, k: nat, v: string): (r: State)
    requires Ready(st) && k < |st.syms|
    ensures Ready(r) && Lens(r.syms) == Lens(st.syms)
    ensures v != "" ==> Values(r.syms) == Values(st.syms)[k := Normalise(v, |st.syms[k].value|)]
    ensures v == "" ==> r == st
  {
    if v == "" then st
    else
      var m := if st.timeset then st else SetTime(cfg, st, 0);
      assert |m.syms[k].value| == Lens(m.syms)[k] == |st.syms[k].value|;
      Emit(cfg, m, k, Normalise(v, |st.syms[k].value|))
  }

  datatype Op = TimeOp(t: int) | ValueOp(k: nat, v: string)

  ghost function Step(cfg: Config, st: State, op: Op): (r: State)
    requires Ready(st)
    ensures Ready(r) && Lens(r.syms) == Lens(st.syms)
  {
    match op
    case TimeOp(t) => SetTime(cfg, st, t)
    case ValueOp(k, v) => if k < |st.syms| then EmitValue(cfg, st, k, v) else st
  }

  ghost function Run(cfg: Config, st: State, ops: seq<Op>): (r: State)
    requires Ready(st)
    ensures Ready(r) && Lens(r.syms) == Lens(st.syms)
    decreases |ops|
  {
    if ops == [] then st else Run(cfg, Step(cfg, st, ops[0]), ops[1..])
  }

  /** `lxt2_wr_close`. Nothing is written when no time was ever set. */
  ghost function Close(cfg: Config, st: State): (r: State)
    requires Ready(st)
    ensures st.timeset ==> Between(r)
  {
    if st.timeset then FinishPosition(cfg, st, true) else st
  }

  predicate InitialChar(c: char) { c == '0' || c == '1' || c == 'x' || c == 'z' }

  function InitialCode(c: char): nat {
    if c == '0' then ENC_0 else if c == '1' then ENC_1 else if c == 'z' then ENC_Z else ENC_X
  }

  function InitialSym(len: nat, c: char): Sym {
    Sym(Fill(len, c), seq(GRANULE, i => i == 0), [InitialCode(c)])
  }

  function Initial(lens: seq<nat>, c: char): State {
    State(seq(|lens|, k requires 0 <= k < |lens| => InitialSym(lens[k], c)),
          0, 0, 0, false, false, 0, [], [], [], [], [], [], [], seq(|lens|, _ => true), true)
  }

  lemma InitialReady(lens: seq<nat>, c: char)
    requires forall k :: 0 <= k < |lens| ==> lens[k] > 0
    ensures Ready(Initial(lens, c)) && Lens(Initial(lens, c).syms) == lens
  {
    var st := Initial(lens, c);
    forall k | 0 <= k < |lens| ensures SymOk(st.syms[k], 0, 0) {
      CountStops(st.syms[k].msk, 1, GRANULE);
    }
  }

  // ---------------------------------------------------------------- whole runs

  ghost predicate Inv(st: State) { Open(st) && Truthful(st) && Packed(st) }

  lemma EmitInv(cfg: Config, st: State, k: nat, v: string)
    requires Inv(st) && k < |st.syms| && |v| == |st.syms[k].value|
    ensures Inv(Emit(cfg, st, k, v))
  {
    EmitStaysTruthful(cfg, st, k, v);
    EmitStaysPacked(cfg, st, k, v);
  }

  lemma BurstInv(cfg: Config, st: State, k: nat)
    requires Inv(st) && k <= |st.syms|
    ensures Inv(Burst(cfg, st, k))
    decreases |st.syms| - k
  {
    if k < |st.syms| {
      EmitInv(cfg, st, k, st.syms[k].value);
      BurstInv(cfg, Emit(cfg, st, k, st.syms[k].value), k + 1);
    }
  }

  lemma FinishKeeps(cfg: Config, st: State, finalize: bool)
    requires Inv(st) && st.timeset
    ensures var r := FinishPosition(cfg, st, finalize);
      Fresh(r) && Packed(r) && (finalize ==> ReadFile(r.file) == r.log)
  {
    AdvanceIsFresh(st);
    AdvanceStaysPacked(st);
    var a := Advance(st);
    if a.timepos == GRANULE || finalize {
      FlushKeepsValues(cfg, a, finalize);
      FlushStaysFresh(cfg, a, finalize);
      FlushStaysPacked(cfg, a, finalize);
    }
  }

  lemma StartInv(st: State, t: int)
    requires Inv(st) && !st.timeset
    ensures Inv(st.(timeset := true, maxtime := t, times := [t]))
  {
  }

  lemma RetimeInv(st: State, t: int)
    requires Inv(st) && st.timeset
    ensures Inv(st.(times := st.times[st.timepos := t]))
  {
    hide SymOk, WordsOk, Replays, MasksOk, GranuleOk, ReadFile, ReadGranules, OpenPositions;
    SamePositions(st, st.(times := st.times[st.timepos := t]));
  }

  /** The open positions that are finished depend on the times up to there only. */
  lemma SamePositions(st: State, st': State)
    requires st.timepos <= |st.times| && st'.timepos == st.timepos <= |st'.times|
    requires st'.times[..st.timepos] == st.times[..st.timepos] && st'.syms == st.syms && st'.dict == st.dict
    ensures OpenPositions(st') == OpenPositions(st)
  {
    forall p | 0 <= p < st.timepos ensures st'.times[p] == st.times[p] {
      assert st'.times[..st.timepos][p] == st.times[..st.timepos][p];
    }
  }

  lemma OpenInv(st: State, t: int)
    requires Fresh(st) && Packed(st) && st.timepos < GRANULE
    ensures Inv(st.(times := st.times + [t], bumptime := false))
  {
    hide Open, Truthful, MasksOk, GranuleOk, ReadFile, ReadGranules, OpenPositions;
    FreshOpens(st, t);
    SamePositions(st, st.(times := st.times + [t], bumptime := false));
  }

  lemma MoveInv(cfg: Config, st: State, t: int)
    requires Inv(st)
    ensures Inv(MoveTime(cfg, st, t))
  {
    if !st.timeset { StartInv(st, t); }
    else if t > st.maxtime {
      if st.bumptime {
        FinishKeeps(cfg, st, false);
        OpenInv(FinishPosition(cfg, st, false), t);
      } else {
        RetimeInv(st, t);
      }
    }
  }

  lemma SetTimeInv(cfg: Config, st: State, t: int)
    requires Inv(st)
    ensures Inv(SetTime(cfg, st, t))
  {
    MoveInv(cfg, st, t);
    var m := MoveTime(cfg, st, t);
    if AtSectionStart(m) && (m.numblock == 0 || !cfg.noCheckpoint) { BurstInv(cfg, m, 0); }
  }

  lemma StepInv(cfg: Config, st: State, op: Op)
    requires Inv(st)
    ensures Inv(Step(cfg, st, op))
  {
    match op
    case TimeOp(t) => SetTimeInv(cfg, st, t);
    case ValueOp(k, v) =>
      if k < |st.syms| && v != "" {
        if !st.timeset { SetTimeInv(cfg, st, 0); }
        var m := if st.timeset then st else SetTime(cfg, st, 0);
        assert Lens(m.syms)[k] == |m.syms[k].value|;
        EmitInv(cfg, m, k, Normalise(v, |st.syms[k].value|));
      }
  }

  lemma RunInv(cfg: Config, st: State, ops: seq<Op>)
    requires Inv(st)
    ensures Inv(Run(cfg, st, ops))
    decreases |ops|
  {
    if ops != [] {
      StepInv(cfg, st, ops[0]);
      RunInv(cfg, Step(cfg, st, ops[0]), ops[1..]);
    }
  }

  lemma InitialInv(lens: seq<nat>, c: char)
    requires InitialChar(c) && forall k :: 0 <= k < |lens| ==> lens[k] > 0
    ensures Inv(Initial(lens, c)) && Lens(Initial(lens, c).syms) == lens
  {
    InitialReady(lens, c);
    var st := Initial(lens, c);
    forall k | 0 <= k < |lens| ensures HeldNow(st, k) == Some(st.syms[k].value) {
      assert EventNow(st, k) == Some(Plain(InitialCode(c)));
    }
  }

  lemma CloseReplays(cfg: Config, st: State)
    requires Inv(st)
    ensures var r := Close(cfg, st);
      r.faithful <==> Replays(ReadFile(r.file), Lens(st.syms), r.rows)
  {
    if st.timeset { FinishKeeps(cfg, st, true); }
  }

  /** Every run, whatever it emits, writes a file that replays its rows exactly when it is faithful. */
  lemma TraceReplays(cfg: Config, lens: seq<nat>, c: char, ops: seq<Op>)
    requires InitialChar(c) && forall k :: 0 <= k < |lens| ==> lens[k] > 0
    ensures Ready(Initial(lens, c))
    ensures var st := Close(cfg, Run(cfg, Initial(lens, c), ops));
      st.faithful <==> Replays(ReadFile(st.file), lens, st.rows)
  {
    InitialInv(lens, c);
    RunInv(cfg, Initial(lens, c), ops);
    CloseReplays(cfg, Run(cfg, Initial(lens, c), ops));
  }

  // ---------------------------------------------------------------- when a trace is faithful

  ghost predicate Good(st: State) { st.faithful && AllOk(st.ok) }

  lemma EmitStaysGood(cfg: Config, st: State, k: nat, v: string)
    requires Inv(st) && Good(st) && k < |st.syms| && |v| == |st.syms[k].value|
    requires AtSectionStart(st) || !st.syms[k].msk[st.timepos] || v == st.syms[k].value
    ensures Good(Emit(cfg, st, k, v)) && (AtSectionStart(st) ==> AtSectionStart(Emit(cfg, st, k, v)))
  {
    EmitStaysOpen(cfg, st, k, v);
    CodeForDecodes(cfg, st, k, v);
  }

  lemma BurstStaysGood(cfg: Config, st: State, k: nat)
    requires Inv(st) && Good(st) && k <= |st.syms| && AtSectionStart(st)
    ensures Good(Burst(cfg, st, k))
    decreases |st.syms| - k
  {
    if k < |st.syms| {
      EmitStaysGood(cfg, st, k, st.syms[k].value);
      EmitInv(cfg, st, k, st.syms[k].value);
      BurstStaysGood(cfg, Emit(cfg, st, k, st.syms[k].value), k + 1);
    }
  }

  lemma FinishStaysGood(cfg: Config, st: State, finalize: bool)
    requires Ready(st) && Good(st) && st.timeset
    ensures Good(FinishPosition(cfg, st, finalize))
  {
    AdvanceIsBetween(st);
    FlushKeepsValues(cfg, Advance(st), finalize);
  }

  lemma MoveStaysGood(cfg: Config, st: State, t: int)
    requires Inv(st) && Good(st)
    ensures Good(MoveTime(cfg, st, t))
  {
    if Finishes(st, t) { FinishStaysGood(cfg, st, false); }
  }

  lemma SetTimeStaysGood(cfg: Config, st: State, t: int)
    requires Inv(st) && Good(st)
    ensures Good(SetTime(cfg, st, t))
  {
    MoveStaysGood(cfg, st, t);
    MoveInv(cfg, st, t);
    var m := MoveTime(cfg, st, t);
    if AtSectionStart(m) && (m.numblock == 0 || !cfg.noCheckpoint) { BurstStaysGood(cfg, m, 0); }
  }

  /** The operation does not change a symbol twice at one position (a section's first excepted). */
  ghost predicate GentleOp(st: State, op: Op)
    requires Ready(st)
  {
    match op
    case TimeOp(_) => true
    case ValueOp(k, v) =>
      k < |st.syms| && v != "" && st.timeset && !AtSectionStart(st) && st.syms[k].msk[st.timepos]
      ==> Normalise(v, |st.syms[k].value|) == st.syms[k].value
  }

  ghost predicate Gentle(cfg: Config, st: State, ops: seq<Op>)
    requires Ready(st)
    decreases |ops|
  {
    ops == [] || (GentleOp(st, ops[0]) && Gentle(cfg, Step(cfg, st, ops[0]), ops[1..]))
  }

  lemma StepStaysGood(cfg: Config, st: State, op: Op)
    requires Inv(st) && Good(st) && GentleOp(st, op)
    ensures Good(Step(cfg, st, op))
  {
    match op
    case TimeOp(t) => SetTimeStaysGood(cfg, st, t);
    case ValueOp(k, v) =>
      if k < |st.syms| && v != "" {
        var n := Normalise(v, |st.syms[k].value|);
        if st.timeset {
          EmitStaysGood(cfg, st, k, n);
        } else {
          SetTimeStaysGood(cfg, st, 0);
          var m := SetTime(cfg, st, 0);
          assert Lens(m.syms)[k] == |m.syms[k].value|;
          SetTimeInv(cfg, st, 0);
          EmitStaysGood(cfg, m, k, n);
        }
      }
  }

  lemma GentleRunIsGood(cfg: Config, st: State, ops: seq<Op>)
    requires Inv(st) && Good(st) && Gentle(cfg, st, ops)
    ensures Good(Run(cfg, st, ops))
    decreases |ops|
  {
    if ops != [] {
      StepStaysGood(cfg, st, ops[0]);
      StepInv(cfg, st, ops[0]);
      GentleRunIsGood(cfg, Step(cfg, st, ops[0]), ops[1..]);
    }
  }

  /** One change per symbol and position: the closed file replays the run, row by row. */
  lemma GentleTraceReplays(cfg: Config, lens: seq<nat>, c: char, ops: seq<Op>)
    requires InitialChar(c) && forall k :: 0 <= k < |lens| ==> lens[k] > 0
    ensures Ready(Initial(lens, c))
    ensures Gentle(cfg, Initial(lens, c), ops) ==>
      var st := Close(cfg, Run(cfg, Initial(lens, c), ops));
      Replays(ReadFile(st.file), lens, st.rows)
  {
    InitialInv(lens, c);
    TraceReplays(cfg, lens, c, ops);
    if Gentle(cfg, Initial(lens, c), ops) {
      GentleRunIsGood(cfg, Initial(lens, c), ops);
      var st := Run(cfg, Initial(lens, c), ops);
      if st.timeset { FinishStaysGood(cfg, st, true); }
    }
  }

  /**
   Two changes at one position can be lost: after 0000 -> 0001 -> 0011 the one code on record
   says "shift in a 1", which a reader applies to 0000.
   */
  lemma SecondChangeCanBeLost(signedShift: bool)
    ensures Choose(false, "0000", "0001", signedShift) == Fixed(ENC_LSH0 + 1)
    ensures Choose(false, "0001", "0011", signedShift) == Fixed(ENC_LSH0 + 1)
    ensures Decode(ENC_LSH0 + 1, "0000", []) == Some("0001")
  {
    assert "0000"[1..] == "000" == "0001"[..3];
    assert "0001"[1..] == "001" == "0011"[..3];
    assert "000" + ['1'] == "0001";
    assert !Inverse("0000", "0001") by { assert "0000"[0] != Flip("0001"[0]); }
    assert !Inverse("0001", "0011") by { assert "0001"[0] != Flip("0011"[0]); }
  }

  /** At a position past the first, with the row before it holding 0000, the second of these changes is lost. */
  lemma OverwriteIsLost(cfg: Config, st: State)
    requires Ready(st) && |st.syms| == 1 && st.syms[0].value == "0000" && 0 < st.timepos
    requires st.rows != [] && st.rows[|st.rows| - 1].values == ["0000"] && !st.syms[0].msk[st.timepos]
    ensures var st' := Emit(cfg, Emit(cfg, st, 0, "0001"), 0, "0011"); |st'.ok| == 1 && !st'.ok[0]
  {
    SecondChangeCanBeLost(cfg.signedShift);
    var a := Emit(cfg, st, 0, "0001");
    assert a.syms[0].value == "0001" && a.syms[0].msk[a.timepos];
    assert Reads(ENC_LSH0 + 1, "0000") != Reads(ENC_LSH0 + 1, "0001") by {
      assert "0000"[1..][2] != "0001"[1..][2];
    }
    assert !StillReadable(a, 0, ENC_LSH0 + 1);
  }

  /** The calls that lose a change: two values for one symbol at time 1. */
  function TwoChanges(): seq<Op> {
    [TimeOp(0), TimeOp(1), ValueOp(0, "0001"), ValueOp(0, "0011")]
  }

  /** The first time of all: the initial values are recorded at the first position. */
  lemma FirstTime(cfg: Config)
    ensures Ready(Initial([4], '0')) && Values(Initial([4], '0').syms) == ["0000"]
    ensures var s := SetTime(cfg, Initial([4], '0'), 0); s.timepos == 0 && s.bumptime && s.maxtime == 0
  {
    var s0 := Initial([4], '0');
    InitialReady([4], '0');
    assert s0.syms[0].value == "0000";
    var m := MoveTime(cfg, s0, 0);
    var e := Emit(cfg, m, 0, m.syms[0].value);
    assert Burst(cfg, m, 0) == Burst(cfg, e, 1) == e;
  }

  /** A second time opens the second position. */
  lemma SecondTime(cfg: Config, s: State)
    requires Ready(s) && s.timeset && s.timepos == 0 && s.bumptime && s.maxtime == 0 && |s.syms| == 1
    ensures var s' := SetTime(cfg, s, 1);
      s'.timepos == 1 && |s'.syms| == 1 && !s'.syms[0].msk[1] && s'.rows == s.rows + [Row(s.times[0], Values(s.syms))]
  {
    assert SymOk(s.syms[0], 0, |s.dict|);
    assert Lens(SetTime(cfg, s, 1).syms) == Lens(s.syms);
    assert FinishPosition(cfg, s, false) == Advance(s);
  }

  /** The file written for those calls does not replay them, whatever the configuration. */
  lemma SecondChangeIsLost(cfg: Config)
    ensures Ready(Initial([4], '0'))
    ensures var st := Close(cfg, Run(cfg, Initial([4], '0'), TwoChanges())); !Replays(ReadFile(st.file), [4], st.rows)
  {
    hide SetTime, Emit, MoveTime, Burst, Ready, Initial, Replays, ReadFile, Close;
    var s0 := Initial([4], '0');
    FirstTime(cfg);
    TraceReplays(cfg, [4], '0', TwoChanges());
    var s1 := SetTime(cfg, s0, 0);
    assert Values(s1.syms) == ["0000"];
    SecondTime(cfg, s1);
    var s2 := SetTime(cfg, s1, 1);
    assert Values(s2.syms) == ["0000"] && s2.syms[0].value == "0000";
    OverwriteIsLost(cfg, s2);
    var s4 := Emit(cfg, Emit(cfg, s2, 0, "0001"), 0, "0011");
    RunTwoChanges(cfg, s0, s1, s2);
    ClosingLoses(cfg, s4);
  }

  lemma ValueStep(cfg: Config, st: State, v: string)
    requires Ready(st) && st.timeset && |st.syms| == 1 && |st.syms[0].value| == 4 == |v| && Normalise(v, 4) == v
    ensures Step(cfg, st, ValueOp(0, v)) == Emit(cfg, st, 0, v)
    ensures var r := Emit(cfg, st, 0, v); Ready(r) && r.timeset && |r.syms| == 1 && |r.syms[0].value| == 4
  {
    hide Emit, Ready;
    assert Lens(Emit(cfg, st, 0, v).syms)[0] == 4;
  }

  lemma RunStep(cfg: Config, st: State, op: Op, rest: seq<Op>)
    requires Ready(st)
    ensures Run(cfg, st, [op] + rest) == Run(cfg, Step(cfg, st, op), rest)
  {
    assert ([op] + rest)[1..] == rest;
  }

  lemma RunTwoChanges(cfg: Config, s0: State, s1: State, s2: State)
    requires Ready(s0) && s1 == SetTime(cfg, s0, 0) && s2 == SetTime(cfg, s1, 1) && |s0.syms| == 1
    requires |s0.syms[0].value| == 4
    ensures Lens(s2.syms) == Lens(s0.syms) && |s2.syms| == 1
    ensures Run(cfg, s0, TwoChanges()) == Emit(cfg, Emit(cfg, s2, 0, "0001"), 0, "0011")
  {
    hide SetTime, Emit, Ready, Run, Normalise, Values;
    assert Lens(s2.syms)[0] == 4;
    BitsAreNormal("0001");
    BitsAreNormal("0011");
    ValueStep(cfg, s2, "0001");
    var s3 := Emit(cfg, s2, 0, "0001");
    ValueStep(cfg, s3, "0011");
    var c := [ValueOp(0, "0011")];
    var b := [ValueOp(0, "0001")] + c;
    assert TwoChanges() == [TimeOp(0)] + ([TimeOp(1)] + b);
    RunStep(cfg, s0, TimeOp(0), [TimeOp(1)] + b);
    RunStep(cfg, s1, TimeOp(1), b);
    RunStep(cfg, s2, ValueOp(0, "0001"), c);
    assert c == [ValueOp(0, "0011")] + [];
    RunStep(cfg, s3, ValueOp(0, "0011"), []);
    RunNothing(cfg, Emit(cfg, s3, 0, "0011"));
  }

  lemma RunNothing(cfg: Config, st: State)
    requires Ready(st)
    ensures Run(cfg, st, []) == st
  {
  }

  lemma BitsAreNormal(v: string)
    requires v != "" && Binary(v)
    ensures Normalise(v, |v|) == v
  {
    assert Pad(v, |v|) == v;
    forall i | 0 <= i < |v| ensures LowerChar(v[i]) == v[i] { assert IsBit(v[i]); }
    assert Normalise(v, |v|) == v;
  }

  lemma ClosingLoses(cfg: Config, st: State)
    requires Ready(st) && st.timeset && st.ok != [] && !st.ok[0]
    ensures !Close(cfg, st).faithful
  {
  }
}
