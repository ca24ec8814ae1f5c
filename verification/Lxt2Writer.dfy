/**
 The LXT2 writer's procedures on its own variables. Every one is proved to take the state machine
 of `Lxt2Trace` from its old state to the specified new one, so what is proved there about whole
 runs holds of these procedures.
 */
module Lxt2Writer {
  import opened Lxt2Codec
  import opened Lxt2Dictionary
  import opened Lxt2Splay
  import opened Lxt2Trace
  import Lxt2Values

  // ---------------------------------------------------------------- the two key orders

  /** `strcmp`. */
  function Strcmp(a: string, b: string): int {
    if a == "" && b == "" then 0
    else if a == "" then -1
    else if b == "" then 1
    else if a[0] != b[0] then a[0] as int - b[0] as int
    else Strcmp(a[1..], b[1..])
  }

  /** `<` on change masks as unsigned numbers: the highest differing position decides. */
  function MaskCompare(a: seq<bool>, b: seq<bool>): int {
    if |a| != |b| then |a| - |b|
    else if a == [] then 0
    else if a[|a| - 1] != b[|b| - 1] then (if a[|a| - 1] then 1 else -1)
    else MaskCompare(a[..|a| - 1], b[..|b| - 1])
  }

  lemma {:induction false} StrcmpLaws(a: string, b: string)
    ensures Strcmp(a, b) == 0 <==> a == b
    ensures Strcmp(a, b) < 0 <==> Strcmp(b, a) > 0
  {
    if a != "" && b != "" && a[0] == b[0] {
      StrcmpLaws(a[1..], b[1..]);
      assert a == [a[0]] + a[1..] && b == [b[0]] + b[1..];
    }
  }

  lemma {:induction false} StrcmpTransitive(a: string, b: string, c: string)
    requires Strcmp(a, b) < 0 && Strcmp(b, c) < 0
    ensures Strcmp(a, c) < 0
  {
    if a != "" && b != "" && c != "" && a[0] == b[0] == c[0] {
      StrcmpTransitive(a[1..], b[1..], c[1..]);
    }
  }

  lemma {:induction false} MaskCompareLaws(a: seq<bool>, b: seq<bool>)
    ensures MaskCompare(a, b) == 0 <==> a == b
    ensures MaskCompare(a, b) < 0 <==> MaskCompare(b, a) > 0
  {
    if |a| == |b| > 0 && a[|a| - 1] == b[|b| - 1] {
      MaskCompareLaws(a[..|a| - 1], b[..|b| - 1]);
      assert a == a[..|a| - 1] + [a[|a| - 1]] && b == b[..|b| - 1] + [b[|b| - 1]];
    }
  }

  lemma {:induction false} MaskCompareTransitive(a: seq<bool>, b: seq<bool>, c: seq<bool>)
    requires MaskCompare(a, b) < 0 && MaskCompare(b, c) < 0
    ensures MaskCompare(a, c) < 0
  {
    if |a| == |b| == |c| > 0 && a[|a| - 1] == b[|b| - 1] == c[|c| - 1] {
      MaskCompareTransitive(a[..|a| - 1], b[..|b| - 1], c[..|c| - 1]);
    }
  }

  lemma BothAreTotalOrders()
    ensures TotalOrder(Strcmp) && TotalOrder(MaskCompare)
  {
    forall a, b ensures (Strcmp(a, b) == 0 <==> a == b) && (Strcmp(a, b) < 0 <==>
      Strcmp(b, a) > 0) { StrcmpLaws(a, b); }
    forall a, b, c | Chain(a, b, c) && Strcmp(a, b) < 0 && Strcmp(b, c) < 0 ensures Strcmp(a, c) < 0 {
      StrcmpTransitive(a, b, c);
    }
    forall a, b
      ensures (MaskCompare(a, b) == 0 <==> a == b) && (MaskCompare(a, b) < 0 <==> MaskCompare(b, a) > 0)
    {
      MaskCompareLaws(a, b);
    }
    forall a, b, c | Chain(a, b, c) && MaskCompare(a, b) < 0 && MaskCompare(b, c) < 0 ensures MaskCompare(a, c) < 0 {
      MaskCompareTransitive(a, b, c);
    }
  }

  lemma {:induction false} IdIsIndex<K(!new)>(keys: seq<K>, k: K, id: nat)
    requires Distinct(keys) && id < |keys| && keys[id] == k
    ensures IndexOf(keys, k) == id
  {
    if keys[0] != k { IdIsIndex(keys[1..], k, id - 1); }
  }

  /** How many times there are, with an open position and between two. */
  lemma HasTimes(st: State)
    ensures Ready(st) ==> st.timepos < GRANULE && |st.times| == if st.timeset then st.timepos + 1 else 0
    ensures Ready(st) && !st.timeset ==> st.timepos == 0
    ensures Between(st) ==> |st.times| == st.timepos
  {
  }

  /** From `st`, the rest of the burst from symbol `k` on leads to `goal`. */
  ghost predicate BurstLeadsTo(cfg: Config, st: State, k: nat, goal: State) {
    Ready(st) && k <= |st.syms| && Burst(cfg, st, k) == goal
  }

  lemma BurstUnfolds(cfg: Config, st: State, k: nat, goal: State)
    requires BurstLeadsTo(cfg, st, k, goal) && k < |st.syms|
    ensures BurstLeadsTo(cfg, Emit(cfg, st, k, st.syms[k].value), k + 1, goal)
  {
  }

  lemma BurstEnds(cfg: Config, st: State, goal: State)
    requires BurstLeadsTo(cfg, st, |st.syms|, goal)
    ensures goal == st
  {
  }

  /** The first `j` map ids name the first `j` masks. */
  ghost predicate MapsUpTo(syms: seq<Sym>, keys: seq<seq<bool>>, maps: seq<nat>, j: nat) {
    |maps| == j <= |syms| && forall k :: 0 <= k < j ==> maps[k] < |keys| && keys[maps[k]] == syms[k].msk
  }

  lemma MapsOneMore(syms: seq<Sym>, keys: seq<seq<bool>>, maps: seq<nat>, j: nat, id: nat)
    requires MapsUpTo(syms, keys, maps, j) && j < |syms| && id < |keys| && keys[id] == syms[j].msk
    ensures MapsUpTo(syms, keys, maps + [id], j + 1)
  {
  }

  lemma MapIdsAreUnique(syms: seq<Sym>, keys: seq<seq<bool>>, maps: seq<nat>)
    requires Distinct(keys) && MapsUpTo(syms, keys, maps, |syms|)
    ensures forall k :: 0 <= k < |syms| ==> syms[k].msk in keys
    ensures maps == MapIds(syms, keys)
  {
    var ids := MapIds(syms, keys);
    forall k | 0 <= k < |syms| ensures maps[k] == ids[k] {
      IdIsIndex(keys, syms[k].msk, maps[k]);
    }
  }

  /** The granule a flush writes and the mask dictionary it leaves. */
  ghost predicate FlushGrows(syms: seq<Sym>, times: seq<int>, keys: seq<seq<bool>>, keys': seq<seq<bool>>, g: Granule) {
    && keys' == InternAll(keys, MasksOf(syms))
    && (forall k :: 0 <= k < |syms| ==> syms[k].msk in keys')
    && g == Granule(times, MapIds(syms, keys'), Flat(syms))
  }

  lemma MasksAreInterned(syms: seq<Sym>, keys: seq<seq<bool>>)
    requires Distinct(keys)
    ensures forall k :: 0 <= k < |syms| ==> syms[k].msk in InternAll(keys, MasksOf(syms))
  {
    var ms := MasksOf(syms);
    IdsAreFinal(keys, ms);
    forall k | 0 <= k < |syms| ensures syms[k].msk in InternAll(keys, ms) { assert ms[k] in ms; }
  }

  /** What a flush does, field by field. */
  lemma FlushShape(cfg: Config, st: State, finalize: bool, keys: seq<seq<bool>>, g: Granule)
    requires Distinct(st.masks) && FlushGrows(st.syms, st.times, st.masks, keys, g)
    ensures var granules := st.granules + [g];
      var st' := st.(syms := Cleared(st.syms), times := [], timepos := 0);
      Flush(cfg, st, finalize) ==
      if st.timegranule + 1 >= cfg.maxgranule || finalize then
        st'.(timegranule := 0, numblock := st.numblock + 1, granules := [], dict := [], masks := [],
             file := st.file + [Section(granules, st.dict, keys)])
      else st'.(timegranule := st.timegranule + 1, granules := granules, masks := keys)
  {
  }

  // ---------------------------------------------------------------- the writer

  class Writer {
    const cfg: Config
    const dict: Dictionary<string>
    const mapdict: Dictionary<seq<bool>>
    const timetable: array<int>
    var syms: seq<Sym>
    var timepos: nat
    var timegranule: nat
    var numblock: nat
    var timeset: bool
    var bumptime: bool
    var maxtime: int
    var granules: seq<Granule>
    var file: seq<Section>
    ghost var st: State

    /** The variables are those of the state machine. */
    ghost predicate Tracks()
      reads this, timetable, dict, dict.repr, mapdict, mapdict.repr
    {
      && timetable.Length == GRANULE
      && DictsValid()
      && Synced()
      && st.times == timetable[..|st.times|]
      && st.dict == dict.keys && st.masks == mapdict.keys
    }

    ghost predicate Valid()
      reads this, timetable, dict, dict.repr, mapdict, mapdict.repr
    {
      Ready(st) && Tracks()
    }

    ghost predicate DictsValid()
      reads dict, dict.repr, mapdict, mapdict.repr
    {
      dict.Valid() && mapdict.Valid()
    }

    ghost predicate Synced()
      reads this
    {
      && st.syms == syms && st.granules == granules && st.file == file
      && st.timepos == timepos && st.timegranule == timegranule && st.numblock == numblock
      && st.timeset == timeset && st.bumptime == bumptime && st.maxtime == maxtime
      && |st.times| <= GRANULE
    }

    constructor (cfg: Config, lens: seq<nat>, c: char)
      requires forall k :: 0 <= k < |lens| ==> lens[k] > 0
      ensures Valid() && st == Initial(lens, c) && this.cfg == cfg
    {
      BothAreTotalOrders();
      InitialReady(lens, c);
      this.cfg := cfg;
      dict := new Dictionary<string>(Strcmp);
      mapdict := new Dictionary<seq<bool>>(MaskCompare);
      timetable := new int[GRANULE](_ => 0);
      syms := Initial(lens, c).syms;
      timepos, timegranule, numblock, maxtime := 0, 0, 0, 0;
      timeset, bumptime := false, false;
      granules, file := [], [];
      st := Initial(lens, c);
    }

    /** The dictionary id of the word of `v`, which is added if it is new. */
    method WordId(v: string) returns (id: nat)
      requires DictsValid() && v != ""
      modifies dict, dict.repr
      ensures DictsValid() && fresh(dict.repr - old(dict.repr))
      ensures dict.keys == Interned(old(dict.keys), Word(v)) && id == IndexOf(dict.keys, Word(v))
    {
      hide Shape, Search, Nodes, TotalOrder, WordStart, Interned, IndexOf, Distinct;
      var w := TruncateBitvec(v);
      assert v[w..] == Word(v);
      id := dict.Intern(v[w..]);
      dict.KeysAreDistinct();
      IdIsIndex(dict.keys, Word(v), id);
    }

    /** The code for a new value. */
    method CodeIndex(k: nat, v: string) returns (idx: nat)
      requires DictsValid() && dict.keys == st.dict && Synced()
      requires k < |syms| && |v| == |syms[k].value| > 0
      modifies dict, dict.repr
      ensures DictsValid() && fresh(dict.repr - old(dict.repr))
      ensures idx == CodeFor(cfg, st, k, v).0 && dict.keys == CodeFor(cfg, st, k, v).1
    {
      hide Shape, Search, Nodes, TotalOrder;
      var choice := EncodeChange(timepos == 0 && timegranule == 0, syms[k].value, v, cfg.signedShift);
      match choice {
        case Fixed(code) => idx := code;
        case InDictionary =>
          var id := WordId(v);
          idx := DICT_START + id;
      }
    }

    /** Files the code in the symbol's list and takes the new value. */
    method Record(k: nat, v: string, idx: nat, ghost keys: seq<string>)
      requires Synced() && Ready(st) && k < |syms| && |v| == |syms[k].value|
      requires AtSectionStart(st) || v != syms[k].value
      requires idx == CodeFor(cfg, st, k, v).0 && keys == CodeFor(cfg, st, k, v).1
      modifies `syms, `bumptime, `st
      ensures Synced() && st == Emit(cfg, old(st), k, v) && st.dict == keys && st.masks == old(st.masks)
    {
      EmitStaysOpen(cfg, st, k, v);
      bumptime := true;
      var s := syms[k];
      if !s.msk[timepos] {
        syms := syms[k := Sym(v, s.msk[timepos := true], s.codes + [idx])];
      } else {
        syms := syms[k := Sym(v, s.msk[timepos := true], s.codes[|s.codes| - 1 := idx])];
      }
      st := Emit(cfg, st, k, v);
    }

    /** One change of a value already in its final form. */
    method EmitNormalised(k: nat, v: string)
      requires Valid() && k < |syms| && |v| == |syms[k].value|
      modifies `syms, `bumptime, `st, dict, dict.repr
      ensures Valid() && fresh(dict.repr - old(dict.repr))
      ensures st == Emit(cfg, old(st), k, v)
    {
      hide DictsValid;
      if (timepos > 0 || timegranule > 0) && v == syms[k].value { return; }
      var idx := CodeIndex(k, v);
      Record(k, v, idx, dict.keys);
    }

    /** One turn of the burst loop. */
    method BurstOne(k: nat, ghost goal: State)
      requires Valid() && k < |syms| && BurstLeadsTo(cfg, st, k, goal)
      modifies `syms, `bumptime, `st, dict, dict.repr
      ensures Valid() && fresh(dict.repr - old(dict.repr))
      ensures |syms| == |old(syms)| && BurstLeadsTo(cfg, st, k + 1, goal)
    {
      BurstUnfolds(cfg, st, k, goal);
      EmitNormalised(k, syms[k].value);
    }

    /** The initial value burst. */
    method InitialBurst()
      requires Valid()
      modifies `syms, `bumptime, `st, dict, dict.repr
      ensures Valid() && fresh(dict.repr - old(dict.repr))
      ensures BurstLeadsTo(cfg, old(st), 0, st)
    {
      hide DictsValid, Burst, Ready;
      ghost var goal := Burst(cfg, st, 0);
      var k, n := 0, |syms|;
      while k < n
        invariant k <= n == |syms| && Valid() && fresh(dict.repr - old(dict.repr))
        invariant BurstLeadsTo(cfg, st, k, goal)
      {
        BurstOne(k, goal);
        k := k + 1;
      }
      BurstEnds(cfg, st, goal);
    }

    // ---- flushing a granule

    method InternMasks()
      requires DictsValid()
      modifies mapdict, mapdict.repr
      ensures DictsValid() && fresh(mapdict.repr - old(mapdict.repr))
      ensures mapdict.keys == InternAll(old(mapdict.keys), MasksOf(syms))
    {
      hide Shape, Search, Nodes, TotalOrder;
      ghost var ms := MasksOf(syms);
      for j := 0 to |syms|
        invariant DictsValid() && fresh(mapdict.repr - old(mapdict.repr))
        invariant InternAll(mapdict.keys, ms[j..]) == InternAll(old(mapdict.keys), ms)
      {
        assert ms[j..][0] == syms[j].msk && ms[j..][1..] == ms[j + 1..];
        var _ := mapdict.Intern(syms[j].msk);
      }
    }

    method CollectMaps() returns (maps: seq<nat>)
      requires DictsValid()
      requires forall k :: 0 <= k < |syms| ==> syms[k].msk in mapdict.keys
      modifies mapdict`root, mapdict`tree, mapdict.repr
      ensures DictsValid()
      ensures maps == MapIds(syms, mapdict.keys)
    {
      hide Shape, Search, Nodes, TotalOrder, Dictionary.Rooted, Dictionary.Threaded;
      maps := [];
      ghost var keys, ss := mapdict.keys, syms;
      for j := 0 to |syms|
        invariant DictsValid() && mapdict.keys == keys && syms == ss
        invariant MapsUpTo(ss, keys, maps, j)
      {
        var id := mapdict.IdOf(syms[j].msk);
        MapsOneMore(ss, keys, maps, j, id);
        maps := maps + [id];
      }
      mapdict.KeysAreDistinct();
      MapIdsAreUnique(syms, mapdict.keys, maps);
    }

    /** Writes every symbol's codes, symbol after symbol. */
    method CollectCodes() returns (codes: seq<nat>)
      ensures codes == Flat(syms)
    {
      codes := [];
      for j := 0 to |syms|
        invariant codes == Flat(syms[..j])
      {
        assert syms[..j + 1][..j] == syms[..j];
        codes := codes + syms[j].codes;
      }
      assert syms[..|syms|] == syms;
    }

    method ClearSymbols()
      modifies `syms
      ensures syms == Cleared(old(syms))
    {
      var n := |syms|;
      for j := 0 to n
        invariant |syms| == n && syms[..j] == Cleared(old(syms))[..j] && syms[j..] == old(syms)[j..]
      {
        syms := syms[j := Sym(syms[j].value, seq(GRANULE, _ => false), [])];
      }
    }

    method DrainWords() returns (words: seq<string>)
      requires DictsValid()
      modifies dict
      ensures DictsValid() && dict.repr == {} && dict.keys == [] && words == old(dict.keys)
    {
      var internalError;
      words, internalError := dict.Drain();
    }

    method DrainMasks() returns (masks: seq<seq<bool>>)
      requires DictsValid()
      modifies mapdict
      ensures DictsValid() && mapdict.repr == {} && mapdict.keys == [] && masks == old(mapdict.keys)
    {
      var internalError;
      masks, internalError := mapdict.Drain();
    }

    /** Writes both dictionaries behind the section's granules and starts the next section. */
    method CloseSection()
      requires DictsValid()
      modifies `timegranule, `numblock, `granules, `file, dict, mapdict
      ensures DictsValid() && dict.repr == {} && mapdict.repr == {} && dict.keys == [] && mapdict.keys == []
      ensures timegranule == 0 && numblock == old(numblock) + 1 && granules == []
      ensures file == old(file) + [Section(old(granules), old(dict.keys), old(mapdict.keys))]
    {
      hide DictsValid;
      var words := DrainWords();
      var masks := DrainMasks();
      file := file + [Section(granules, words, masks)];
      granules := [];
      timegranule, numblock := 0, numblock + 1;
    }

    /** The granule itself: interned masks, map ids, codes. */
    method WriteGranule() returns (g: Granule)
      requires DictsValid() && Distinct(mapdict.keys) && timetable.Length == GRANULE && timepos <= GRANULE
      modifies `syms, mapdict, mapdict.repr
      ensures DictsValid() && fresh(mapdict.repr - old(mapdict.repr))
      ensures FlushGrows(old(syms), timetable[..timepos], old(mapdict.keys), mapdict.keys, g)
      ensures syms == Cleared(old(syms))
    {
      hide DictsValid, Cleared, InternAll, MasksOf;
      ghost var keys := mapdict.keys;
      MasksAreInterned(syms, keys);
      InternMasks();
      var maps := CollectMaps();
      var codes := CollectCodes();
      g := Granule(timetable[..timepos], maps, codes);
      ClearSymbols();
    }

    /** Writes the granule and, at the end of a section, its dictionaries. */
    method WriteOut(finalize: bool) returns (g: Granule, closing: bool, ghost keys: seq<seq<bool>>)
      requires DictsValid() && Distinct(mapdict.keys) && timetable.Length == GRANULE && timepos <= GRANULE
      modifies `syms, `timepos, `timegranule, `numblock, `granules, `file, dict, mapdict, mapdict.repr
      ensures DictsValid() && fresh(mapdict.repr - old(mapdict.repr))
      ensures dict.repr == old(dict.repr) || dict.repr == {}
      ensures FlushGrows(old(syms), timetable[..old(timepos)], old(mapdict.keys), keys, g)
      ensures closing == (old(timegranule) + 1 >= cfg.maxgranule || finalize)
      ensures syms == Cleared(old(syms)) && timepos == 0
      ensures closing ==>
                && timegranule == 0 && numblock == old(numblock) + 1 && granules == []
                && file == old(file) + [Section(old(granules) + [g], old(dict.keys), keys)]
                && dict.keys == [] && mapdict.keys == []
      ensures !closing ==>
                && timegranule == old(timegranule) + 1 && numblock == old(numblock)
                && granules == old(granules) + [g] && file == old(file)
                && dict.keys == old(dict.keys) && mapdict.keys == keys
    {
      hide DictsValid, FlushGrows, Cleared;
      g := WriteGranule();
      keys := mapdict.keys;
      granules := granules + [g];
      timepos := 0;
      timegranule := timegranule + 1;
      closing := timegranule >= cfg.maxgranule || finalize;
      if closing { CloseSection(); }
    }

    method FlushGranule(finalize: bool)
      requires Tracks() && Between(st)
      modifies this, dict, mapdict, mapdict.repr
      ensures Tracks() && st == Flush(cfg, old(st), finalize)
      ensures dict.repr == old(dict.repr) || dict.repr == {}
      ensures fresh(mapdict.repr - old(mapdict.repr))
    {
      hide DictsValid, FlushGrows, Flush, Cleared;
      assert st.timepos <= GRANULE && |st.times| == timepos && Distinct(st.masks);
      assert st.times == timetable[..timepos];
      var g, closing;
      ghost var keys;
      g, closing, keys := WriteOut(finalize);
      FlushShape(cfg, st, finalize, keys, g);
      st := Flush(cfg, st, finalize);
      assert st.times == [] && timetable[..0] == [];
    }

    // ---- the entry points

    method CountPosition()
      requires Valid() && timeset
      modifies `timepos, `st
      ensures Tracks() && Between(st) && st == Advance(old(st))
    {
      hide DictsValid;
      AdvanceIsBetween(st);
      timepos := timepos + 1;
      st := Advance(st);
    }

    /** Finishes the open position; a full granule is flushed. */
    method NextPosition(finalize: bool)
      requires Valid() && timeset
      modifies this, dict, mapdict, mapdict.repr
      ensures Tracks() && st == FinishPosition(cfg, old(st), finalize)
      ensures dict.repr == old(dict.repr) || dict.repr == {}
      ensures fresh(mapdict.repr - old(mapdict.repr))
    {
      hide DictsValid, Flush, Advance, Between;
      CountPosition();
      if timepos == GRANULE || finalize { FlushGranule(finalize); }
    }

    /** The clock part of `lxt2_wr_set_time64`. */
    method MoveClock(t: int)
      requires Valid()
      modifies this, timetable, dict, mapdict, mapdict.repr
      ensures Valid() && st == MoveTime(cfg, old(st), t)
      ensures dict.repr == old(dict.repr) || dict.repr == {}
      ensures fresh(mapdict.repr - old(mapdict.repr))
    {
      hide DictsValid, FinishPosition, Between, Ready;
      HasTimes(st);
      if timeset {
        if t > maxtime { MoveOn(t); }
      } else {
        ghost var next := MoveTime(cfg, st, t);
        timeset, maxtime, st := true, t, st.(timeset := true, maxtime := t);
        StampTime(t);
        assert st == next;
      }
    }

    /** A time after `maxtime`: the open position is finished first if anything changed at it. */
    method MoveOn(t: int)
      requires Valid() && timeset && t > maxtime
      modifies this, timetable, dict, mapdict, mapdict.repr
      ensures Valid() && st == MoveTime(cfg, old(st), t)
      ensures dict.repr == old(dict.repr) || dict.repr == {}
      ensures fresh(mapdict.repr - old(mapdict.repr))
    {
      hide DictsValid, FinishPosition, Between, Ready;
      ghost var next := MoveTime(cfg, st, t);
      HasTimes(st);
      if bumptime {
        NextPosition(false);
        HasTimes(st);
        assert st.times[..timepos] == st.times;
      } else {
        assert st.times[..timepos] + [t] == st.times[timepos := t];
      }
      bumptime, st := false, st.(bumptime := false);
      StampTime(t);
      assert st == next;
    }

    /** The open position gets its time. */
    method StampTime(t: int)
      requires Tracks() && timepos < GRANULE && timepos <= |st.times| <= timepos + 1
      modifies timetable, `st
      ensures Tracks() && st == old(st).(times := old(st).times[..timepos] + [t])
    {
      hide DictsValid;
      timetable[timepos] := t;
      st := st.(times := st.times[..timepos] + [t]);
    }

    method SetTimeTo(t: int)
      requires Valid()
      modifies this, timetable, dict, dict.repr, mapdict, mapdict.repr
      ensures Valid() && st == SetTime(cfg, old(st), t)
      ensures fresh(dict.repr - old(dict.repr)) && fresh(mapdict.repr - old(mapdict.repr))
    {
      hide DictsValid, MoveTime, Burst;
      MoveClock(t);
      if timepos == 0 && timegranule == 0 && (numblock == 0 || !cfg.noCheckpoint) {
        InitialBurst();
      }
    }

    /** Brings a value to the symbol's length and to lower case. */
    method Fit(value: string, len: nat) returns (v: string)
      requires value != ""
      ensures v == Normalise(value, len) && Lxt2Values.Means(value, len, v)
    {
      Lxt2Values.NormaliseMeans(value, len);
      hide Lxt2Values.Means;
      var w := value;
      if |value| < len {
        w := Fill(len - |value|, if value[0] != '1' then value[0] else '0') + value;
      } else if |value| > len {
        w := value[..len];
      }
      v := w;
      for i := 0 to len
        invariant |v| == len
        invariant forall j :: 0 <= j < i ==> v[j] == LowerChar(w[j])
        invariant forall j :: i <= j < len ==> v[j] == w[j]
      {
        v := v[i := LowerChar(v[i])];
      }
      assert v == Normalise(value, len);
    }

    /** `lxt2_wr_emit_value_bit_string`. */
    method EmitBitString(k: nat, value: string)
      requires Valid() && k < |syms|
      modifies this, timetable, dict, dict.repr, mapdict, mapdict.repr
      ensures Valid() && st == EmitValue(cfg, old(st), k, value)
      ensures fresh(dict.repr - old(dict.repr)) && fresh(mapdict.repr - old(mapdict.repr))
    {
      hide DictsValid, SetTime, Emit, Open, Distinct;
      if value == "" { return; }
      ghost var st0 := st;
      if !timeset { SetTimeTo(0); }
      assert Lens(st.syms)[k] == |st.syms[k].value| == |st0.syms[k].value|;
      var v := Fit(value, |syms[k].value|);
      EmitNormalised(k, v);
    }

    method CloseTrace()
      requires Valid()
      modifies this, dict, mapdict, mapdict.repr
      ensures Tracks() && st == Close(cfg, old(st)) && file == st.file
    {
      hide DictsValid, FinishPosition;
      if timeset { NextPosition(true); }
    }
  }
}
