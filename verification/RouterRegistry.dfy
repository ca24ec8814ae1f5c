/**
 What a router knows after its mappings have been registered: which of them are in the table, and which
 one is the error region and which the default target.
 */
module RouterRegistry {
  import opened Wrappers
  import opened RouterTree

  /** A mapping as it is configured; it is connected if something is bound to it. */
  datatype Mapping = Mapping(region: Region, connected: bool)

  datatype Kind = InTable | ErrorRegion | DefaultTarget

  /** A mapping without a size takes what no other does; one with nothing behind it is an error. */
  function KindOf(m: Mapping): Kind {
    if m.region.size == 0 then DefaultTarget else if m.connected then InTable else ErrorRegion
  }

  function RegisterAll(ms: seq<Mapping>): Mappings {
    if ms == [] then Mappings([], None, None)
    else
      var m := ms[|ms| - 1];
      Register(RegisterAll(ms[..|ms| - 1]), m.region, m.connected)
  }

  /** The regions of a kind, in the order of registration. */
  function Regions(ms: seq<Mapping>, kind: Kind): seq<Region> {
    if ms == [] then []
    else
      Regions(ms[..|ms| - 1], kind) + (if KindOf(ms[|ms| - 1]) == kind then [ms[|ms| - 1].region] else [])
  }

  function LastOf(rs: seq<Region>): Option<Region> {
    if rs == [] then None else Some(rs[|rs| - 1])
  }

  /** The table is that of the mapped regions; of the others the last one registered counts. */
  lemma {:induction false} RegistrationIs(ms: seq<Mapping>)
    ensures var r := RegisterAll(ms);
      && r.table == TableOf(Regions(ms, InTable)) && r.error == LastOf(Regions(ms, ErrorRegion))
      && r.default_ == LastOf(Regions(ms, DefaultTarget))
  {
    if ms != [] {
      var n := |ms| - 1;
      RegistrationIs(ms[..n]);
      if KindOf(ms[n]) == InTable {
        var rs := Regions(ms, InTable);
        assert rs[..|rs| - 1] == Regions(ms[..n], InTable);
      } else {
        assert Regions(ms, InTable) == Regions(ms[..n], InTable);
      }
    }
  }

  /** A mapping of this kind has the region. */
  ghost predicate Has(ms: seq<Mapping>, kind: Kind, r: Region) {
    exists k :: 0 <= k < |ms| && KindOf(ms[k]) == kind && ms[k].region == r
  }

  lemma HasSnoc(ms: seq<Mapping>, kind: Kind, r: Region)
    requires ms != []
    ensures var n := |ms| - 1;
      Has(ms, kind, r) <==> Has(ms[..n], kind, r) || (KindOf(ms[n]) == kind && ms[n].region == r)
  {
    hide KindOf;
    var n := |ms| - 1;
    assert forall k :: 0 <= k < n ==> ms[..n][k] == ms[k];
  }

  lemma {:induction false} RegionsAre(ms: seq<Mapping>, kind: Kind)
    ensures forall r :: r in Regions(ms, kind) <==> Has(ms, kind, r)
  {
    hide KindOf, Has;
    if ms == [] {
      forall r ensures !Has(ms, kind, r) { HasNone(kind, r); }
    } else {
      var n := |ms| - 1;
      RegionsAre(ms[..n], kind);
      forall r ensures r in Regions(ms, kind) <==> Has(ms, kind, r) { HasSnoc(ms, kind, r); }
    }
  }

  lemma HasNone(kind: Kind, r: Region)
    ensures !Has([], kind, r)
  {
  }

  /**
   As long as the mapped regions do not overlap, a byte goes to a mapped region exactly if one of the
   mappings that have a size and something behind them contains it; and it then goes to that region.
   */
  lemma ByteIsMappedIff(ms: seq<Mapping>, offset: nat, size: nat)
    requires size > 0 && Disjoint(TableOf(Regions(ms, InTable)))
    ensures var r := RegisterAll(ms); var target := Lookup(TableOn(r.table, r.error, r.default_), offset, size);
      && (target.Mapped? <==> exists r :: Has(ms, InTable, r) && Contains(r, offset))
      && (target.Mapped? ==> Contains(target.region, offset) && Has(ms, InTable, target.region))
  {
    hide Contains, Has, Disjoint, Lookup, TableOn, Regions, Sorted;
    RegistrationIs(ms);
    RegionsAre(ms, InTable);
    var rs := Regions(ms, InTable);
    TableIsSorted(rs);
    forall r ensures r in TableOf(rs) <==> Has(ms, InTable, r) { SameMembers(TableOf(rs), rs, r); }
    hide RegisterAll, TableOf;
    MappedIs(TableOf(rs), RegisterAll(ms).error, RegisterAll(ms).default_, offset, size);
  }

  lemma SameMembers(a: seq<Region>, b: seq<Region>, r: Region)
    requires multiset(a) == multiset(b)
    ensures r in a <==> r in b
  {
    assert r in multiset(a) <==> r in multiset(b);
  }

  lemma MappedIs(rs: seq<Region>, error: Option<Region>, default_: Option<Region>, offset: nat, size: nat)
    requires size > 0 && Sorted(rs) && Disjoint(rs)
    ensures var target := Lookup(TableOn(rs, error, default_), offset, size);
      && (target.Mapped? <==> exists r :: r in rs && Contains(r, offset))
      && (target.Mapped? ==> target.region in rs && Contains(target.region, offset))
  {
    if rs != [] {
      TreeAgreesWithScan(rs, offset);
      ScanIs(rs, offset);
    }
  }
}
