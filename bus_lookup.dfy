/**
 * `build_bus_lookup`: give every bus the substation bus2sub assigns it (the first
 * one when there are several), the county its substation lies in, and the zone
 * attributes of the sub and zone tables. The point-in-polygon join itself is a
 * parameter: `locate` gives the county polygon a substation row lies within.
 */
module BusLookup {
  import opened Wrappers
  import opened StrOps
  import opened Tables
  import opened EdgeMeta

  const SubAliases: seq<string> := ["sub_id", "sub", "subid"]
  const BusAliases: seq<string> := ["bus_id", "bus", "bus_idx"]
  const ZoneAliases: seq<string> := ["zone_id", "zone"]

  /** The county polygon a point lies within: its GEOID, STATEFP and NAME (each possibly missing). */
  datatype CountyHit = CountyHit(geoid: Option<string>, statefp: Option<string>, name: Option<string>)

  /** The ways `build_bus_lookup` refuses its input, in the order it checks them. */
  datatype LookupError =
    | MissingSubIdColumn     // bus2sub has none of sub_id/sub/subid
    | GeospatialUnavailable  // geopandas is not installed
    | MissingCoordinates     // sub lacks lon or lat
    | MissingSubIdKey        // sub has a zone column but no sub_id column to index it by
    | NonUniqueIndex         // a lookup series `map` is given has a repeated index entry

  /** One row of the enriched bus table: bus id, the bus row's own cells, its substation and attributes. */
  datatype EnrichedBus = EnrichedBus(busId: Value, cells: Row, subId: Value, meta: Meta)

  /** The enriched bus table: its column labels and its rows (one per bus row, in order). */
  datatype BusLocal = BusLocal(columns: seq<string>, rows: seq<EnrichedBus>)

  /** The two results: the bus-to-county series and the enriched bus table. */
  datatype BusLookupOut = BusLookupOut(busToFips: seq<(Value, Option<string>)>, local: BusLocal)

  /** Row i's key: the cell of `col`, or the row's position when the frame has no such column. */
  function KeyAt(rows: seq<Row>, col: Option<string>, i: nat): Value
    requires i < |rows|
  {
    if col.Some? then Get(rows[i], col.value) else PositionLabel(i)
  }

  // ---------- bus -> substation ----------

  /** `bus_sub_mapping`: one (bus_id, sub_id) pair per bus2sub row, in order. */
  function BusSubMapping(bus2sub: Table, subcol: string): (m: seq<(Value, Value)>)
    ensures |m| == |bus2sub.rows|
    ensures forall i :: 0 <= i < |m| ==>
              m[i] == (KeyAt(bus2sub.rows, FirstPresent(BusAliases, bus2sub.columns), i), Get(bus2sub.rows[i], subcol))
  {
    var bc := FirstPresent(BusAliases, bus2sub.columns);
    seq(|bus2sub.rows|, i requires 0 <= i < |bus2sub.rows| => (KeyAt(bus2sub.rows, bc, i), Get(bus2sub.rows[i], subcol)))
  }

  predicate HasDuplicateKeys(m: seq<(Value, Value)>) {
    exists i, j :: 0 <= i < j < |m| && m[i].0 == m[j].0
  }

  lemma {:induction false} FirstKeyIndexSnoc(s: seq<(Value, Value)>, x: (Value, Value), k: Value)
    ensures FirstKeyIndex(s + [x], k) ==
            if FirstKeyIndex(s, k) < |s| then FirstKeyIndex(s, k)
            else if x.0 == k then |s| else |s| + 1
    decreases |s|
  {
    if |s| > 0 {
      assert (s + [x])[0] == s[0];
      assert (s + [x])[1..] == s[1..] + [x];
      FirstKeyIndexSnoc(s[1..], x, k);
    }
  }

  /** `drop_duplicates(subset="bus_id", keep="first")`: the first pair of every bus, in order. */
  function KeepFirst(m: seq<(Value, Value)>): seq<(Value, Value)> {
    if |m| == 0 then []
    else
      var r0 := KeepFirst(m[..|m| - 1]);
      var x := m[|m| - 1];
      if FirstKeyIndex(r0, x.0) < |r0| then r0 else r0 + [x]
  }

  /** The kept pairs are pairs of the input, at most one per bus. */
  lemma {:induction false} KeepFirstDistinct(m: seq<(Value, Value)>)
    ensures forall i, j :: 0 <= i < j < |KeepFirst(m)| ==> KeepFirst(m)[i].0 != KeepFirst(m)[j].0
    ensures forall i :: 0 <= i < |KeepFirst(m)| ==> KeepFirst(m)[i] in m
    decreases |m|
  {
    if |m| > 0 {
      var init := m[..|m| - 1];
      var x := m[|m| - 1];
      assert m == init + [x];
      KeepFirstDistinct(init);
      var r0 := KeepFirst(init);
      assert forall i :: 0 <= i < |r0| ==> r0[i] in m;
      if FirstKeyIndex(r0, x.0) == |r0| {
        var r := r0 + [x];
        assert forall i :: 0 <= i < |r0| ==> r0[i].0 != x.0;
        assert forall i, j :: 0 <= i < j < |r| ==> r[i].0 != r[j].0 by {
          forall i, j | 0 <= i < j < |r| ensures r[i].0 != r[j].0 {
            if j == |r0| {
              assert r[i] == r0[i] && r[j] == x;
            } else {
              assert r[i] == r0[i] && r[j] == r0[j];
            }
          }
        }
      }
    }
  }

  /** Every bus of the input is kept, with the substation of its first pair. */
  lemma {:induction false} KeepFirstLookup(m: seq<(Value, Value)>, k: Value)
    ensures var r := KeepFirst(m);
            (FirstKeyIndex(r, k) < |r| <==> FirstKeyIndex(m, k) < |m|) &&
            LookupFirst(r, k) == LookupFirst(m, k)
    decreases |m|
  {
    if |m| > 0 {
      var init := m[..|m| - 1];
      var x := m[|m| - 1];
      assert m == init + [x];
      var r0 := KeepFirst(init);
      KeepFirstLookup(init, k);
      KeepFirstLookup(init, x.0);
      FirstKeyIndexSnoc(init, x, k);
      if FirstKeyIndex(r0, x.0) < |r0| {
        assert KeepFirst(m) == r0;
      } else {
        assert KeepFirst(m) == r0 + [x];
        FirstKeyIndexSnoc(r0, x, k);
      }
    }
  }

  /** Without two pairs for the same bus, dropping duplicates changes nothing. */
  lemma {:induction false} KeepFirstNoDuplicates(m: seq<(Value, Value)>)
    requires !HasDuplicateKeys(m)
    ensures KeepFirst(m) == m
    decreases |m|
  {
    if |m| > 0 {
      var init := m[..|m| - 1];
      var x := m[|m| - 1];
      assert m == init + [x];
      assert forall i, j :: 0 <= i < j < |init| ==> init[i].0 != init[j].0 by {
        forall i, j | 0 <= i < j < |init| ensures init[i].0 != init[j].0 {
          assert init[i] == m[i] && init[j] == m[j];
        }
      }
      KeepFirstNoDuplicates(init);
      assert forall i :: 0 <= i < |init| ==> init[i].0 != x.0 by {
        forall i | 0 <= i < |init| ensures init[i].0 != x.0 {
          assert m[i].0 != m[|m| - 1].0;
        }
      }
    }
  }

  /** Two buses listed under two substations each keep their first substation. */
  lemma KeepFirstExample()
    ensures KeepFirst([(Num(1.0), Num(10.0)), (Num(1.0), Num(20.0)), (Num(2.0), Num(20.0))]) ==
            [(Num(1.0), Num(10.0)), (Num(2.0), Num(20.0))]
  {
    var m := [(Num(1.0), Num(10.0)), (Num(1.0), Num(20.0)), (Num(2.0), Num(20.0))];
    assert m[..1] == [(Num(1.0), Num(10.0))];
    assert m[..2][..1] == m[..1];
    assert m[..2] == [(Num(1.0), Num(10.0)), (Num(1.0), Num(20.0))];
    assert KeepFirst(m[..1][..0]) == [];
    assert KeepFirst(m[..1]) == [(Num(1.0), Num(10.0))];
    assert FirstKeyIndex([(Num(1.0), Num(10.0))], Num(1.0)) == 0;
    assert KeepFirst(m[..2]) == [(Num(1.0), Num(10.0))];
    assert FirstKeyIndex([(Num(1.0), Num(10.0))], Num(2.0)) == 1;
  }

  /**
   * `bus_map`: the mapping itself, or its first entry per bus when some bus has
   * several. Either way, every bus is looked up to the first substation listed for it.
   */
  function BusMap(m: seq<(Value, Value)>): (r: seq<(Value, Value)>)
    ensures forall i, j :: 0 <= i < j < |r| ==> r[i].0 != r[j].0
    ensures forall k :: LookupFirst(r, k) == LookupFirst(m, k)
  {
    if HasDuplicateKeys(m) then
      KeepFirstDistinct(m);
      assert forall k :: LookupFirst(KeepFirst(m), k) == LookupFirst(m, k) by {
        forall k ensures LookupFirst(KeepFirst(m), k) == LookupFirst(m, k) {
          KeepFirstLookup(m, k);
        }
      }
      KeepFirst(m)
    else m
  }

  // ---------- substation -> county ----------

  /** The key sjoin's result is indexed by: the first of sub_id/sub/subid, else the row position. */
  function SubKeyCol(sub: Table): Option<string> {
    FirstPresent(SubAliases, sub.columns)
  }

  /** Position of the first substation row with key `sid`, or |sub.rows|. */
  function FirstSubIndex(sub: Table, sid: Value, from: nat): (k: nat)
    requires from <= |sub.rows|
    ensures from <= k <= |sub.rows|
    ensures k < |sub.rows| ==> KeyAt(sub.rows, SubKeyCol(sub), k) == sid
    ensures forall j :: from <= j < k ==> KeyAt(sub.rows, SubKeyCol(sub), j) != sid
    decreases |sub.rows| - from
  {
    if from == |sub.rows| then from
    else if KeyAt(sub.rows, SubKeyCol(sub), from) == sid then from
    else FirstSubIndex(sub, sid, from + 1)
  }

  /** The county polygon of the substation `sid` (the first row with that key), if it has one. */
  function SubHit(sub: Table, locate: Row -> Option<CountyHit>, sid: Value): Option<CountyHit> {
    var k := FirstSubIndex(sub, sid, 0);
    if k < |sub.rows| then locate(sub.rows[k]) else None
  }

  /** Whether two rows share a key (row positions, used when there is no key column, never do). */
  predicate KeysRepeat(rows: seq<Row>, col: Option<string>) {
    exists i, j :: 0 <= i < j < |rows| && KeyAt(rows, col, i) == KeyAt(rows, col, j)
  }

  /** The zone table is consulted for zone_name or interconnect and its zone id column repeats a value. */
  predicate ZoneIndexRepeats(zone: Option<Table>) {
    zone.Some? && ("zone_name" in zone.value.columns || "interconnect" in zone.value.columns) &&
    FirstPresent(ZoneAliases, zone.value.columns).Some? &&
    KeysRepeat(zone.value.rows, FirstPresent(ZoneAliases, zone.value.columns))
  }

  /** sub has a zone column, looked up through its sub_id column, and has no sub_id column. */
  predicate ZoneWithoutSubId(sub: Table) {
    ("zone_id" in sub.columns || "zone" in sub.columns) && "sub_id" !in sub.columns
  }

  // ---------- enriched bus table ----------

  /** The bus table's id column: bus_id, else bus (renamed to bus_id), else none (the position is used). */
  function BusIdCol(bus: Table): Option<string> {
    if "bus_id" in bus.columns then Some("bus_id")
    else if "bus" in bus.columns then Some("bus")
    else None
  }

  /** The columns the enrichment adds. */
  const AddedColumns: seq<string> :=
    ["sub_id", "county_fips", "county_name", "state_fips", "zone_id", "zone_name", "interconnect"]

  /** The enriched table's labels: the bus columns with bus_id ensured, then the new ones. */
  function LocalColumns(bus: Table): (cols: seq<string>)
    ensures "bus_id" in cols
    ensures forall c :: c in bus.columns && c != "bus" ==> c in cols
  {
    var base :=
      if "bus_id" in bus.columns then bus.columns
      else if "bus" in bus.columns then MapSeq(bus.columns, (c: string) => if c == "bus" then "bus_id" else c)
      else ["bus_id"] + bus.columns;
    assert "bus_id" in base by {
      if "bus_id" !in bus.columns && "bus" in bus.columns {
        var j :| 0 <= j < |bus.columns| && bus.columns[j] == "bus";
        assert base[j] == "bus_id";
      }
    }
    assert forall c :: c in bus.columns && c != "bus" ==> c in base by {
      forall c | c in bus.columns && c != "bus" ensures c in base {
        var j :| 0 <= j < |bus.columns| && bus.columns[j] == c;
        if "bus_id" !in bus.columns && "bus" in bus.columns {
          assert base[j] == c;
        } else if "bus_id" !in bus.columns {
          assert base[j + 1] == c;
        }
      }
    }
    base + Filter(AddedColumns, (c: string) => c !in base)
  }

  /** `zone_id` of bus row i: from sub's zone_id, else sub's zone (both indexed by sub_id), else the bus's own. */
  function ZoneIdOf(bus: Table, sub: Table, i: nat, sid: Value): Value
    requires i < |bus.rows|
  {
    if "zone_id" in sub.columns then LookupFirst(ColumnPairs(sub.rows, "sub_id", "zone_id"), sid)
    else if "zone" in sub.columns then LookupFirst(ColumnPairs(sub.rows, "sub_id", "zone"), sid)
    else if "zone_id" in bus.columns then Get(bus.rows[i], "zone_id")
    else Null
  }

  /** A zone-table attribute (zone_name, interconnect) of zone `zid`, missing without a usable zone table. */
  function ZoneAttr(zone: Option<Table>, attr: string, zid: Value): Value {
    if zone.Some? && attr in zone.value.columns then
      match FirstPresent(ZoneAliases, zone.value.columns)
      case Some(zc) => LookupFirst(ColumnPairs(zone.value.rows, zc, attr), zid)
      case None => Null
    else Null
  }

  /** The substation of bus row i: the bus table's own sub_id if it has one, else bus_map's. */
  function SubIdOf(bus: Table, busMap: seq<(Value, Value)>, i: nat): Value
    requires i < |bus.rows|
  {
    if "sub_id" in bus.columns then Get(bus.rows[i], "sub_id")
    else LookupFirst(busMap, KeyAt(bus.rows, BusIdCol(bus), i))
  }

  function EnrichBus(bus: Table, busMap: seq<(Value, Value)>, sub: Table, zone: Option<Table>,
                     locate: Row -> Option<CountyHit>, i: nat): EnrichedBus
    requires i < |bus.rows|
  {
    var sid := SubIdOf(bus, busMap, i);
    var hit := SubHit(sub, locate, sid);
    var zid := ZoneIdOf(bus, sub, i, sid);
    EnrichedBus(KeyAt(bus.rows, BusIdCol(bus), i), bus.rows[i], sid,
                Meta(if hit.Some? then hit.value.geoid else None,
                     if hit.Some? then hit.value.name else None,
                     if hit.Some? then hit.value.statefp else None,
                     zid, ZoneAttr(zone, "zone_name", zid), ZoneAttr(zone, "interconnect", zid)))
  }

  function FipsEntry(b: EnrichedBus): (Value, Option<string>) {
    (b.busId, b.meta.fips)
  }

  /**
   * `build_bus_lookup`. Its errors, in the order it meets them: no substation column
   * in bus2sub, no geopandas, no coordinates, a substation key that repeats (the
   * county maps), a zone column without sub_id to index it by, a zone id that
   * repeats (the zone-name and interconnect maps).
   */
  function BuildBusLookup(bus: Table, bus2sub: Table, sub: Table, zone: Option<Table>,
                          geopandas: bool, locate: Row -> Option<CountyHit>): (r: Result<BusLookupOut, LookupError>)
    ensures r == Failure(MissingSubIdColumn) <==> FirstPresent(SubAliases, bus2sub.columns).None?
    ensures r == Failure(GeospatialUnavailable) <==> FirstPresent(SubAliases, bus2sub.columns).Some? && !geopandas
    ensures r == Failure(MissingCoordinates) <==>
              FirstPresent(SubAliases, bus2sub.columns).Some? && geopandas && !("lon" in sub.columns && "lat" in sub.columns)
    ensures r == Failure(NonUniqueIndex) <==>
              FirstPresent(SubAliases, bus2sub.columns).Some? && geopandas && "lon" in sub.columns && "lat" in sub.columns &&
              (KeysRepeat(sub.rows, SubKeyCol(sub)) || (!ZoneWithoutSubId(sub) && ZoneIndexRepeats(zone)))
    ensures r == Failure(MissingSubIdKey) <==>
              FirstPresent(SubAliases, bus2sub.columns).Some? && geopandas && "lon" in sub.columns && "lat" in sub.columns &&
              !KeysRepeat(sub.rows, SubKeyCol(sub)) && ZoneWithoutSubId(sub)
    ensures r.Success? ==> |r.value.local.rows| == |bus.rows| && |r.value.busToFips| == |bus.rows|
    ensures r.Success? ==> forall i :: 0 <= i < |bus.rows| ==>
              r.value.busToFips[i] == (r.value.local.rows[i].busId, r.value.local.rows[i].meta.fips)
  {
    match FirstPresent(SubAliases, bus2sub.columns)
    case None => Failure(MissingSubIdColumn)
    case Some(subcol) =>
      if !geopandas then Failure(GeospatialUnavailable)
      else if !("lon" in sub.columns && "lat" in sub.columns) then Failure(MissingCoordinates)
      else if KeysRepeat(sub.rows, SubKeyCol(sub)) then Failure(NonUniqueIndex)
      else if ZoneWithoutSubId(sub) then Failure(MissingSubIdKey)
      else if ZoneIndexRepeats(zone) then Failure(NonUniqueIndex)
      else
        var busMap := BusMap(BusSubMapping(bus2sub, subcol));
        var rows := seq(|bus.rows|, i requires 0 <= i < |bus.rows| => EnrichBus(bus, busMap, sub, zone, locate, i));
        Success(BusLookupOut(MapSeq(rows, FipsEntry), BusLocal(LocalColumns(bus), rows)))
  }

  // ---------- properties of the enriched table ----------

  /**
   * Bus row i gets the id of its bus_id column, else of its bus column, else its
   * position, and keeps its own cells.
   */
  lemma BusIdRule(bus: Table, bus2sub: Table, sub: Table, zone: Option<Table>,
                  geopandas: bool, locate: Row -> Option<CountyHit>, i: nat)
    requires BuildBusLookup(bus, bus2sub, sub, zone, geopandas, locate).Success?
    requires i < |bus.rows|
    ensures var b := BuildBusLookup(bus, bus2sub, sub, zone, geopandas, locate).value.local.rows[i];
            b.cells == bus.rows[i] &&
            b.busId == (if "bus_id" in bus.columns then Get(bus.rows[i], "bus_id")
                        else if "bus" in bus.columns then Get(bus.rows[i], "bus")
                        else PositionLabel(i))
  {
  }

  /**
   * Without a sub_id column of its own, a bus is assigned the substation of the first
   * bus2sub row that lists it, and a missing substation if no row does.
   */
  lemma FirstSubstationWins(bus: Table, bus2sub: Table, sub: Table, zone: Option<Table>,
                            geopandas: bool, locate: Row -> Option<CountyHit>, i: nat)
    requires BuildBusLookup(bus, bus2sub, sub, zone, geopandas, locate).Success?
    requires i < |bus.rows| && "sub_id" !in bus.columns
    ensures var out := BuildBusLookup(bus, bus2sub, sub, zone, geopandas, locate).value;
            var b := out.local.rows[i];
            var m := BusSubMapping(bus2sub, FirstPresent(SubAliases, bus2sub.columns).value);
            var k := FirstKeyIndex(m, b.busId);
            (k < |m| ==> b.subId == Get(bus2sub.rows[k], FirstPresent(SubAliases, bus2sub.columns).value)) &&
            (k == |m| ==> b.subId == Null)
  {
  }

  /**
   * A bus's county is the GEOID of the polygon its substation lies in; it is missing
   * when the substation is not in the sub table or lies in no county.
   */
  lemma CountyFromSubstation(bus: Table, bus2sub: Table, sub: Table, zone: Option<Table>,
                             geopandas: bool, locate: Row -> Option<CountyHit>, i: nat)
    requires BuildBusLookup(bus, bus2sub, sub, zone, geopandas, locate).Success?
    requires i < |bus.rows|
    ensures var b := BuildBusLookup(bus, bus2sub, sub, zone, geopandas, locate).value.local.rows[i];
            var k := FirstSubIndex(sub, b.subId, 0);
            (k == |sub.rows| ==> b.meta.fips.None? && b.meta.cname.None? && b.meta.sfp.None?) &&
            (k < |sub.rows| && locate(sub.rows[k]).None? ==> b.meta.fips.None? && b.meta.cname.None? && b.meta.sfp.None?) &&
            (k < |sub.rows| && locate(sub.rows[k]).Some? ==>
               b.meta.fips == locate(sub.rows[k]).value.geoid &&
               b.meta.cname == locate(sub.rows[k]).value.name &&
               b.meta.sfp == locate(sub.rows[k]).value.statefp) &&
            (k < |sub.rows| ==> forall j :: 0 <= j < |sub.rows| && KeyAt(sub.rows, SubKeyCol(sub), j) == b.subId ==> j == k)
  {
  }

  /** With a sub_id column present it is the substation key the county maps are indexed by. */
  lemma SubIdKeyCol(sub: Table)
    requires "sub_id" in sub.columns
    ensures SubKeyCol(sub) == Some("sub_id")
  {
    assert SubAliases[0] in sub.columns;
  }

  /**
   * Where sub has a zone_id (else zone) column, a bus gets the zone of the one sub
   * row whose sub_id is the bus's substation.
   */
  lemma ZoneFromSubTable(bus: Table, bus2sub: Table, sub: Table, zone: Option<Table>,
                         geopandas: bool, locate: Row -> Option<CountyHit>, i: nat, j: nat)
    requires BuildBusLookup(bus, bus2sub, sub, zone, geopandas, locate).Success?
    requires i < |bus.rows| && j < |sub.rows|
    requires "zone_id" in sub.columns || "zone" in sub.columns
    requires Get(sub.rows[j], "sub_id") == BuildBusLookup(bus, bus2sub, sub, zone, geopandas, locate).value.local.rows[i].subId
    ensures var b := BuildBusLookup(bus, bus2sub, sub, zone, geopandas, locate).value.local.rows[i];
            b.meta.zone == Get(sub.rows[j], if "zone_id" in sub.columns then "zone_id" else "zone")
  {
    var b := BuildBusLookup(bus, bus2sub, sub, zone, geopandas, locate).value.local.rows[i];
    var zc := if "zone_id" in sub.columns then "zone_id" else "zone";
    SubIdKeyCol(sub);
    var pairs := ColumnPairs(sub.rows, "sub_id", zc);
    assert forall a, c :: 0 <= a < c < |pairs| ==> pairs[a].0 != pairs[c].0 by {
      forall a, c | 0 <= a < c < |pairs| ensures pairs[a].0 != pairs[c].0 {
        assert pairs[a].0 == KeyAt(sub.rows, SubKeyCol(sub), a);
        assert pairs[c].0 == KeyAt(sub.rows, SubKeyCol(sub), c);
      }
    }
    LookupUnique(pairs, b.subId, j);
  }

  /** Without a zone column in sub, a bus keeps its own zone_id, and has none without one. */
  lemma ZoneFromBusOrMissing(bus: Table, bus2sub: Table, sub: Table, zone: Option<Table>,
                             geopandas: bool, locate: Row -> Option<CountyHit>, i: nat)
    requires BuildBusLookup(bus, bus2sub, sub, zone, geopandas, locate).Success?
    requires i < |bus.rows| && "zone_id" !in sub.columns && "zone" !in sub.columns
    ensures var b := BuildBusLookup(bus, bus2sub, sub, zone, geopandas, locate).value.local.rows[i];
            b.meta.zone == (if "zone_id" in bus.columns then Get(bus.rows[i], "zone_id") else Null)
  {
  }

  /**
   * With a zone table that has the attribute (zone_name or interconnect) and a zone
   * id column, a bus gets the attribute of the one zone row with the bus's zone id.
   */
  lemma ZoneAttrFromZoneTable(bus: Table, bus2sub: Table, sub: Table, zone: Table,
                              geopandas: bool, locate: Row -> Option<CountyHit>, attr: string, i: nat, j: nat)
    requires BuildBusLookup(bus, bus2sub, sub, Some(zone), geopandas, locate).Success?
    requires attr == "zone_name" || attr == "interconnect"
    requires attr in zone.columns && FirstPresent(ZoneAliases, zone.columns).Some?
    requires i < |bus.rows| && j < |zone.rows|
    requires Get(zone.rows[j], FirstPresent(ZoneAliases, zone.columns).value) ==
             BuildBusLookup(bus, bus2sub, sub, Some(zone), geopandas, locate).value.local.rows[i].meta.zone
    ensures var b := BuildBusLookup(bus, bus2sub, sub, Some(zone), geopandas, locate).value.local.rows[i];
            (if attr == "zone_name" then b.meta.zname else b.meta.interconn) == Get(zone.rows[j], attr)
  {
    var b := BuildBusLookup(bus, bus2sub, sub, Some(zone), geopandas, locate).value.local.rows[i];
    var zc := FirstPresent(ZoneAliases, zone.columns);
    var pairs := ColumnPairs(zone.rows, zc.value, attr);
    assert !ZoneIndexRepeats(Some(zone));
    assert forall a, c :: 0 <= a < c < |pairs| ==> pairs[a].0 != pairs[c].0 by {
      forall a, c | 0 <= a < c < |pairs| ensures pairs[a].0 != pairs[c].0 {
        assert pairs[a].0 == KeyAt(zone.rows, zc, a);
        assert pairs[c].0 == KeyAt(zone.rows, zc, c);
      }
    }
    LookupUnique(pairs, b.meta.zone, j);
  }

  /** Zone names and interconnects are missing when there is no zone table. */
  lemma NoZoneTableNoNames(bus: Table, bus2sub: Table, sub: Table,
                           geopandas: bool, locate: Row -> Option<CountyHit>, i: nat)
    requires BuildBusLookup(bus, bus2sub, sub, None, geopandas, locate).Success?
    requires i < |bus.rows|
    ensures var b := BuildBusLookup(bus, bus2sub, sub, None, geopandas, locate).value.local.rows[i];
            b.meta.zname == Null && b.meta.interconn == Null
  {
  }
}
