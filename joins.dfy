/**
 * The endpoint joins shared by the AC and HVDC aggregation: each line is merged
 * twice with the enriched bus table (once on its from bus, once on its to bus),
 * lines with an end outside every county are dropped, and so, unless asked
 * otherwise, are lines inside one county.
 */
module Joins {
  import opened Wrappers
  import opened StrOps
  import opened Tables
  import opened Grouping
  import opened Rules
  import opened EdgeMeta
  import opened BusLookup

  /** Position of the first enriched bus with id `b`, or |rows|. */
  function FirstBusIndex(rows: seq<EnrichedBus>, b: Value): (k: nat)
    ensures k <= |rows|
    ensures k < |rows| ==> rows[k].busId == b
    ensures forall j :: 0 <= j < k ==> rows[j].busId != b
  {
    if |rows| == 0 then 0
    else if rows[0].busId == b then 0
    else 1 + FirstBusIndex(rows[1..], b)
  }

  /**
   * The attributes a left merge on bus_id attaches for bus `b`: those of its row, or
   * none when no row has that bus id.
   */
  function MetaOf(local: BusLocal, b: Value): (m: Meta)
    ensures (forall j :: 0 <= j < |local.rows| ==> local.rows[j].busId != b) ==> m == NoMeta
    ensures forall j :: (0 <= j < |local.rows| && local.rows[j].busId == b &&
                         (forall i :: 0 <= i < |local.rows| && local.rows[i].busId == b ==> i == j)) ==>
              m == local.rows[j].meta
  {
    var k := FirstBusIndex(local.rows, b);
    if k < |local.rows| then local.rows[k].meta else NoMeta
  }

  /**
   * `bus_local.set_index("bus_id")[col]` looked up for bus `b`, as a number: NaN (None)
   * for a bus not in the table or a cell that is not a number.
   */
  function BusNumber(local: BusLocal, col: string, b: Value): (r: Option<real>)
    ensures (forall j :: 0 <= j < |local.rows| ==> local.rows[j].busId != b) ==> r.None?
    ensures forall j :: (0 <= j < |local.rows| && local.rows[j].busId == b &&
                         (forall i :: 0 <= i < |local.rows| && local.rows[i].busId == b ==> i == j)) ==>
              r == NumOf(Get(local.rows[j].cells, col))
  {
    var k := FirstBusIndex(local.rows, b);
    if k < |local.rows| then NumOf(Get(local.rows[k].cells, col)) else None
  }

  /** A line row joined with the attributes of its from bus (`o`) and its to bus (`d`). */
  datatype Circuit = Circuit(row: Row, fbus: Value, tbus: Value, o: Meta, d: Meta)

  function JoinEnds(local: BusLocal, fcol: string, tcol: string): Row -> Circuit {
    (r: Row) => Circuit(r, Get(r, fcol), Get(r, tcol), MetaOf(local, Get(r, fcol)), MetaOf(local, Get(r, tcol)))
  }

  /** Both ends have a county (`dropna(subset=["fips_o", "fips_d"])`). */
  predicate Located(c: Circuit) {
    c.o.fips.Some? && c.d.fips.Some?
  }

  /** The two ends lie in different counties. */
  predicate CrossCounty(c: Circuit) {
    c.o.fips != c.d.fips
  }

  /** The merges, the dropna and (unless `keepIntra`) the intra-county filter, in row order. */
  function JoinAndLocate(rows: seq<Row>, local: BusLocal, fcol: string, tcol: string, keepIntra: bool): (cs: seq<Circuit>)
    ensures forall i :: 0 <= i < |cs| ==> Located(cs[i]) && (keepIntra || CrossCounty(cs[i]))
    ensures forall i :: 0 <= i < |cs| ==> cs[i] in MapSeq(rows, JoinEnds(local, fcol, tcol))
    ensures forall i :: 0 <= i < |rows| ==>
              var c := JoinEnds(local, fcol, tcol)(rows[i]);
              Located(c) && (keepIntra || CrossCounty(c)) ==> c in cs
  {
    var joined := MapSeq(rows, JoinEnds(local, fcol, tcol));
    var located := Filter(joined, Located);
    if keepIntra then located
    else
      var cs := Filter(located, CrossCounty);
      assert forall i :: 0 <= i < |rows| ==> joined[i] == JoinEnds(local, fcol, tcol)(rows[i]);
      cs
  }

  /** The two joins, the dropna on the county columns and the intra-county filter, step by step. */
  method LocateCircuits(rows: seq<Row>, local: BusLocal, fcol: string, tcol: string, keepIntra: bool)
    returns (cs: seq<Circuit>)
    ensures cs == JoinAndLocate(rows, local, fcol, tcol, keepIntra)
  {
    cs := MapSeq(rows, JoinEnds(local, fcol, tcol));
    cs := KeepWhere(cs, Located);
    if !keepIntra {
      cs := KeepWhere(cs, CrossCounty);
    }
  }

  /** Every joined circuit comes from one of the rows and carries the attributes of its two buses. */
  lemma JoinedFromRows(rows: seq<Row>, local: BusLocal, fcol: string, tcol: string, keepIntra: bool, i: nat)
    requires i < |JoinAndLocate(rows, local, fcol, tcol, keepIntra)|
    ensures var c := JoinAndLocate(rows, local, fcol, tcol, keepIntra)[i];
            c.row in rows && c.fbus == Get(c.row, fcol) && c.tbus == Get(c.row, tcol) &&
            c.o == MetaOf(local, c.fbus) && c.d == MetaOf(local, c.tbus)
  {
    var c := JoinAndLocate(rows, local, fcol, tcol, keepIntra)[i];
    var joined := MapSeq(rows, JoinEnds(local, fcol, tcol));
    var j :| 0 <= j < |joined| && joined[j] == c;
    assert c.row == rows[j];
  }

  /** Against an empty bus table no end has a county, so no line is kept. */
  lemma NoBusesNoCircuits(rows: seq<Row>, fcol: string, tcol: string, keepIntra: bool)
    ensures JoinAndLocate(rows, BusLocal([], []), fcol, tcol, keepIntra) == []
  {
    var joined := MapSeq(rows, JoinEnds(BusLocal([], []), fcol, tcol));
    forall i | 0 <= i < |joined| ensures !Located(joined[i]) {
      assert joined[i].o == MetaOf(BusLocal([], []), Get(rows[i], fcol));
    }
    FilterNone(joined, Located);
    if !keepIntra {
      FilterNone(Filter(joined, Located), CrossCounty);
    }
  }

  // ---------- canonical pair and orientation ----------

  function FipsO(c: Circuit): string { c.o.fips.GetOr("") }
  function FipsD(c: Circuit): string { c.d.fips.GetOr("") }

  /** The (fips_lo, fips_hi) group key of a located circuit. */
  function PairOf(c: Circuit): Pair {
    Canon(FipsO(c), FipsD(c))
  }

  /** The attributes of the end in the pair's first county (From_), and of the other end (To_). */
  function LoEnd(c: Circuit): Meta { Orient(c.o, c.d, FipsO(c), PairOf(c)).0 }
  function HiEnd(c: Circuit): Meta { Orient(c.o, c.d, FipsO(c), PairOf(c)).1 }

  /** The From_ end of a located circuit lies in the pair's first county, the To_ end in its second. */
  lemma EndsFollowPair(c: Circuit)
    requires Located(c)
    ensures LoEnd(c).fips == Some(PairOf(c).0) && HiEnd(c).fips == Some(PairOf(c).1)
  {
    OrientFollowsPair(c.o, c.d, FipsO(c), FipsD(c));
  }

  /** A cross-county circuit's key has two different counties, the smaller first. */
  lemma PairOfCross(c: Circuit)
    requires Located(c) && CrossCounty(c)
    ensures LexLt(PairOf(c).0, PairOf(c).1)
  {
  }
}
