/**
 * `aggregate_hvdc`: in-service DC links between two counties, their pmax summed
 * per unordered county pair.
 */
module HvdcAggregation {
  import opened Wrappers
  import opened StrOps
  import opened Tables
  import opened Grouping
  import opened Rules
  import opened EdgeMeta
  import opened BusLookup
  import opened Joins

  const DcFromAliases: seq<string> := ["f_bus", "from_bus_id", "from_bus"]
  const DcToAliases: seq<string> := ["t_bus", "to_bus_id", "to_bus"]
  const PmaxAliases: seq<string> := ["pmax", "Pmax", "PMAX", "p_max"]

  /** The columns a DC-line table resolves to: from bus, to bus and rating. */
  datatype DcColumns = DcColumns(fbus: string, tbus: string, pmax: string)

  /** The first alias present for each of the three columns, or None when one is missing. */
  function ResolveDc(cols: seq<string>): (r: Option<DcColumns>)
    ensures r.None? <==> FirstPresent(DcFromAliases, cols).None? || FirstPresent(DcToAliases, cols).None? ||
                         FirstPresent(PmaxAliases, cols).None?
    ensures r.Some? ==> r.value.fbus in DcFromAliases && r.value.tbus in DcToAliases && r.value.pmax in PmaxAliases
    ensures r.Some? ==> r.value.fbus in cols && r.value.tbus in cols && r.value.pmax in cols
  {
    match (FirstPresent(DcFromAliases, cols), FirstPresent(DcToAliases, cols), FirstPresent(PmaxAliases, cols))
    case (Some(f), Some(t), Some(p)) => Some(DcColumns(f, t, p))
    case _ => None
  }

  /** The in-service links: rows with status 1 when a status column exists, else every row. */
  function LinksInService(dc: Table): (rows: seq<Row>)
    ensures "status" !in dc.columns ==> rows == dc.rows
    ensures "status" in dc.columns ==>
              (forall i :: 0 <= i < |rows| ==> rows[i] in dc.rows && Get(rows[i], "status") == Num(1.0)) &&
              (forall i :: 0 <= i < |dc.rows| && Get(dc.rows[i], "status") == Num(1.0) ==> dc.rows[i] in rows)
  {
    if "status" in dc.columns then Filter(dc.rows, CellIs("status", Num(1.0))) else dc.rows
  }

  /** The located (and, by default, cross-county) in-service links. */
  function DcCircuits(dc: Table, cols: DcColumns, local: BusLocal, keepIntra: bool): (cs: seq<Circuit>)
    ensures forall i :: 0 <= i < |cs| ==> Located(cs[i]) && (keepIntra || CrossCounty(cs[i]))
  {
    JoinAndLocate(LinksInService(dc), local, cols.fbus, cols.tbus, keepIntra)
  }

  /** A link's pmax as the `sum` aggregate sees it: missing counts as 0. */
  function PmaxOf(col: string): (f: Circuit -> real)
    ensures forall c: Circuit :: NumOf(Get(c.row, col)).Some? ==> f(c) == NumOf(Get(c.row, col)).value
    ensures forall c: Circuit :: NumOf(Get(c.row, col)).None? ==> f(c) == 0.0
  {
    (c: Circuit) => NumOf(Get(c.row, col)).GetOr(0.0)
  }

  /** One HVDC edge: its canonical county pair, Σ pmax, the number of links and the attributes. */
  datatype HvdcEdge = HvdcEdge(fromFips: string, toFips: string, capacityMw: real, nLinks: nat,
                               edgeType: string, ends: Ends)

  function OriginEnd(c: Circuit): Meta { c.o }
  function DestEnd(c: Circuit): Meta { c.d }

  /** The edge of one group, its From_ attributes those of the ends in its first county. */
  function HvdcEdgeFor(col: string, states: Option<seq<StateRecord>>, g: Group<Circuit>): (e: HvdcEdge)
    ensures (e.fromFips, e.toFips) == g.key && e.nLinks == |g.members|
    ensures e.capacityMw == SumBy(g.members, PmaxOf(col)) && e.edgeType == "HVDC"
    ensures e.ends == Summarise(MapSeq(g.members, LoEnd), MapSeq(g.members, HiEnd), states)
  {
    HvdcEdge(g.key.0, g.key.1, SumBy(g.members, PmaxOf(col)), |g.members|, "HVDC",
             Summarise(MapSeq(g.members, LoEnd), MapSeq(g.members, HiEnd), states))
  }

  function HvdcEdgeOf(col: string, states: Option<seq<StateRecord>>): Group<Circuit> -> HvdcEdge {
    (g: Group<Circuit>) => HvdcEdgeFor(col, states, g)
  }

  /**
   * The edge of one group as written: From_ attributes from the from-bus side, states
   * through pd.NA. Only the attribute columns differ from the corrected edge.
   */
  function HvdcEdgeOfAsWritten(col: string, states: Option<seq<StateRecord>>): (f: Group<Circuit> -> HvdcEdge)
    ensures forall g :: f(g) == HvdcEdgeFor(col, states, g).(ends := f(g).ends)
  {
    (g: Group<Circuit>) =>
      HvdcEdge(g.key.0, g.key.1, SumBy(g.members, PmaxOf(col)), |g.members|, "HVDC",
               SummariseAsWritten(MapSeq(g.members, OriginEnd), MapSeq(g.members, DestEnd), states))
  }

  /**
   * `aggregate_hvdc` (with the corrections listed under Findings): None without a
   * DC-line table, with an unresolved column, or with no in-service link; otherwise
   * the edges, possibly none.
   */
  function AggregateHvdc(dcline: Option<Table>, local: BusLocal, keepIntra: bool,
                         states: Option<seq<StateRecord>>): (r: Option<seq<HvdcEdge>>)
    ensures r.None? <==> dcline.None? || ResolveDc(dcline.value.columns).None? || |LinksInService(dcline.value)| == 0
  {
    match dcline
    case None => None
    case Some(dc) =>
      match ResolveDc(dc.columns)
      case None => None
      case Some(cols) =>
        if |LinksInService(dc)| == 0 then None
        else Some(MapSeq(GroupBy(DcCircuits(dc, cols, local, keepIntra), PairOf), HvdcEdgeOf(cols.pmax, states)))
  }

  /** `aggregate_hvdc` as written: the same edges as the corrected version but for the attributes. */
  function AggregateHvdcAsWritten(dcline: Option<Table>, local: BusLocal, keepIntra: bool,
                                  states: Option<seq<StateRecord>>): (r: Option<seq<HvdcEdge>>)
    ensures r.None? <==> AggregateHvdc(dcline, local, keepIntra, states).None?
    ensures r.Some? ==>
              var es := AggregateHvdc(dcline, local, keepIntra, states).value;
              |r.value| == |es| && forall i :: 0 <= i < |es| ==> r.value[i] == es[i].(ends := r.value[i].ends)
  {
    match dcline
    case None => None
    case Some(dc) =>
      match ResolveDc(dc.columns)
      case None => None
      case Some(cols) =>
        if |LinksInService(dc)| == 0 then None
        else Some(MapSeq(GroupBy(DcCircuits(dc, cols, local, keepIntra), PairOf), HvdcEdgeOfAsWritten(cols.pmax, states)))
  }

  // ---------- properties ----------

  /** The edges of located links come in strictly increasing pair order, From_fips before To_fips. */
  lemma LinkEdgesOrdered(cs: seq<Circuit>, col: string, states: Option<seq<StateRecord>>, keepIntra: bool)
    requires forall i :: 0 <= i < |cs| ==> Located(cs[i]) && (keepIntra || CrossCounty(cs[i]))
    ensures var es := MapSeq(GroupBy(cs, PairOf), HvdcEdgeOf(col, states));
            (forall i, j :: 0 <= i < j < |es| ==> PairLt((es[i].fromFips, es[i].toFips), (es[j].fromFips, es[j].toFips))) &&
            (forall i :: 0 <= i < |es| ==> LexLe(es[i].fromFips, es[i].toFips)) &&
            (forall i :: 0 <= i < |es| && !keepIntra ==> LexLt(es[i].fromFips, es[i].toFips))
  {
    var gs := GroupBy(cs, PairOf);
    var es := MapSeq(gs, HvdcEdgeOf(col, states));
    assert forall i :: 0 <= i < |es| ==> (es[i].fromFips, es[i].toFips) == gs[i].key;
    forall i | 0 <= i < |cs| ensures !keepIntra ==> LexLt(PairOf(cs[i]).0, PairOf(cs[i]).1) {
      if !keepIntra {
        PairOfCross(cs[i]);
      }
    }
    GroupByPairsOrdered(cs, PairOf, !keepIntra);
  }

  /** `aggregate_hvdc`'s edges are ordered by pair, From_fips before To_fips (strictly by default). */
  lemma HvdcEdgesOrdered(dc: Table, cols: DcColumns, local: BusLocal, keepIntra: bool, states: Option<seq<StateRecord>>)
    requires ResolveDc(dc.columns) == Some(cols)
    requires AggregateHvdc(Some(dc), local, keepIntra, states).Some?
    ensures var es := AggregateHvdc(Some(dc), local, keepIntra, states).value;
            (forall i, j :: 0 <= i < j < |es| ==> PairLt((es[i].fromFips, es[i].toFips), (es[j].fromFips, es[j].toFips))) &&
            (forall i :: 0 <= i < |es| ==> LexLe(es[i].fromFips, es[i].toFips)) &&
            (forall i :: 0 <= i < |es| && !keepIntra ==> LexLt(es[i].fromFips, es[i].toFips))
  {
    LinkEdgesOrdered(DcCircuits(dc, cols, local, keepIntra), cols.pmax, states, keepIntra);
  }

  /** Edge i of the links `cs` sums the pmax of exactly the links of its pair, and counts them. */
  lemma LinkMembers(cs: seq<Circuit>, col: string, states: Option<seq<StateRecord>>, i: nat)
    requires i < |GroupBy(cs, PairOf)|
    ensures var e := MapSeq(GroupBy(cs, PairOf), HvdcEdgeOf(col, states))[i];
            var ms := Filter(cs, KeyIs(PairOf, (e.fromFips, e.toFips)));
            e.nLinks == |ms| >= 1 && e.capacityMw == SumBy(ms, PmaxOf(col))
  {
    var gs := GroupBy(cs, PairOf);
    GroupByMembers(cs, PairOf, gs, i);
    assert gs[i] == MkGroup(cs, PairOf)(SortedKeys(cs, PairOf)[i]);
    var e := HvdcEdgeFor(col, states, gs[i]);
    assert MapSeq(gs, HvdcEdgeOf(col, states))[i] == e;
  }

  /** Each edge sums the pmax of exactly the links of its county pair (missing pmax as 0), and counts them. */
  lemma HvdcEdgeMembers(dc: Table, cols: DcColumns, local: BusLocal, keepIntra: bool,
                        states: Option<seq<StateRecord>>, i: nat)
    requires ResolveDc(dc.columns) == Some(cols)
    requires AggregateHvdc(Some(dc), local, keepIntra, states).Some?
    requires i < |AggregateHvdc(Some(dc), local, keepIntra, states).value|
    ensures var e := AggregateHvdc(Some(dc), local, keepIntra, states).value[i];
            var ms := Filter(DcCircuits(dc, cols, local, keepIntra), KeyIs(PairOf, (e.fromFips, e.toFips)));
            e.nLinks == |ms| >= 1 && e.capacityMw == SumBy(ms, PmaxOf(cols.pmax))
  {
    AggregateHvdcEdges(dc, cols, local, keepIntra, states);
    LinkMembers(DcCircuits(dc, cols, local, keepIntra), cols.pmax, states, i);
  }

  function EdgeCapacity(e: HvdcEdge): real { e.capacityMw }
  function EdgeLinks(e: HvdcEdge): real { e.nLinks as real }

  /** The edges of the links `cs` add up to their pmax total and to their number. */
  lemma LinkTotals(cs: seq<Circuit>, col: string, states: Option<seq<StateRecord>>)
    ensures var es := MapSeq(GroupBy(cs, PairOf), HvdcEdgeOf(col, states));
            SumBy(es, EdgeCapacity) == SumBy(cs, PmaxOf(col)) && SumBy(es, EdgeLinks) == |cs| as real
  {
    var gs := GroupBy(cs, PairOf);
    SumByMap(gs, HvdcEdgeOf(col, states), EdgeCapacity, GroupSum(PmaxOf(col)));
    GroupByTotal(cs, PairOf, PmaxOf(col));
    forall i | 0 <= i < |gs| ensures EdgeLinks(HvdcEdgeOf(col, states)(gs[i])) == GroupSum(One)(gs[i]) {
      SumByOne(gs[i].members);
    }
    SumByMap(gs, HvdcEdgeOf(col, states), EdgeLinks, GroupSum(One));
    GroupBySizes(cs, PairOf);
  }

  /** The edges' capacities add up to the located links' pmax, and their link counts to the number of links. */
  lemma HvdcCapacityConserved(dc: Table, cols: DcColumns, local: BusLocal, keepIntra: bool, states: Option<seq<StateRecord>>)
    requires ResolveDc(dc.columns) == Some(cols)
    requires AggregateHvdc(Some(dc), local, keepIntra, states).Some?
    ensures var es := AggregateHvdc(Some(dc), local, keepIntra, states).value;
            var cs := DcCircuits(dc, cols, local, keepIntra);
            SumBy(es, EdgeCapacity) == SumBy(cs, PmaxOf(cols.pmax)) && SumBy(es, EdgeLinks) == |cs| as real
  {
    AggregateHvdcEdges(dc, cols, local, keepIntra, states);
    LinkTotals(DcCircuits(dc, cols, local, keepIntra), cols.pmax, states);
  }

  /** With its columns resolved and a link in service, the aggregate is the edge image of the groups. */
  lemma AggregateHvdcEdges(dc: Table, cols: DcColumns, local: BusLocal, keepIntra: bool, states: Option<seq<StateRecord>>)
    requires ResolveDc(dc.columns) == Some(cols)
    requires AggregateHvdc(Some(dc), local, keepIntra, states).Some?
    ensures AggregateHvdc(Some(dc), local, keepIntra, states).value ==
              MapSeq(GroupBy(DcCircuits(dc, cols, local, keepIntra), PairOf), HvdcEdgeOf(cols.pmax, states))
  {
  }

  function HvdcKey(e: HvdcEdge): Pair { (e.fromFips, e.toFips) }

  /** Every located in-service link is counted in the edge of its county pair. */
  lemma HvdcLinkCovered(dc: Table, cols: DcColumns, local: BusLocal, keepIntra: bool,
                        states: Option<seq<StateRecord>>, r: nat)
    requires ResolveDc(dc.columns) == Some(cols)
    requires AggregateHvdc(Some(dc), local, keepIntra, states).Some?
    requires r < |DcCircuits(dc, cols, local, keepIntra)|
    ensures var es := AggregateHvdc(Some(dc), local, keepIntra, states).value;
            exists i :: 0 <= i < |es| && (es[i].fromFips, es[i].toFips) == PairOf(DcCircuits(dc, cols, local, keepIntra)[r])
  {
    var cs := DcCircuits(dc, cols, local, keepIntra);
    forall g ensures HvdcKey(HvdcEdgeOf(cols.pmax, states)(g)) == g.key {
      var e := HvdcEdgeFor(cols.pmax, states, g);
    }
    GroupImageCovers(cs, PairOf, HvdcEdgeOf(cols.pmax, states), HvdcKey, r);
    AggregateHvdcEdges(dc, cols, local, keepIntra, states);
  }

  // ---------- examples ----------

  /** One link from bus 1 to bus 2 rated 100 MW. */
  function OneLink(status: Value): Table {
    Table(["f_bus", "t_bus", "pmax", "status"],
          [map["f_bus" := Num(1.0), "t_bus" := Num(2.0), "pmax" := Num(100.0), "status" := status]])
  }

  lemma OneLinkColumns(status: Value)
    ensures ResolveDc(OneLink(status).columns) == Some(DcColumns("f_bus", "t_bus", "pmax"))
    ensures "status" in OneLink(status).columns
  {
  }

  /** A table whose only link is out of service gives None, not an empty frame. */
  lemma OutOfServiceGivesNone()
    ensures AggregateHvdc(Some(OneLink(Num(0.0))), BusLocal([], []), false, None).None?
  {
    OneLinkColumns(Num(0.0));
    var dc := OneLink(Num(0.0));
    assert !CellIs("status", Num(1.0))(dc.rows[0]);
    assert LinksInService(dc) == [];
  }

  /** In-service links whose buses are in no county give an empty frame, not None. */
  lemma UnlocatedLinksGiveEmpty(dc: Table, keepIntra: bool, states: Option<seq<StateRecord>>)
    requires ResolveDc(dc.columns).Some? && |LinksInService(dc)| > 0
    ensures AggregateHvdc(Some(dc), BusLocal([], []), keepIntra, states) == Some([])
  {
    var cols := ResolveDc(dc.columns).value;
    NoBusesNoCircuits(LinksInService(dc), cols.fbus, cols.tbus, keepIntra);
    assert SortedKeys([], PairOf) == [];
  }

  /** The one-link table, in service, against an empty bus table. */
  lemma UnlocatedLinkGivesEmpty()
    ensures AggregateHvdc(Some(OneLink(Num(1.0))), BusLocal([], []), false, None) == Some([])
  {
    OneLinkColumns(Num(1.0));
    var dc := OneLink(Num(1.0));
    assert CellIs("status", Num(1.0))(dc.rows[0]);
    assert dc.rows[0] in LinksInService(dc);
    UnlocatedLinksGiveEmpty(dc, false, None);
  }
}
