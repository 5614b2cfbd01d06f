/**
 * `aggregate_ac`: in-service, non-transformer branches between two counties,
 * with their chosen rating converted to MW, summed per unordered county pair.
 */
module AcAggregation {
  import opened Wrappers
  import opened StrOps
  import opened Tables
  import opened Grouping
  import opened Rules
  import opened EdgeMeta
  import opened BusLookup
  import opened Joins

  const StatusAliases: seq<string> := ["br_status", "status"]
  const FromBusAliases: seq<string> := ["fbus", "from_bus_id", "from_bus"]
  const ToBusAliases: seq<string> := ["tbus", "to_bus_id", "to_bus"]
  const KvAliases: seq<string> := ["base_kv", "basekv", "kv"]

  /** The labels the missing-column error names. */
  const NeedFrom: string := "fbus/from_bus_id"
  const NeedTo: string := "tbus/to_bus_id"
  const NeedX: string := "x"

  /** The caller's options: rating preference, power-factor mode, transformer and intra-county flags. */
  datatype AcOptions = AcOptions(ratePref: string, pfMode: string, excludeTransformers: bool, keepIntracounty: bool)

  /** The defaults of `aggregate_ac`. */
  const DefaultOptions: AcOptions := AcOptions("a", "none", true, false)

  datatype AcError =
    | MissingColumns(need: seq<string>)  // the KeyError naming the unresolved required columns
    | NanminAxisError                    // the TypeError/AxisError of `np.nanmin(kv_f, kv_t)` (as written only)

  // ---------- row filters ----------

  /** The in-service filter on the first of br_status/status present: keep rows whose value is 1. */
  function InService(br: Table): (t: Table)
    ensures t.columns == br.columns
    ensures FirstPresent(StatusAliases, br.columns).None? ==> t == br
    ensures var c := FirstPresent(StatusAliases, br.columns);
            c.Some? ==>
              (forall i :: 0 <= i < |t.rows| ==> t.rows[i] in br.rows && Get(t.rows[i], c.value) == Num(1.0)) &&
              (forall i :: 0 <= i < |br.rows| && Get(br.rows[i], c.value) == Num(1.0) ==> br.rows[i] in t.rows)
  {
    match FirstPresent(StatusAliases, br.columns)
    case None => br
    case Some(c) => Table(br.columns, Filter(br.rows, CellIs(c, Num(1.0))))
  }

  /** A missing or zero tap ratio: the branch is a line, not a transformer. */
  predicate RatioUnset(r: Row) {
    Get(r, "ratio") == Null || Get(r, "ratio") == Num(0.0)
  }

  /** With transformer exclusion and a ratio column, keep only the rows whose ratio is unset. */
  function DropTransformers(br: Table, exclude: bool): (t: Table)
    ensures t.columns == br.columns
    ensures !(exclude && "ratio" in br.columns) ==> t == br
    ensures exclude && "ratio" in br.columns ==>
              (forall i :: 0 <= i < |t.rows| ==> t.rows[i] in br.rows && RatioUnset(t.rows[i])) &&
              (forall i :: 0 <= i < |br.rows| && RatioUnset(br.rows[i]) ==> br.rows[i] in t.rows)
  {
    if exclude && "ratio" in br.columns then Table(br.columns, Filter(br.rows, RatioUnset)) else br
  }

  function NeedRank(name: string): nat {
    if name == NeedFrom then 0 else if name == NeedTo then 1 else 2
  }

  /** The required columns that cannot be resolved, named in the order they are checked. */
  function Need(cols: seq<string>): (need: seq<string>)
    ensures NeedFrom in need <==> FirstPresent(FromBusAliases, cols).None?
    ensures NeedTo in need <==> FirstPresent(ToBusAliases, cols).None?
    ensures NeedX in need <==> NeedX !in cols
    ensures forall i :: 0 <= i < |need| ==> need[i] in {NeedFrom, NeedTo, NeedX}
    ensures forall i, j :: 0 <= i < j < |need| ==> NeedRank(need[i]) < NeedRank(need[j])
  {
    (if FirstPresent(FromBusAliases, cols).None? then [NeedFrom] else []) +
    (if FirstPresent(ToBusAliases, cols).None? then [NeedTo] else []) +
    (if NeedX !in cols then [NeedX] else [])
  }

  // ---------- rating and conversion to MW ----------

  /** A rating column as normalised: its own label, else its upper-case label, else missing. */
  function RateCell(row: Row, cols: seq<string>, col: string, upper: string): Value {
    if col in cols then Get(row, col) else if upper in cols then Get(row, upper) else Null
  }

  function NormalizeRates(row: Row, cols: seq<string>): Row {
    row[RateA := RateCell(row, cols, RateA, "RATEA")]
       [RateB := RateCell(row, cols, RateB, "RATEB")]
       [RateC := RateCell(row, cols, RateC, "RATEC")]
  }

  /** The MVA-to-MW rule a power-factor mode string selects. */
  datatype PfRule = ConstPf(pf: real) | ByKv(col: string) | NoPf

  /**
   * "const:<p>" gives the constant factor p (1.0 when p does not parse); "bykv" the
   * nominal-voltage rule on the first of base_kv/basekv/kv the bus table has (none
   * without such a column); any other mode no conversion.
   */
  function PfRuleOf(pfMode: string, busColumns: seq<string>): (r: PfRule)
    ensures r.ConstPf? <==> StartsWith(pfMode, "const:")
    ensures r.ByKv? <==> !StartsWith(pfMode, "const:") && pfMode == "bykv" && FirstPresent(KvAliases, busColumns).Some?
    ensures r.ByKv? ==> r.col in KvAliases && r.col in busColumns
  {
    if StartsWith(pfMode, "const:") then ConstPf(ParseDecimal(pfMode[6..]).GetOr(1.0))
    else if pfMode == "bykv" then
      match FirstPresent(KvAliases, busColumns)
      case Some(c) => ByKv(c)
      case None => NoPf
    else NoPf
  }

  /** "const:0.9" gives 0.9; a factor that does not parse gives 1.0. */
  lemma PfRuleConstExamples()
    ensures PfRuleOf("const:0.9", []) == ConstPf(0.9)
    ensures PfRuleOf("const:abc", []) == ConstPf(1.0)
  {
    assert StartsWith("const:0.9", "const:");
    assert "const:0.9"[6..] == "0.9";
    assert StartsWith("const:abc", "const:");
    assert "const:abc"[6..] == "abc";
    ParseDecimalExamples();
  }

  /** "bykv" takes the first voltage column in alias order, none without one; other modes convert nothing. */
  lemma PfRuleByKvExamples()
    ensures PfRuleOf("bykv", ["bus_id", "basekv", "kv"]) == ByKv("basekv")
    ensures PfRuleOf("bykv", ["bus_id"]) == NoPf
    ensures PfRuleOf("none", ["kv"]) == NoPf
  {
    assert !StartsWith("bykv", "const:") && !StartsWith("none", "const:");
  }

  /** `np.nanmin` of the two endpoint voltages: the smaller known one, missing when both are. */
  function NanMin(a: Option<real>, b: Option<real>): (m: Option<real>)
    ensures m.None? <==> a.None? && b.None?
    ensures m.Some? ==> (m == a || m == b)
    ensures m.Some? && a.Some? ==> m.value <= a.value
    ensures m.Some? && b.Some? ==> m.value <= b.value
  {
    match (a, b)
    case (None, _) => b
    case (_, None) => a
    case (Some(x), Some(y)) => if x <= y then a else b
  }

  function Scale(rate: Option<real>, pf: real): Option<real> {
    if rate.Some? then Some(rate.value * pf) else None
  }

  /** `B = 1/x` where x is nonzero; missing for x = 0 and for a missing x (NaN != 0, but 1/NaN is NaN). */
  function Susceptance(x: Value): (b: Option<real>)
    ensures b.Some? <==> x.Num? && x.n != 0.0
    ensures b.Some? ==> b.value * x.n == 1.0
  {
    if x.Num? && x.n != 0.0 then Some(1.0 / x.n) else None
  }

  /** One circuit's columns: rate_mva, cap_mw, pf_used, kv_min and B. */
  datatype Contribution = Contribution(c: Circuit, rateMva: Option<real>, capMw: Option<real>,
                                       pfUsed: real, kvMin: Option<real>, b: Option<real>)

  /** The columns `aggregate_ac` computes for one circuit under a rating preference and a conversion rule. */
  function ContributionOf(cols: seq<string>, local: BusLocal, ratePref: string, rule: PfRule, c: Circuit): (x: Contribution)
    ensures x.c == c
    ensures x.rateMva == Rating(NormalizeRates(c.row, cols), ratePref)
    ensures x.b == Susceptance(Get(c.row, "x"))
  {
    var rate := Rating(NormalizeRates(c.row, cols), ratePref);
    var kvMin := if rule.ByKv? then NanMin(BusNumber(local, rule.col, c.fbus), BusNumber(local, rule.col, c.tbus)) else None;
    var pf := match rule case ConstPf(p) => p case ByKv(_) => MkPfFromKv(kvMin) case NoPf => 1.0;
    Contribution(c, rate, if rule.NoPf? then rate else Scale(rate, pf), pf, kvMin, Susceptance(Get(c.row, "x")))
  }

  function Contribute(cols: seq<string>, local: BusLocal, ratePref: string, rule: PfRule): Circuit -> Contribution {
    (c: Circuit) => ContributionOf(cols, local, ratePref, rule, c)
  }

  /** The branch table after the in-service and transformer filters. */
  function Filtered(branch: Table, opts: AcOptions): Table {
    DropTransformers(InService(branch), opts.excludeTransformers)
  }

  /** The joined, located (and, by default, cross-county) circuits of the filtered branch table. */
  function Joined(branch: Table, local: BusLocal, opts: AcOptions): (cs: seq<Circuit>)
    requires Need(Filtered(branch, opts).columns) == []
    ensures forall i :: 0 <= i < |cs| ==> Located(cs[i]) && (opts.keepIntracounty || CrossCounty(cs[i]))
    ensures forall i :: 0 <= i < |cs| ==> cs[i].row in Filtered(branch, opts).rows
  {
    var br := Filtered(branch, opts);
    var fcol := FirstPresent(FromBusAliases, br.columns).value;
    var tcol := FirstPresent(ToBusAliases, br.columns).value;
    var cs := JoinAndLocate(br.rows, local, fcol, tcol, opts.keepIntracounty);
    assert forall i :: 0 <= i < |cs| ==> cs[i].row in br.rows by {
      forall i | 0 <= i < |cs| ensures cs[i].row in br.rows {
        JoinedFromRows(br.rows, local, fcol, tcol, opts.keepIntracounty, i);
      }
    }
    cs
  }

  /** The contributing circuits, or the missing-column error. */
  function Circuits(branch: Table, local: BusLocal, opts: AcOptions): (r: Result<seq<Contribution>, AcError>)
    ensures r.Failure? <==> Need(Filtered(branch, opts).columns) != []
    ensures r.Failure? ==> r.error == MissingColumns(Need(Filtered(branch, opts).columns))
    ensures r.Success? ==> |r.value| == |Joined(branch, local, opts)|
    ensures r.Success? ==> forall i :: 0 <= i < |r.value| ==>
              r.value[i] == ContributionOf(Filtered(branch, opts).columns, local, opts.ratePref,
                                           PfRuleOf(opts.pfMode, local.columns), Joined(branch, local, opts)[i])
  {
    var br := Filtered(branch, opts);
    var need := Need(br.columns);
    if need != [] then Failure(MissingColumns(need))
    else Success(MapSeq(Joined(branch, local, opts), Contribute(br.columns, local, opts.ratePref, PfRuleOf(opts.pfMode, local.columns))))
  }

  // ---------- aggregation ----------

  /** `1.0 / sum_B_pu`, undefined (None) for a zero sum. */
  function Reciprocal(s: real): (x: Option<real>)
    ensures x.Some? <==> s != 0.0
    ensures x.Some? ==> x.value * s == 1.0
  {
    if s == 0.0 then None else Some(1.0 / s)
  }

  /** One AC edge: its canonical county pair, the sums and size, the reduced reactance and the attributes. */
  datatype AcEdge = AcEdge(fromFips: string, toFips: string, capacityMw: real, nCircuits: nat,
                           sumRateMva: real, sumBPu: real, xEqPu: Option<real>, edgeType: string, ends: Ends)

  function Key(x: Contribution): Pair { PairOf(x.c) }
  function CapOrZero(x: Contribution): real { x.capMw.GetOr(0.0) }
  function RateOrZero(x: Contribution): real { x.rateMva.GetOr(0.0) }
  function BOrZero(x: Contribution): real { x.b.GetOr(0.0) }
  function LoMeta(x: Contribution): Meta { LoEnd(x.c) }
  function HiMeta(x: Contribution): Meta { HiEnd(x.c) }
  function OriginMeta(x: Contribution): Meta { x.c.o }
  function DestMeta(x: Contribution): Meta { x.c.d }

  /**
   * The edge of one group, its From_ attributes those of the ends in its first county.
   * x_eq is the reactance of the group's circuits in parallel: missing when their
   * susceptances sum to zero, otherwise the number whose product with that sum is 1.
   */
  function EdgeFor(states: Option<seq<StateRecord>>, g: Group<Contribution>): (e: AcEdge)
    ensures (e.fromFips, e.toFips) == g.key && e.nCircuits == |g.members| && e.edgeType == "AC"
    ensures e.xEqPu.None? <==> e.sumBPu == 0.0
  {
    var sumB := SumBy(g.members, BOrZero);
    var x := Reciprocal(sumB);
    AcEdge(g.key.0, g.key.1, SumBy(g.members, CapOrZero), |g.members|, SumBy(g.members, RateOrZero),
           sumB, x, "AC",
           Summarise(MapSeq(g.members, LoMeta), MapSeq(g.members, HiMeta), states))
  }

  function AcKey(e: AcEdge): Pair { (e.fromFips, e.toFips) }

  /** The edge of each group: keyed by the group's pair, counting its circuits. */
  function EdgeOf(states: Option<seq<StateRecord>>): (f: Group<Contribution> -> AcEdge)
    ensures forall g :: AcKey(f(g)) == g.key && f(g).nCircuits == |g.members|
  {
    (g: Group<Contribution>) => EdgeFor(states, g)
  }

  /**
   * The edge of one group as written: From_ attributes from the from-bus side, states
   * through pd.NA. Only the attribute columns differ from the corrected edge.
   */
  function EdgeOfAsWritten(states: Option<seq<StateRecord>>): (f: Group<Contribution> -> AcEdge)
    ensures forall g :: f(g) == EdgeFor(states, g).(ends := f(g).ends)
  {
    (g: Group<Contribution>) =>
      var sumB := SumBy(g.members, BOrZero);
      AcEdge(g.key.0, g.key.1, SumBy(g.members, CapOrZero), |g.members|, SumBy(g.members, RateOrZero),
             sumB, Reciprocal(sumB), "AC",
             SummariseAsWritten(MapSeq(g.members, OriginMeta), MapSeq(g.members, DestMeta), states))
  }

  /** The edges of the circuits `xs`: one per county pair, in pair order. */
  function AcEdges(xs: seq<Contribution>, states: Option<seq<StateRecord>>): seq<AcEdge> {
    MapSeq(GroupBy(xs, Key), EdgeOf(states))
  }

  /** `aggregate_ac` (with the three corrections listed under Findings). */
  function AggregateAc(branch: Table, local: BusLocal, opts: AcOptions,
                       states: Option<seq<StateRecord>>): (r: Result<seq<AcEdge>, AcError>)
    ensures r.Failure? <==> Need(Filtered(branch, opts).columns) != []
    ensures r.Failure? ==> r.error == MissingColumns(Need(Filtered(branch, opts).columns))
  {
    match Circuits(branch, local, opts)
    case Failure(e) => Failure(e)
    case Success(xs) => Success(AcEdges(xs, states))
  }

  /**
   * `aggregate_ac` as written: bykv with a kV column raises as soon as one circuit
   * remains; otherwise the same edges as the corrected version but for the attributes.
   */
  function AggregateAcAsWritten(branch: Table, local: BusLocal, opts: AcOptions,
                                states: Option<seq<StateRecord>>): (r: Result<seq<AcEdge>, AcError>)
    ensures r.Failure? <==> AggregateAc(branch, local, opts, states).Failure? ||
                            (PfRuleOf(opts.pfMode, local.columns).ByKv? && |Joined(branch, local, opts)| > 0)
    ensures r.Failure? && AggregateAc(branch, local, opts, states).Success? ==> r.error == NanminAxisError
    ensures r.Success? ==>
              var es := AggregateAc(branch, local, opts, states).value;
              |r.value| == |es| && forall i :: 0 <= i < |es| ==> r.value[i] == es[i].(ends := r.value[i].ends)
  {
    match Circuits(branch, local, opts)
    case Failure(e) => Failure(e)
    case Success(xs) =>
      if PfRuleOf(opts.pfMode, local.columns).ByKv? && |xs| > 0 then Failure(NanminAxisError)
      else Success(MapSeq(GroupBy(xs, Key), EdgeOfAsWritten(states)))
  }

  /**
   * `aggregate_ac` step by step, the way the source reassigns its working table:
   * status filter, transformer filter, column check, the two joins, the dropna,
   * the intra-county filter, the per-circuit columns and the group-by.
   */
  method RunAggregateAc(branch: Table, local: BusLocal, opts: AcOptions, states: Option<seq<StateRecord>>)
    returns (r: Result<seq<AcEdge>, AcError>)
    ensures r == AggregateAc(branch, local, opts, states)
  {
    var rows := KeepInService(branch, opts);
    var need := Need(branch.columns);
    if need != [] {
      return Failure(MissingColumns(need));
    }
    var fcol := FirstPresent(FromBusAliases, branch.columns).value;
    var tcol := FirstPresent(ToBusAliases, branch.columns).value;
    var cs := LocateCircuits(rows, local, fcol, tcol, opts.keepIntracounty);
    assert cs == Joined(branch, local, opts);
    var xs := MapSeq(cs, Contribute(branch.columns, local, opts.ratePref, PfRuleOf(opts.pfMode, local.columns)));
    r := Success(MapSeq(GroupBy(xs, Key), EdgeOf(states)));
  }

  /** The status filter, then the transformer filter, as the source reassigns its branch table. */
  method KeepInService(branch: Table, opts: AcOptions) returns (rows: seq<Row>)
    ensures rows == Filtered(branch, opts).rows
  {
    rows := branch.rows;
    var status := FirstPresent(StatusAliases, branch.columns);
    if status.Some? {
      rows := KeepWhere(rows, CellIs(status.value, Num(1.0)));
    }
    if opts.excludeTransformers && "ratio" in branch.columns {
      rows := KeepWhere(rows, RatioUnset);
    }
  }

  // ---------- properties ----------

  /** Every contributing circuit has both ends in a county, in two counties unless intra-county lines are kept. */
  lemma CircuitsLocated(branch: Table, local: BusLocal, opts: AcOptions)
    requires Circuits(branch, local, opts).Success?
    ensures var xs := Circuits(branch, local, opts).value;
            forall x :: x in xs ==> Located(x.c) && (opts.keepIntracounty || CrossCounty(x.c))
  {
    var xs := Circuits(branch, local, opts).value;
    var cs := Joined(branch, local, opts);
    forall x | x in xs ensures Located(x.c) && (opts.keepIntracounty || CrossCounty(x.c)) {
      var j :| 0 <= j < |xs| && xs[j] == x;
      assert x.c == cs[j];
    }
  }

  /**
   * Every contributing circuit comes from a branch row, which has status 1 when a
   * status column exists and an unset ratio under transformer exclusion.
   */
  lemma CircuitsInService(branch: Table, local: BusLocal, opts: AcOptions, x: Contribution)
    requires Circuits(branch, local, opts).Success? && x in Circuits(branch, local, opts).value
    ensures x.c.row in branch.rows
    ensures FirstPresent(StatusAliases, branch.columns).Some? ==>
              Get(x.c.row, FirstPresent(StatusAliases, branch.columns).value) == Num(1.0)
    ensures opts.excludeTransformers && "ratio" in branch.columns ==> RatioUnset(x.c.row)
  {
    var xs := Circuits(branch, local, opts).value;
    var cs := Joined(branch, local, opts);
    var j :| 0 <= j < |xs| && xs[j] == x;
    assert x.c == cs[j];
    var br := Filtered(branch, opts);
    assert x.c.row in br.rows;
    var ins := InService(branch);
    var k :| 0 <= k < |br.rows| && br.rows[k] == x.c.row;
    assert x.c.row in ins.rows;
    var k' :| 0 <= k' < |ins.rows| && ins.rows[k'] == x.c.row;
  }

  /** A transformer (a nonzero tap ratio) contributes nothing under transformer exclusion. */
  lemma TransformersExcluded(branch: Table, local: BusLocal, opts: AcOptions, x: Contribution)
    requires Circuits(branch, local, opts).Success? && x in Circuits(branch, local, opts).value
    requires opts.excludeTransformers && "ratio" in branch.columns
    ensures !(Get(x.c.row, "ratio").Num? && Get(x.c.row, "ratio").n != 0.0)
  {
    CircuitsInService(branch, local, opts, x);
  }

  /** Without transformer exclusion, the ratio filter changes nothing. */
  lemma TransformersKept(branch: Table)
    ensures DropTransformers(InService(branch), false) == InService(branch)
  {
  }

  /** Under "const:p" every circuit records p and contributes its rating times p. */
  lemma ConstModeScales(branch: Table, local: BusLocal, opts: AcOptions, p: real, x: Contribution)
    requires PfRuleOf(opts.pfMode, local.columns) == ConstPf(p)
    requires Circuits(branch, local, opts).Success? && x in Circuits(branch, local, opts).value
    ensures x.pfUsed == p && x.capMw == Scale(x.rateMva, p)
  {
    var xs := Circuits(branch, local, opts).value;
    var j :| 0 <= j < |xs| && xs[j] == x;
  }

  /**
   * Under "bykv" with a kV column, every circuit's factor is one of 0.95/0.97/0.99,
   * chosen by the lower known voltage of its two buses.
   */
  lemma ByKvModeBands(branch: Table, local: BusLocal, opts: AcOptions, col: string, x: Contribution)
    requires PfRuleOf(opts.pfMode, local.columns) == ByKv(col)
    requires Circuits(branch, local, opts).Success? && x in Circuits(branch, local, opts).value
    ensures x.pfUsed in {0.95, 0.97, 0.99} && x.capMw == Scale(x.rateMva, x.pfUsed)
    ensures x.kvMin == NanMin(BusNumber(local, col, x.c.fbus), BusNumber(local, col, x.c.tbus))
    ensures x.pfUsed == MkPfFromKv(x.kvMin)
  {
    var xs := Circuits(branch, local, opts).value;
    var j :| 0 <= j < |xs| && xs[j] == x;
  }

  /** Without a conversion rule the MVA rating is taken as the MW capacity. */
  lemma NoPfModeKeepsRating(branch: Table, local: BusLocal, opts: AcOptions, x: Contribution)
    requires PfRuleOf(opts.pfMode, local.columns) == NoPf
    requires Circuits(branch, local, opts).Success? && x in Circuits(branch, local, opts).value
    ensures x.pfUsed == 1.0 && x.capMw == x.rateMva
  {
    var xs := Circuits(branch, local, opts).value;
    var j :| 0 <= j < |xs| && xs[j] == x;
  }

  /**
   * The edges of located circuits come in strictly increasing (From_fips, To_fips)
   * order, so no pair repeats; From_fips <= To_fips, strictly for cross-county circuits.
   */
  lemma EdgesOrdered(xs: seq<Contribution>, states: Option<seq<StateRecord>>, keepIntra: bool)
    requires forall x :: x in xs ==> Located(x.c) && (keepIntra || CrossCounty(x.c))
    ensures var es := AcEdges(xs, states);
            (forall i, j :: 0 <= i < j < |es| ==> PairLt((es[i].fromFips, es[i].toFips), (es[j].fromFips, es[j].toFips))) &&
            (forall i :: 0 <= i < |es| ==> LexLe(es[i].fromFips, es[i].toFips)) &&
            (forall i :: 0 <= i < |es| && !keepIntra ==> LexLt(es[i].fromFips, es[i].toFips))
  {
    var gs := GroupBy(xs, Key);
    var es := AcEdges(xs, states);
    assert forall i :: 0 <= i < |es| ==> (es[i].fromFips, es[i].toFips) == gs[i].key;
    forall i | 0 <= i < |xs| ensures !keepIntra ==> LexLt(Key(xs[i]).0, Key(xs[i]).1) {
      if !keepIntra {
        PairOfCross(xs[i].c);
      }
    }
    GroupByPairsOrdered(xs, Key, !keepIntra);
  }

  /** `aggregate_ac`'s edges are ordered by pair, with From_fips before To_fips (strictly by default). */
  lemma AcEdgesOrdered(branch: Table, local: BusLocal, opts: AcOptions, states: Option<seq<StateRecord>>)
    requires AggregateAc(branch, local, opts, states).Success?
    ensures var es := AggregateAc(branch, local, opts, states).value;
            (forall i, j :: 0 <= i < j < |es| ==> PairLt((es[i].fromFips, es[i].toFips), (es[j].fromFips, es[j].toFips))) &&
            (forall i :: 0 <= i < |es| ==> LexLe(es[i].fromFips, es[i].toFips)) &&
            (forall i :: 0 <= i < |es| && !opts.keepIntracounty ==> LexLt(es[i].fromFips, es[i].toFips))
  {
    AggregateAcEdges(branch, local, opts, states);
    CircuitsLocated(branch, local, opts);
    EdgesOrdered(Circuits(branch, local, opts).value, states, opts.keepIntracounty);
  }

  /** Each edge sums exactly the circuits of its county pair, and there is at least one. */
  lemma EdgeMembers(xs: seq<Contribution>, states: Option<seq<StateRecord>>, i: nat)
    requires i < |AcEdges(xs, states)|
    ensures var e := AcEdges(xs, states)[i];
            var ms := Filter(xs, KeyIs(Key, (e.fromFips, e.toFips)));
            e.nCircuits == |ms| >= 1 && e.capacityMw == SumBy(ms, CapOrZero) &&
            e.sumRateMva == SumBy(ms, RateOrZero) && e.sumBPu == SumBy(ms, BOrZero) &&
            e.xEqPu == Reciprocal(e.sumBPu)
  {
    var gs := GroupBy(xs, Key);
    GroupByMembers(xs, Key, gs, i);
    var e := AcEdges(xs, states)[i];
    assert e == EdgeFor(states, gs[i]);
    assert gs[i] == MkGroup(xs, Key)(SortedKeys(xs, Key)[i]);
    assert gs[i].members == Filter(xs, KeyIs(Key, (e.fromFips, e.toFips)));
    assert e.xEqPu == Reciprocal(e.sumBPu);
  }

  /** `aggregate_ac`'s edge i sums exactly the circuits of its county pair, and there is at least one. */
  lemma AcEdgeMembers(branch: Table, local: BusLocal, opts: AcOptions, states: Option<seq<StateRecord>>, i: nat)
    requires AggregateAc(branch, local, opts, states).Success?
    requires i < |AggregateAc(branch, local, opts, states).value|
    ensures var xs := Circuits(branch, local, opts).value;
            var e := AggregateAc(branch, local, opts, states).value[i];
            var ms := Filter(xs, KeyIs(Key, (e.fromFips, e.toFips)));
            e.nCircuits == |ms| >= 1 && e.capacityMw == SumBy(ms, CapOrZero) &&
            e.sumRateMva == SumBy(ms, RateOrZero) && e.sumBPu == SumBy(ms, BOrZero) &&
            e.xEqPu == Reciprocal(e.sumBPu)
  {
    AggregateAcEdges(branch, local, opts, states);
    EdgeMembers(Circuits(branch, local, opts).value, states, i);
  }

  /** Every contributing circuit is counted in the edge of its county pair. */
  lemma AcCircuitCovered(branch: Table, local: BusLocal, opts: AcOptions, states: Option<seq<StateRecord>>, r: nat)
    requires Circuits(branch, local, opts).Success?
    requires r < |Circuits(branch, local, opts).value|
    ensures var xs := Circuits(branch, local, opts).value;
            var es := AggregateAc(branch, local, opts, states).value;
            exists i :: 0 <= i < |es| && (es[i].fromFips, es[i].toFips) == Key(xs[r])
  {
    forall g ensures AcKey(EdgeOf(states)(g)) == g.key {
      var e := EdgeFor(states, g);
    }
    GroupImageCovers(Circuits(branch, local, opts).value, Key, EdgeOf(states), AcKey, r);
    AggregateAcEdges(branch, local, opts, states);
  }

  function EdgeCapacity(e: AcEdge): real { e.capacityMw }
  function EdgeCircuits(e: AcEdge): real { e.nCircuits as real }

  /** The edges of any contributions add up to their capacities, and their counts to their number. */
  lemma EdgesConserve(xs: seq<Contribution>, states: Option<seq<StateRecord>>)
    ensures var es := AcEdges(xs, states);
            SumBy(es, EdgeCapacity) == SumBy(xs, CapOrZero) && SumBy(es, EdgeCircuits) == |xs| as real
  {
    var gs := GroupBy(xs, Key);
    SumByMap(gs, EdgeOf(states), EdgeCapacity, GroupSum(CapOrZero));
    GroupByTotal(xs, Key, CapOrZero);
    forall i | 0 <= i < |gs| ensures EdgeCircuits(EdgeOf(states)(gs[i])) == GroupSum(One)(gs[i]) {
      SumByOne(gs[i].members);
    }
    SumByMap(gs, EdgeOf(states), EdgeCircuits, GroupSum(One));
    GroupBySizes(xs, Key);
  }

  /** Capacity is conserved: the edges' capacities add up to the circuits' capacities, and so do the counts. */
  lemma AcCapacityConserved(branch: Table, local: BusLocal, opts: AcOptions, states: Option<seq<StateRecord>>)
    requires AggregateAc(branch, local, opts, states).Success?
    ensures var xs := Circuits(branch, local, opts).value;
            var es := AggregateAc(branch, local, opts, states).value;
            SumBy(es, EdgeCapacity) == SumBy(xs, CapOrZero) &&
            SumBy(es, EdgeCircuits) == |xs| as real
  {
    AggregateAcEdges(branch, local, opts, states);
    EdgesConserve(Circuits(branch, local, opts).value, states);
  }

  /**
   * The From_County of an edge is the name of a county it came from on the From_fips
   * side: some member circuit has an end in From_fips whose bus carries that name.
   */
  lemma FromCountyNamesFromFips(branch: Table, local: BusLocal, opts: AcOptions, states: Option<seq<StateRecord>>, i: nat)
    requires AggregateAc(branch, local, opts, states).Success?
    requires i < |AggregateAc(branch, local, opts, states).value|
    requires AggregateAc(branch, local, opts, states).value[i].ends.fromCounty.Some?
    ensures var xs := Circuits(branch, local, opts).value;
            var e := AggregateAc(branch, local, opts, states).value[i];
            exists x :: x in xs && LoMeta(x).fips == Some(e.fromFips) && LoMeta(x).cname == e.ends.fromCounty
  {
    AggregateAcEdges(branch, local, opts, states);
    CircuitsLocated(branch, local, opts);
    EdgeFromCounty(Circuits(branch, local, opts).value, states, i);
  }

  /** Over located contributions, a present From_County names a member end lying in From_fips. */
  lemma EdgeFromCounty(xs: seq<Contribution>, states: Option<seq<StateRecord>>, i: nat)
    requires forall x :: x in xs ==> Located(x.c)
    requires i < |AcEdges(xs, states)| && AcEdges(xs, states)[i].ends.fromCounty.Some?
    ensures var e := AcEdges(xs, states)[i];
            exists x :: x in xs && LoMeta(x).fips == Some(e.fromFips) && LoMeta(x).cname == e.ends.fromCounty
  {
    var gs := GroupBy(xs, Key);
    GroupByMembers(xs, Key, gs, i);
    var e := EdgeFor(states, gs[i]);
    assert AcEdges(xs, states)[i] == e;
    var cn := MapSeq(MapSeq(gs[i].members, LoMeta), CnameOf);
    assert e.ends.fromCounty == ModeText(cn);
    var k :| 0 <= k < |cn| && cn[k] == e.ends.fromCounty;
    var x := gs[i].members[k];
    assert x in xs && Key(x) == gs[i].key;
    assert gs[i].key == (e.fromFips, e.toFips);
    EndsFollowPair(x.c);
    assert LoMeta(x).fips == Some(e.fromFips);
    assert MapSeq(gs[i].members, LoMeta)[k] == LoMeta(x);
    assert LoMeta(x).cname == e.ends.fromCounty;
  }


  /**
   * For circuits whose buses carry no state FIPS, the state columns come out as
   * "<NA>" as written (unless the state table lists a code "<NA>"), and as "" corrected.
   */
  lemma MissingStateShowsNA(states: Option<seq<StateRecord>>, g: Group<Contribution>)
    requires forall m :: 0 <= m < |g.members| ==> g.members[m].c.o.sfp.None? && g.members[m].c.d.sfp.None?
    requires states.Some? ==> forall k :: 0 <= k < |states.value| ==> states.value[k].fips != Some("<NA>")
    ensures EdgeOfAsWritten(states)(g).ends.fromState == "<NA>" && EdgeOfAsWritten(states)(g).ends.toState == "<NA>"
    ensures EdgeOf(states)(g).ends.fromState == "" && EdgeOf(states)(g).ends.toState == ""
  {
    var ms := g.members;
    forall m | 0 <= m < |ms| ensures LoMeta(ms[m]).sfp.None? && HiMeta(ms[m]).sfp.None? {
      var c := ms[m].c;
      assert Orient(c.o, c.d, FipsO(c), PairOf(c)) == (c.o, c.d) || Orient(c.o, c.d, FipsO(c), PairOf(c)) == (c.d, c.o);
    }
    SummariseNoStatefp(MapSeq(ms, OriginMeta), MapSeq(ms, DestMeta), states);
    SummariseNoStatefp(MapSeq(ms, LoMeta), MapSeq(ms, HiMeta), states);
  }

  // ---------- the findings, on concrete inputs ----------

  /** A circuit from county 48003 to county 48001: its pair is swapped into (48001, 48003). */
  function SwappedCircuit(): Contribution {
    Contribution(Circuit(map[], Num(1.0), Num(2.0),
                         Meta(Some("48003"), Some("Andrews"), Some("48"), Null, Null, Null),
                         Meta(Some("48001"), Some("Anderson"), Some("48"), Null, Null, Null)),
                 Some(100.0), Some(100.0), 1.0, None, Some(10.0))
  }

  /**
   * As written, the edge (48001, 48003) of that circuit is labelled with From_County
   * "Andrews", the name of 48003; corrected, its From_County is "Anderson", 48001's.
   */
  lemma FromCountyAsWrittenMismatch()
    ensures var g := Group(("48001", "48003"), [SwappedCircuit()]);
            EdgeOfAsWritten(None)(g).fromFips == "48001" &&
            EdgeOfAsWritten(None)(g).ends.fromCounty == Some("Andrews") &&
            EdgeOf(None)(g).ends.fromCounty == Some("Anderson")
  {
    var x := SwappedCircuit();
    SwappedCircuitPair();
    SingleFromCounty(x, ("48001", "48003"), None);
  }

  lemma SwappedCircuitPair()
    ensures PairOf(SwappedCircuit().c) == ("48001", "48003")
    ensures LoMeta(SwappedCircuit()) == SwappedCircuit().c.d
  {
    assert LexLt("48001", "48003") by {
      assert "48001"[1..] == "8001" && "48003"[1..] == "8003";
      assert "8001"[1..] == "001" && "8003"[1..] == "003";
      assert "001"[1..] == "01" && "003"[1..] == "03";
      assert "01"[1..] == "1" && "03"[1..] == "3";
    }
  }

  /**
   * The From_County of a one-circuit edge: the origin bus's county name as written,
   * the name of the end in the pair's first county when corrected.
   */
  lemma SingleFromCounty(x: Contribution, k: Pair, states: Option<seq<StateRecord>>)
    ensures EdgeOfAsWritten(states)(Group(k, [x])).fromFips == k.0
    ensures EdgeOfAsWritten(states)(Group(k, [x])).ends.fromCounty == x.c.o.cname
    ensures EdgeOf(states)(Group(k, [x])).ends.fromCounty == LoMeta(x).cname
  {
    assert MapSeq([x], OriginMeta) == [x.c.o];
    assert MapSeq([x], LoMeta) == [LoMeta(x)];
    SummariseOneFrom(x.c.o, MapSeq([x], DestMeta), states);
    SummariseOneFrom(LoMeta(x), MapSeq([x], HiMeta), states);
  }

  lemma SummariseOneFrom(m: Meta, to: seq<Meta>, states: Option<seq<StateRecord>>)
    ensures Summarise([m], to, states).fromCounty == m.cname
    ensures SummariseAsWritten([m], to, states).fromCounty == m.cname
  {
    assert MapSeq([m], CnameOf) == [m.cname];
    ModeTextSingle(m.cname);
  }

  lemma ModeTextSingle(o: Option<string>)
    ensures ModeText([o]) == o
  {
  }

  /** The branch of the voltage-class example: bus 1 to bus 2, x = 0.1, rateA = 1000 MVA. */
  function KvBranch(): Table {
    Table(["fbus", "tbus", "x", "ratea"],
          [map["fbus" := Num(1.0), "tbus" := Num(2.0), "x" := Num(0.1), "ratea" := Num(1000.0)]])
  }

  /** Bus 1 at 500 kV in 08031, bus 2 at 230 kV in 08059. */
  function KvBuses(): BusLocal {
    BusLocal(["bus_id", "base_kv"],
             [EnrichedBus(Num(1.0), map["bus_id" := Num(1.0), "base_kv" := Num(500.0)], Null,
                          Meta(Some("08031"), None, Some("08"), Null, Null, Null)),
              EnrichedBus(Num(2.0), map["bus_id" := Num(2.0), "base_kv" := Num(230.0)], Null,
                          Meta(Some("08059"), None, Some("08"), Null, Null, Null))])
  }

  const KvOptions: AcOptions := DefaultOptions.(pfMode := "bykv")

  function KvCircuit(): Circuit {
    Circuit(KvBranch().rows[0], Num(1.0), Num(2.0), KvBuses().rows[0].meta, KvBuses().rows[1].meta)
  }

  lemma KvExampleFiltered()
    ensures Filtered(KvBranch(), KvOptions) == KvBranch()
  {
    var cols := KvBranch().columns;
    assert "br_status" !in cols && "status" !in cols && "ratio" !in cols by {
      assert |"br_status"| == 9 && |"status"| == 6 && |"ratio"| == 5;
      assert "status"[0] != "ratea"[0] && "ratio"[3] != "ratea"[3];
    }
    assert FirstPresent(StatusAliases, cols) == None;
  }

  lemma KvExampleColumns()
    ensures FirstPresent(FromBusAliases, KvBranch().columns) == Some("fbus")
    ensures FirstPresent(ToBusAliases, KvBranch().columns) == Some("tbus")
    ensures Need(KvBranch().columns) == []
  {
  }

  lemma KvExampleEnds()
    ensures JoinEnds(KvBuses(), "fbus", "tbus")(KvBranch().rows[0]) == KvCircuit()
  {
    var local := KvBuses();
    var row := KvBranch().rows[0];
    assert Get(row, "fbus") == Num(1.0) && Get(row, "tbus") == Num(2.0);
    assert FirstBusIndex(local.rows, Num(1.0)) == 0;
    assert FirstBusIndex(local.rows, Num(2.0)) == 1;
  }

  lemma KvExampleJoined()
    ensures Need(Filtered(KvBranch(), KvOptions).columns) == []
    ensures Joined(KvBranch(), KvBuses(), KvOptions) == [KvCircuit()]
  {
    KvExampleFiltered();
    KvExampleColumns();
    KvExampleEnds();
    var br := KvBranch();
    var c := KvCircuit();
    assert Located(c) && CrossCounty(c);
    var joined := MapSeq(br.rows, JoinEnds(KvBuses(), "fbus", "tbus"));
    assert joined == [c];
    assert Filter(joined, Located) == [c] by {
      assert joined[..0] == [];
    }
    assert Filter([c], CrossCounty) == [c] by {
      assert [c][..0] == [];
    }
  }

  lemma KvExampleContribution()
    ensures var x := ContributionOf(KvBranch().columns, KvBuses(), "a", ByKv("base_kv"), KvCircuit());
            x.pfUsed == 0.97 && x.capMw == Some(970.0)
  {
    var local := KvBuses();
    var c := KvCircuit();
    var nr := NormalizeRates(c.row, KvBranch().columns);
    assert Get(nr, RateA) == Num(1000.0);
    assert Lower("a") == "a";
    assert Usable(nr, RateA);
    assert Rating(nr, "a") == Some(1000.0);
    assert FirstBusIndex(local.rows, Num(1.0)) == 0;
    assert FirstBusIndex(local.rows, Num(2.0)) == 1;
    assert BusNumber(local, "base_kv", Num(1.0)) == Some(500.0);
    assert BusNumber(local, "base_kv", Num(2.0)) == Some(230.0);
    assert NanMin(Some(500.0), Some(230.0)) == Some(230.0);
    assert MkPfFromKv(Some(230.0)) == 0.97;
  }

  /** The one circuit of the voltage-class example contributes 1000 * 0.97 MW (the 230 kV end's class). */
  lemma ByKvExampleCircuit()
    ensures var r := Circuits(KvBranch(), KvBuses(), KvOptions);
            r.Success? && |r.value| == 1 && r.value[0].pfUsed == 0.97 && r.value[0].capMw == Some(970.0) &&
            r.value[0].c == KvCircuit() && r.value[0].b == Some(10.0)
  {
    KvExampleSusceptance();
    KvExampleJoined();
    KvExampleContribution();
    KvExampleFiltered();
    KvExampleRule();
    var r := Circuits(KvBranch(), KvBuses(), KvOptions);
    assert KvOptions.ratePref == "a";
    assert r.value[0] == ContributionOf(KvBranch().columns, KvBuses(), "a", ByKv("base_kv"), KvCircuit());
  }

  lemma KvExampleRule()
    ensures PfRuleOf(KvOptions.pfMode, KvBuses().columns) == ByKv("base_kv")
  {
    assert !StartsWith("bykv", "const:");
    assert FirstPresent(KvAliases, KvBuses().columns) == Some("base_kv");
  }

  lemma KvExampleKey()
    ensures PairOf(KvCircuit()) == ("08031", "08059")
  {
    assert FipsO(KvCircuit()) == "08031" && FipsD(KvCircuit()) == "08059";
    assert !LexLe("08059", "08031") by {
      assert "08059"[1..] == "8059" && "08031"[1..] == "8031";
      assert "8059"[1..] == "059" && "8031"[1..] == "031";
      assert "059"[1..] == "59" && "031"[1..] == "31";
    }
  }

  lemma KvExampleSusceptance()
    ensures ContributionOf(KvBranch().columns, KvBuses(), "a", ByKv("base_kv"), KvCircuit()).b == Some(10.0)
  {
    assert Get(KvCircuit().row, "x") == Num(0.1);
  }

  /** The edge of a one-circuit group carries that circuit's capacity, count and susceptance. */
  lemma SingleCircuitEdge(x: Contribution, states: Option<seq<StateRecord>>)
    ensures var e := EdgeFor(states, Group(Key(x), [x]));
            (e.fromFips, e.toFips) == Key(x) && e.capacityMw == CapOrZero(x) && e.nCircuits == 1 &&
            e.xEqPu == Reciprocal(BOrZero(x))
  {
    assert [x][..0] == [];
    assert SumBy([x], CapOrZero) == SumBy([], CapOrZero) + CapOrZero(x);
    assert SumBy([x], BOrZero) == SumBy([], BOrZero) + BOrZero(x);
  }

  /** A run with one contributing circuit has one edge, that circuit's. */
  lemma OneCircuitOneEdge(branch: Table, local: BusLocal, opts: AcOptions, states: Option<seq<StateRecord>>)
    requires Circuits(branch, local, opts).Success? && |Circuits(branch, local, opts).value| == 1
    ensures var x := Circuits(branch, local, opts).value[0];
            AggregateAc(branch, local, opts, states) == Success([EdgeFor(states, Group(Key(x), [x]))])
  {
    AggregateAcEdges(branch, local, opts, states);
    AcEdgesSingle(Circuits(branch, local, opts).value, states);
  }

  /** Once the columns check passes, the aggregate is the edge image of the contributions. */
  lemma AggregateAcEdges(branch: Table, local: BusLocal, opts: AcOptions, states: Option<seq<StateRecord>>)
    requires Circuits(branch, local, opts).Success?
    ensures AggregateAc(branch, local, opts, states) == Success(AcEdges(Circuits(branch, local, opts).value, states))
  {
  }

  /** One contribution gives one edge, the edge of its own one-member group. */
  lemma AcEdgesSingle(xs: seq<Contribution>, states: Option<seq<StateRecord>>)
    requires |xs| == 1
    ensures AcEdges(xs, states) == [EdgeFor(states, Group(Key(xs[0]), [xs[0]]))]
  {
    var x := xs[0];
    assert xs == [x];
    GroupBySingle(x, Key);
  }

  /** Corrected, the example gives one edge 08031-08059 of 970 MW over one circuit with x_eq = 0.1 pu. */
  lemma ByKvExampleEdge()
    ensures var r := AggregateAc(KvBranch(), KvBuses(), KvOptions, None);
            r.Success? && |r.value| == 1 && r.value[0].fromFips == "08031" && r.value[0].toFips == "08059" &&
            r.value[0].capacityMw == 970.0 && r.value[0].nCircuits == 1 && r.value[0].xEqPu == Some(0.1)
  {
    ByKvExampleCircuit();
    KvExampleKey();
    OneCircuitOneEdge(KvBranch(), KvBuses(), KvOptions, None);
    var x := Circuits(KvBranch(), KvBuses(), KvOptions).value[0];
    assert CapOrZero(x) == 970.0 && BOrZero(x) == 10.0 && Key(x) == ("08031", "08059");
    SingleCircuitEdge(x, None);
  }

  /** As written, the same input raises instead of producing the edge. */
  lemma ByKvExampleAsWrittenRaises()
    ensures AggregateAcAsWritten(KvBranch(), KvBuses(), KvOptions, None) == Failure(NanminAxisError)
  {
    ByKvExampleCircuit();
    KvExampleRule();
  }
}
