/**
 * The table logic of the transmission map: selecting the edges and counties of a
 * region, turning edges into county-to-county lines, and the capacity classes
 * that give each line its width, opacity and legend entry.
 */
module Visualize {
  import opened Wrappers
  import opened StrOps
  import opened Tables

  // ---------- FIPS cells ----------

  /** A FIPS cell of the edges CSV: read back as an integer (leading zero lost) or kept as text. */
  datatype FipsCell = IntCode(n: int) | TextCode(s: string)

  /** `str(cell)`. */
  function CellText(f: FipsCell): string {
    match f
    case IntCode(n) => IntToText(n)
    case TextCode(s) => s
  }

  /** `str(cell).zfill(5)`. */
  function Pad5(f: FipsCell): (r: string)
    ensures |r| >= 5
  {
    ZFill(CellText(f), 5)
  }

  /** A five-digit county code read back as an integer pads back to itself ("08031" read as 8031). */
  lemma Pad5RestoresCode(g: string)
    requires |g| == 5 && AllDigits(g)
    ensures Pad5(IntCode(DigitsValue(g))) == g
  {
    PaddedCodeRoundTrip(g, 5);
  }

  /** `str(cell).zfill(5)[:2]`: the state part of a padded county code. */
  function StatePart(f: FipsCell): string {
    Pad5(f)[..2]
  }

  // ---------- edges ----------

  /** One row of the edges CSV with the columns the map uses (a missing cell is None). */
  datatype EdgeRow = EdgeRow(fromFips: FipsCell, toFips: FipsCell,
                             fromCounty: Option<string>, toCounty: Option<string>,
                             capacityMw: Option<real>, edgeType: Option<string>,
                             fromState: Option<string>, toState: Option<string>,
                             fromZoneName: Option<string>, toZoneName: Option<string>,
                             fromInterconnect: Option<string>, toInterconnect: Option<string>,
                             nCircuits: Option<real>, nLinks: Option<real>)

  /** The edges CSV: its rows, and whether the n_circuits and n_links columns exist at all. */
  datatype EdgesFrame = EdgesFrame(hasNCircuits: bool, hasNLinks: bool, rows: seq<EdgeRow>)

  // ---------- region filter ----------

  datatype RegionType = Zone | State | Interconnect

  datatype VizError = UnknownRegionType(regionType: string)

  /** The region type named by a string, compared after lower-casing. */
  function ParseRegionType(t: string): (r: Option<RegionType>)
    ensures r == Some(Zone) <==> Lower(t) == "zone"
    ensures r == Some(State) <==> Lower(t) == "state"
    ensures r == Some(Interconnect) <==> Lower(t) == "interconnect"
  {
    var l := Lower(t);
    if l == "zone" then Some(Zone)
    else if l == "state" then Some(State)
    else if l == "interconnect" then Some(Interconnect)
    else None
  }

  function FromAttr(e: EdgeRow, k: RegionType): Option<string> {
    match k
    case Zone => e.fromZoneName
    case State => e.fromState
    case Interconnect => e.fromInterconnect
  }

  function ToAttr(e: EdgeRow, k: RegionType): Option<string> {
    match k
    case Zone => e.toZoneName
    case State => e.toState
    case Interconnect => e.toInterconnect
  }

  /** An edge touches the region when either end's attribute equals its name (a missing value never does). */
  predicate Touches(e: EdgeRow, k: RegionType, name: string) {
    FromAttr(e, k) == Some(name) || ToAttr(e, k) == Some(name)
  }

  function RegionMask(k: RegionType, name: string): EdgeRow -> bool {
    (e: EdgeRow) => Touches(e, k, name)
  }

  /**
   * `filter_region_edges`: the edges touching the region, in input order; the
   * ValueError for a region type other than zone, state or interconnect.
   */
  function FilterRegionEdges(edges: seq<EdgeRow>, name: string, regionType: string): (r: Result<seq<EdgeRow>, VizError>)
    ensures r.Failure? <==> ParseRegionType(regionType).None?
    ensures r.Failure? ==> r.error == UnknownRegionType(regionType)
    ensures r.Success? ==> forall i :: 0 <= i < |r.value| ==>
              r.value[i] in edges && Touches(r.value[i], ParseRegionType(regionType).value, name)
    ensures r.Success? ==> forall i :: 0 <= i < |edges| && Touches(edges[i], ParseRegionType(regionType).value, name) ==>
              edges[i] in r.value
  {
    match ParseRegionType(regionType)
    case None => Failure(UnknownRegionType(regionType))
    case Some(k) => Success(Filter(edges, RegionMask(k, name)))
  }

  /** The kept edges are taken from strictly increasing input positions: the input order is kept. */
  lemma FilterRegionKeepsOrder(edges: seq<EdgeRow>, name: string, regionType: string)
    requires ParseRegionType(regionType).Some?
    ensures var kept := FilterRegionEdges(edges, name, regionType).value;
            var idx := FilterIndices(edges, RegionMask(ParseRegionType(regionType).value, name));
            |idx| == |kept| &&
            (forall i :: 0 <= i < |kept| ==> idx[i] < |edges| && kept[i] == edges[idx[i]]) &&
            (forall i, j :: 0 <= i < j < |kept| ==> idx[i] < idx[j])
  {
  }

  /** The region type is matched case-insensitively: "State" and "STATE" select what "state" does. */
  lemma RegionTypeIgnoresCase(edges: seq<EdgeRow>, name: string)
    ensures FilterRegionEdges(edges, name, "State") == FilterRegionEdges(edges, name, "state")
    ensures FilterRegionEdges(edges, name, "STATE") == FilterRegionEdges(edges, name, "state")
    ensures FilterRegionEdges(edges, name, "county").Failure?
  {
    assert Lower("State") == "state";
    assert Lower("STATE") == "state";
    assert Lower("county") == "county";
  }

  // ---------- region counties ----------

  /** A county polygon, reduced to its GEOID and its centroid (computed by the geometry library). */
  type Point = (real, real)
  datatype County = County(geoid: string, centroid: Point)

  /** The set of the values `f` takes on `s` (what `set.add` in a loop over `s` builds). */
  function Image<T>(s: seq<T>, f: T -> string): set<string> {
    if |s| == 0 then {} else Image(s[..|s| - 1], f) + {f(s[|s| - 1])}
  }

  lemma {:induction false} ImageMembers<T>(s: seq<T>, f: T -> string, g: string)
    ensures g in Image(s, f) <==> exists k :: 0 <= k < |s| && f(s[k]) == g
    decreases |s|
  {
    if |s| > 0 {
      var init := s[..|s| - 1];
      ImageMembers(init, f, g);
      if g in Image(init, f) {
        var k :| 0 <= k < |init| && f(init[k]) == g;
        assert s[k] == init[k];
      }
      if exists k :: 0 <= k < |s| && f(s[k]) == g {
        var k :| 0 <= k < |s| && f(s[k]) == g;
        if k < |init| {
          assert init[k] == s[k];
        }
      }
    }
  }

  function FromCell(e: EdgeRow): FipsCell { e.fromFips }
  function ToCell(e: EdgeRow): FipsCell { e.toFips }

  /** `From_fips` followed by `To_fips`, the list the padded-code loop walks. */
  function EndCells(edges: seq<EdgeRow>): seq<FipsCell> {
    MapSeq(edges, FromCell) + MapSeq(edges, ToCell)
  }

  /** Image(s[..i+1], f) adds f(s[i]) to Image(s[..i], f). */
  lemma ImageSnoc<T>(s: seq<T>, f: T -> string, i: nat)
    requires i < |s|
    ensures Image(s[..i + 1], f) == Image(s[..i], f) + {f(s[i])}
  {
    assert s[..i + 1][..i] == s[..i];
  }

  /** The set of f(x) and g(x) over the x of `s` satisfying p (two `set.add`s per matching row). */
  function PairImage<T>(s: seq<T>, p: T -> bool, f: T -> string, g: T -> string): set<string> {
    if |s| == 0 then {}
    else
      var x := s[|s| - 1];
      PairImage(s[..|s| - 1], p, f, g) + (if p(x) then {f(x), g(x)} else {})
  }

  lemma {:induction false} PairImageMembers<T>(s: seq<T>, p: T -> bool, f: T -> string, g: T -> string, v: string)
    ensures v in PairImage(s, p, f, g) <==> exists k :: 0 <= k < |s| && p(s[k]) && (f(s[k]) == v || g(s[k]) == v)
    decreases |s|
  {
    if |s| > 0 {
      var init := s[..|s| - 1];
      PairImageMembers(init, p, f, g, v);
      if v in PairImage(init, p, f, g) {
        var k :| 0 <= k < |init| && p(init[k]) && (f(init[k]) == v || g(init[k]) == v);
        assert s[k] == init[k];
      }
      if exists k :: 0 <= k < |s| && p(s[k]) && (f(s[k]) == v || g(s[k]) == v) {
        var k :| 0 <= k < |s| && p(s[k]) && (f(s[k]) == v || g(s[k]) == v);
        if k < |init| {
          assert init[k] == s[k];
        }
      }
    }
  }

  lemma PairImageSnoc<T>(s: seq<T>, p: T -> bool, f: T -> string, g: T -> string, i: nat)
    requires i < |s|
    ensures PairImage(s[..i + 1], p, f, g) == PairImage(s[..i], p, f, g) + (if p(s[i]) then {f(s[i]), g(s[i])} else {})
  {
    assert s[..i + 1][..i] == s[..i];
  }

  /** The edge's From_state or To_state is the region's name. */
  function MatchesState(name: string): EdgeRow -> bool {
    (e: EdgeRow) => e.fromState == Some(name) || e.toState == Some(name)
  }

  function FromStatePart(e: EdgeRow): string { StatePart(e.fromFips) }
  function ToStatePart(e: EdgeRow): string { StatePart(e.toFips) }

  /** The state parts of both ends of every edge whose From_state or To_state is the region's name. */
  function StatePrefixes(edges: seq<EdgeRow>, name: string): set<string> {
    PairImage(edges, MatchesState(name), FromStatePart, ToStatePart)
  }

  lemma StatePrefixesMembers(edges: seq<EdgeRow>, name: string, s: string)
    ensures s in StatePrefixes(edges, name) <==>
              exists k :: 0 <= k < |edges| && (edges[k].fromState == Some(name) || edges[k].toState == Some(name)) &&
                (s == StatePart(edges[k].fromFips) || s == StatePart(edges[k].toFips))
  {
    PairImageMembers(edges, MatchesState(name), FromStatePart, ToStatePart, s);
  }

  /** `GEOID.str[:2]`: at most the first two characters. */
  function GeoidPrefix(g: string): string {
    if |g| >= 2 then g[..2] else g
  }

  function GeoidIn(codes: set<string>): County -> bool {
    (c: County) => c.geoid in codes
  }

  function PrefixIn(prefixes: set<string>): County -> bool {
    (c: County) => GeoidPrefix(c.geoid) in prefixes
  }

  /** The counties `get_region_counties` selects. */
  function RegionCounties(counties: seq<County>, edges: seq<EdgeRow>, name: string, regionType: string): seq<County> {
    var byCode := Filter(counties, GeoidIn(Image(EndCells(edges), Pad5)));
    var prefixes := StatePrefixes(edges, name);
    if Lower(regionType) == "state" && prefixes != {} then Filter(byCode, PrefixIn(prefixes)) else byCode
  }

  /**
   * `get_region_counties`: collect the padded codes of both ends of every edge,
   * keep the counties with one of them, and for a state region also collect the
   * state parts of the matching edges and, when there are any, keep only counties
   * in those states.
   */
  method GetRegionCounties(counties: seq<County>, edges: seq<EdgeRow>, name: string, regionType: string)
    returns (region: seq<County>)
    ensures region == RegionCounties(counties, edges, name, regionType)
  {
    var fipsList := CollectCodes(EndCells(edges));
    region := KeepWhere(counties, GeoidIn(fipsList));
    if Lower(regionType) == "state" {
      var inRegion := CollectStateParts(edges, name);
      if inRegion != {} {
        region := KeepWhere(region, PrefixIn(inRegion));
      }
    }
  }

  /** The set of padded five-digit codes of the end cells, collected one cell at a time. */
  method CollectCodes(cells: seq<FipsCell>) returns (fipsList: set<string>)
    ensures fipsList == Image(cells, Pad5)
  {
    fipsList := {};
    var i := 0;
    while i < |cells|
      invariant 0 <= i <= |cells|
      invariant fipsList == Image(cells[..i], Pad5)
    {
      ImageSnoc(cells, Pad5, i);
      fipsList := fipsList + {Pad5(cells[i])};
      i := i + 1;
    }
    assert cells[..|cells|] == cells;
  }

  /** The state parts of both ends of every edge with an end in state `name`. */
  method CollectStateParts(edges: seq<EdgeRow>, name: string) returns (inRegion: set<string>)
    ensures inRegion == PairImage(edges, MatchesState(name), FromStatePart, ToStatePart)
  {
    inRegion := {};
    var j := 0;
    while j < |edges|
      invariant 0 <= j <= |edges|
      invariant inRegion == PairImage(edges[..j], MatchesState(name), FromStatePart, ToStatePart)
    {
      PairImageSnoc(edges, MatchesState(name), FromStatePart, ToStatePart, j);
      var e := edges[j];
      if e.fromState == Some(name) || e.toState == Some(name) {
        inRegion := inRegion + {FromStatePart(e), ToStatePart(e)};
      }
      j := j + 1;
    }
    assert edges[..|edges|] == edges;
  }

  /** A value is in the image of two concatenated derived columns exactly when it comes from some row. */
  lemma ConcatImageMembers<T, U>(s: seq<T>, a: T -> U, b: T -> U, f: U -> string, v: string)
    ensures v in Image(MapSeq(s, a) + MapSeq(s, b), f) <==>
              exists k :: 0 <= k < |s| && (f(a(s[k])) == v || f(b(s[k])) == v)
  {
    var cells := MapSeq(s, a) + MapSeq(s, b);
    var n := |s|;
    ImageMembers(cells, f, v);
    if exists k :: 0 <= k < |cells| && f(cells[k]) == v {
      var k :| 0 <= k < |cells| && f(cells[k]) == v;
      if k < n {
        assert cells[k] == a(s[k]);
      } else {
        assert cells[k] == b(s[k - n]);
      }
    }
    if exists k :: 0 <= k < n && (f(a(s[k])) == v || f(b(s[k])) == v) {
      var k :| 0 <= k < n && (f(a(s[k])) == v || f(b(s[k])) == v);
      if f(a(s[k])) == v {
        assert cells[k] == a(s[k]);
      } else {
        assert cells[n + k] == b(s[k]);
      }
    }
  }

  /** A code is among the collected ones exactly when it is the padded code of an end of some edge. */
  lemma EndCodesMembers(edges: seq<EdgeRow>, g: string)
    ensures g in Image(EndCells(edges), Pad5) <==>
              exists k :: 0 <= k < |edges| && (Pad5(edges[k].fromFips) == g || Pad5(edges[k].toFips) == g)
  {
    ConcatImageMembers(edges, FromCell, ToCell, Pad5, g);
  }

  /**
   * A county is selected exactly when its GEOID is the padded code of an end of some
   * edge and, for a state region with matching edges, its first two characters are
   * the state part of an end of a matching edge.
   */
  lemma RegionCountiesExact(counties: seq<County>, edges: seq<EdgeRow>, name: string, regionType: string, c: County)
    requires c in counties
    ensures var strict := Lower(regionType) == "state" && StatePrefixes(edges, name) != {};
            c in RegionCounties(counties, edges, name, regionType) <==>
              (exists k :: 0 <= k < |edges| && (Pad5(edges[k].fromFips) == c.geoid || Pad5(edges[k].toFips) == c.geoid)) &&
              (strict ==> exists k :: 0 <= k < |edges| && (edges[k].fromState == Some(name) || edges[k].toState == Some(name)) &&
                            (GeoidPrefix(c.geoid) == StatePart(edges[k].fromFips) || GeoidPrefix(c.geoid) == StatePart(edges[k].toFips)))
  {
    EndCodesMembers(edges, c.geoid);
    StatePrefixesMembers(edges, name, GeoidPrefix(c.geoid));
    var codes := Image(EndCells(edges), Pad5);
    var byCode := Filter(counties, GeoidIn(codes));
    if c.geoid in codes {
      var i :| 0 <= i < |counties| && counties[i] == c;
      assert c in byCode;
      if Lower(regionType) == "state" && StatePrefixes(edges, name) != {} && GeoidPrefix(c.geoid) in StatePrefixes(edges, name) {
        var j :| 0 <= j < |byCode| && byCode[j] == c;
      }
    }
  }

  // ---------- transmission lines ----------

  /** `dict(zip(GEOID, centroid))`: a GEOID that repeats keeps its last centroid. */
  function Centroids(counties: seq<County>): map<string, Point> {
    if |counties| == 0 then map[]
    else Centroids(counties[..|counties| - 1])[counties[|counties| - 1].geoid := counties[|counties| - 1].centroid]
  }

  /** A GEOID has a centroid exactly when some county has it, and it is that of the last such county. */
  lemma {:induction false} CentroidsLastWins(counties: seq<County>, g: string)
    ensures g in Centroids(counties) <==> exists k :: 0 <= k < |counties| && counties[k].geoid == g
    ensures g in Centroids(counties) ==>
              exists k :: 0 <= k < |counties| && counties[k].geoid == g && Centroids(counties)[g] == counties[k].centroid &&
                (forall j :: k < j < |counties| ==> counties[j].geoid != g)
    decreases |counties|
  {
    if |counties| > 0 {
      var init := counties[..|counties| - 1];
      var last := counties[|counties| - 1];
      CentroidsLastWins(init, g);
      if last.geoid != g {
        if g in Centroids(init) {
          var k :| 0 <= k < |init| && init[k].geoid == g && Centroids(init)[g] == init[k].centroid &&
                   (forall j :: k < j < |init| ==> init[j].geoid != g);
          assert counties[k] == init[k];
        }
        if exists k :: 0 <= k < |counties| && counties[k].geoid == g {
          var k :| 0 <= k < |counties| && counties[k].geoid == g;
          assert init[k] == counties[k];
        }
      }
    }
  }

  /** One line of the map: the two centroids and the edge's columns, FIPS padded. */
  datatype Line = Line(fromPoint: Point, toPoint: Point, fromFips: string, toFips: string,
                       fromCounty: Option<string>, toCounty: Option<string>, capacityMw: Option<real>,
                       edgeType: Option<string>, nCircuits: Option<real>, nLinks: Option<real>)

  /** Both padded ends have a centroid. */
  function BothPlaced(cm: map<string, Point>): EdgeRow -> bool {
    (e: EdgeRow) => Pad5(e.fromFips) in cm && Pad5(e.toFips) in cm
  }

  /** The line of a placed edge; `edge.get` gives 1 for a missing n_circuits column and NaN for a missing n_links. */
  function LineOf(frame: EdgesFrame, cm: map<string, Point>, e: EdgeRow): (l: Line)
    requires BothPlaced(cm)(e)
    ensures l.fromFips == Pad5(e.fromFips) && l.toFips == Pad5(e.toFips)
    ensures l.fromPoint == cm[Pad5(e.fromFips)] && l.toPoint == cm[Pad5(e.toFips)]
    ensures !frame.hasNCircuits ==> l.nCircuits == Some(1.0)
    ensures frame.hasNCircuits ==> l.nCircuits == e.nCircuits
    ensures !frame.hasNLinks ==> l.nLinks.None?
  {
    Line(cm[Pad5(e.fromFips)], cm[Pad5(e.toFips)], Pad5(e.fromFips), Pad5(e.toFips),
         e.fromCounty, e.toCounty, e.capacityMw, e.edgeType,
         if frame.hasNCircuits then e.nCircuits else Some(1.0),
         if frame.hasNLinks then e.nLinks else None)
  }

  function MkLine(frame: EdgesFrame, cm: map<string, Point>): EdgeRow -> Line {
    (e: EdgeRow) => if BothPlaced(cm)(e) then LineOf(frame, cm, e) else
      Line((0.0, 0.0), (0.0, 0.0), "", "", None, None, None, None, None, None)
  }

  /** `p` is the centroid of the last county with GEOID `g`. */
  predicate LastCentroid(counties: seq<County>, g: string, p: Point) {
    exists k :: 0 <= k < |counties| && counties[k].geoid == g && counties[k].centroid == p &&
      (forall j :: k < j < |counties| ==> counties[j].geoid != g)
  }

  /** The lines `create_transmission_lines_gdf` draws: one per placed edge, in edge order. */
  function TransmissionLines(counties: seq<County>, frame: EdgesFrame): seq<Line> {
    var cm := Centroids(counties);
    MapSeq(Filter(frame.rows, BothPlaced(cm)), MkLine(frame, cm))
  }

  /**
   * There are never more lines than edges, and every line joins the centroids of the
   * last counties with its two padded codes.
   */
  lemma LinesJoinCentroids(counties: seq<County>, frame: EdgesFrame)
    ensures var lines := TransmissionLines(counties, frame);
            |lines| <= |frame.rows| &&
            forall i :: 0 <= i < |lines| ==>
              LastCentroid(counties, lines[i].fromFips, lines[i].fromPoint) &&
              LastCentroid(counties, lines[i].toFips, lines[i].toPoint)
  {
    var cm := Centroids(counties);
    var kept := Filter(frame.rows, BothPlaced(cm));
    var lines := TransmissionLines(counties, frame);
    CentroidsAreLast(counties);
    forall i | 0 <= i < |lines|
      ensures LastCentroid(counties, lines[i].fromFips, lines[i].fromPoint) &&
              LastCentroid(counties, lines[i].toFips, lines[i].toPoint)
    {
      assert BothPlaced(cm)(kept[i]);
      assert lines[i] == LineOf(frame, cm, kept[i]);
    }
  }

  lemma CentroidsAreLast(counties: seq<County>)
    ensures forall g :: g in Centroids(counties) ==> LastCentroid(counties, g, Centroids(counties)[g])
  {
    forall g | g in Centroids(counties) ensures LastCentroid(counties, g, Centroids(counties)[g]) {
      CentroidsLastWins(counties, g);
    }
  }

  /**
   * `create_transmission_lines_gdf`: nothing for an empty county or edge table;
   * otherwise walk the edges and append a line for each whose two padded codes
   * have a centroid.
   */
  method CreateTransmissionLines(counties: seq<County>, frame: EdgesFrame) returns (lines: seq<Line>)
    ensures lines == TransmissionLines(counties, frame)
  {
    if |counties| == 0 || |frame.rows| == 0 {
      NoLinesWithoutInput(counties, frame);
      return [];
    }
    var cm := Centroids(counties);
    lines := PlaceLines(frame, cm);
  }

  /** The loop over the edges: a line for every edge whose two padded codes are in `cm`. */
  method PlaceLines(frame: EdgesFrame, cm: map<string, Point>) returns (lines: seq<Line>)
    ensures lines == MapSeq(Filter(frame.rows, BothPlaced(cm)), MkLine(frame, cm))
  {
    var rows := frame.rows;
    lines := [];
    var i := 0;
    while i < |rows|
      invariant 0 <= i <= |rows|
      invariant lines == MapSeq(Filter(rows[..i], BothPlaced(cm)), MkLine(frame, cm))
    {
      LinesStep(rows, i, frame, cm);
      var e := rows[i];
      var fromFips := Pad5(e.fromFips);
      var toFips := Pad5(e.toFips);
      if fromFips in cm && toFips in cm {
        lines := lines + [LineOf(frame, cm, e)];
      }
      i := i + 1;
    }
    assert rows[..|rows|] == rows;
  }

  /** One step of the line loop: a placed edge appends its line, any other edge nothing. */
  lemma LinesStep(rows: seq<EdgeRow>, i: nat, frame: EdgesFrame, cm: map<string, Point>)
    requires i < |rows|
    ensures MapSeq(Filter(rows[..i + 1], BothPlaced(cm)), MkLine(frame, cm)) ==
            MapSeq(Filter(rows[..i], BothPlaced(cm)), MkLine(frame, cm)) +
              (if BothPlaced(cm)(rows[i]) then [LineOf(frame, cm, rows[i])] else [])
  {
    var e := rows[i];
    assert rows[..i + 1] == rows[..i] + [e];
    FilterAppend(rows[..i], [e], BothPlaced(cm));
    assert Filter([e], BothPlaced(cm)) == (if BothPlaced(cm)(e) then [e] else []) by {
      assert [e][..0] == [];
    }
    if BothPlaced(cm)(e) {
      MapSeqSnoc(Filter(rows[..i], BothPlaced(cm)), e, MkLine(frame, cm));
    }
  }

  /** Without counties or without edges there is no line. */
  lemma NoLinesWithoutInput(counties: seq<County>, frame: EdgesFrame)
    requires |counties| == 0 || |frame.rows| == 0
    ensures TransmissionLines(counties, frame) == []
  {
    if |counties| == 0 {
      assert Centroids(counties) == map[];
      FilterNone(frame.rows, BothPlaced(map[]));
    }
  }

  /**
   * A line is drawn for an edge exactly when both padded codes have a centroid; the
   * lines come in edge order and there are never more lines than edges.
   */
  lemma LinesExactlyPlaced(counties: seq<County>, frame: EdgesFrame)
    ensures var cm := Centroids(counties);
            var lines := TransmissionLines(counties, frame);
            var idx := FilterIndices(frame.rows, BothPlaced(cm));
            |lines| <= |frame.rows| && |idx| == |lines| &&
            (forall i :: 0 <= i < |lines| ==>
               idx[i] < |frame.rows| && BothPlaced(cm)(frame.rows[idx[i]]) &&
               lines[i] == LineOf(frame, cm, frame.rows[idx[i]])) &&
            (forall i, j :: 0 <= i < j < |lines| ==> idx[i] < idx[j]) &&
            (forall k :: 0 <= k < |frame.rows| && BothPlaced(cm)(frame.rows[k]) ==> exists i :: 0 <= i < |idx| && idx[i] == k)
  {
    var cm := Centroids(counties);
    var rows := frame.rows;
    var kept := Filter(rows, BothPlaced(cm));
    var idx := FilterIndices(rows, BothPlaced(cm));
    forall k | 0 <= k < |rows| && BothPlaced(cm)(rows[k]) ensures exists i :: 0 <= i < |idx| && idx[i] == k {
      FilterIndicesCover(rows, BothPlaced(cm), k);
    }
  }

  /** Every selected position appears among the selection's positions. */
  lemma {:induction false} FilterIndicesCover<T>(s: seq<T>, p: T -> bool, k: nat)
    requires k < |s| && p(s[k])
    ensures exists i :: 0 <= i < |FilterIndices(s, p)| && FilterIndices(s, p)[i] == k
    decreases |s|
  {
    var init := s[..|s| - 1];
    if k < |s| - 1 {
      assert init[k] == s[k];
      FilterIndicesCover(init, p, k);
      var i :| 0 <= i < |FilterIndices(init, p)| && FilterIndices(init, p)[i] == k;
      assert FilterIndices(s, p)[i] == k;
    } else {
      assert FilterIndices(s, p) == FilterIndices(init, p) + [|s| - 1];
      assert FilterIndices(s, p)[|FilterIndices(init, p)|] == k;
    }
  }

  // ---------- capacity classes ----------

  /** The class breakpoints in MW. */
  const Breaks: seq<real> := [200.0, 500.0, 1000.0, 2000.0, 5000.0]

  /** A capacity's band: how many breakpoints it has reached (a missing capacity reaches none of the tests, so all). */
  function BandOf(capacity: Option<real>): (k: nat)
    ensures k < 6
  {
    match capacity
    case None => 5
    case Some(c) => |Filter(Breaks, (b: real) => b <= c)|
  }

  /**
   * `get_capacity_class_info`: (width, alpha, label) by the first band the capacity
   * falls below; NaN fails every comparison and lands in the top class.
   */
  function CapacityClassInfo(capacity: Option<real>): (r: (real, real, string))
    ensures (r.2, r.0, r.1) in CapacityClasses()
    ensures capacity.None? ==> r == (8.0, 1.0, "5K+ MW")
  {
    if capacity.Some? && capacity.value < 200.0 then (0.8, 0.4, "<200 MW")
    else if capacity.Some? && capacity.value < 500.0 then (1.5, 0.5, "200-500 MW")
    else if capacity.Some? && capacity.value < 1000.0 then (2.5, 0.6, "500-1K MW")
    else if capacity.Some? && capacity.value < 2000.0 then (4.0, 0.7, "1K-2K MW")
    else if capacity.Some? && capacity.value < 5000.0 then (6.0, 0.8, "2K-5K MW")
    else (8.0, 1.0, "5K+ MW")
  }

  /** `get_capacity_classes`: the legend, (label, width, alpha) per band. */
  function CapacityClasses(): (l: seq<(string, real, real)>)
    ensures |l| == 6
  {
    [("<200 MW", 0.8, 0.4), ("200-500 MW", 1.5, 0.5), ("500-1K MW", 2.5, 0.6),
     ("1K-2K MW", 4.0, 0.7), ("2K-5K MW", 6.0, 0.8), ("5K+ MW", 8.0, 1.0)]
  }

  lemma BandValues(c: real)
    ensures c < 200.0 ==> BandOf(Some(c)) == 0
    ensures 200.0 <= c < 500.0 ==> BandOf(Some(c)) == 1
    ensures 500.0 <= c < 1000.0 ==> BandOf(Some(c)) == 2
    ensures 1000.0 <= c < 2000.0 ==> BandOf(Some(c)) == 3
    ensures 2000.0 <= c < 5000.0 ==> BandOf(Some(c)) == 4
    ensures 5000.0 <= c ==> BandOf(Some(c)) == 5
  {
    var p := (b: real) => b <= c;
    assert Breaks[..4] + [5000.0] == Breaks;
    assert Breaks[..3] + [2000.0] == Breaks[..4];
    assert Breaks[..2] + [1000.0] == Breaks[..3];
    assert Breaks[..1] + [500.0] == Breaks[..2];
    assert [] + [200.0] == Breaks[..1];
    assert Filter(Breaks, p) == Filter(Breaks[..4], p) + (if 5000.0 <= c then [5000.0] else []);
    assert Filter(Breaks[..4], p) == Filter(Breaks[..3], p) + (if 2000.0 <= c then [2000.0] else []);
    assert Filter(Breaks[..3], p) == Filter(Breaks[..2], p) + (if 1000.0 <= c then [1000.0] else []);
    assert Filter(Breaks[..2], p) == Filter(Breaks[..1], p) + (if 500.0 <= c then [500.0] else []);
    assert Filter(Breaks[..1], p) == (if 200.0 <= c then [200.0] else []);
  }

  /** The class a capacity gets is the legend entry of its band: every drawn class is in the legend. */
  lemma ClassInfoInLegend(capacity: Option<real>)
    ensures var info := CapacityClassInfo(capacity);
            CapacityClasses()[BandOf(capacity)] == (info.2, info.0, info.1)
  {
    if capacity.Some? {
      BandValues(capacity.value);
    }
  }

  /** More capacity never gives a thinner or fainter line. */
  lemma ClassInfoMonotone(lo: real, hi: real)
    requires lo <= hi
    ensures CapacityClassInfo(Some(lo)).0 <= CapacityClassInfo(Some(hi)).0
    ensures CapacityClassInfo(Some(lo)).1 <= CapacityClassInfo(Some(hi)).1
  {
  }

  /** The legend has six distinct labels, widths and alphas strictly increasing band by band. */
  lemma LegendAscending()
    ensures forall i, j :: 0 <= i < j < 6 ==> CapacityClasses()[i].0 != CapacityClasses()[j].0
    ensures forall i, j :: 0 <= i < j < 6 ==> CapacityClasses()[i].1 < CapacityClasses()[j].1
    ensures forall i, j :: 0 <= i < j < 6 ==> CapacityClasses()[i].2 < CapacityClasses()[j].2
  {
  }

  /** Every legend entry is the class of some capacity (the bottom of its band). */
  lemma LegendEntriesReached(k: nat)
    requires k < 6
    ensures var c := [0.0, 200.0, 500.0, 1000.0, 2000.0, 5000.0][k];
            var info := CapacityClassInfo(Some(c));
            CapacityClasses()[k] == (info.2, info.0, info.1)
  {
  }
}
