/**
 * The county, state and zone attributes a bus carries into the branch and DC-line
 * joins, and the From_/To_ attribute columns an aggregated county edge gets from
 * the mode of its members' attributes.
 */
module EdgeMeta {
  import opened Wrappers
  import opened StrOps
  import opened Tables
  import opened Grouping
  import opened Rules

  /**
   * The attributes attached to one endpoint of a line: county FIPS, county name and
   * state FIPS (string columns), zone id, zone name and interconnect (cells).
   */
  datatype Meta = Meta(fips: Option<string>, cname: Option<string>, sfp: Option<string>,
                       zone: Value, zname: Value, interconn: Value)

  /** The attributes a left join gives a line end whose bus is not in the bus table. */
  const NoMeta: Meta := Meta(None, None, None, Null, Null, Null)

  function CnameOf(m: Meta): Option<string> { m.cname }
  function SfpOf(m: Meta): Option<string> { m.sfp }
  function ZoneOf(m: Meta): Value { m.zone }
  function ZnameOf(m: Meta): Value { m.zname }
  function InterconnOf(m: Meta): Value { m.interconn }

  /** The From_* and To_* attribute columns of one aggregated edge. */
  datatype Ends = Ends(fromCounty: Option<string>, toCounty: Option<string>,
                       fromStatefp: Option<string>, toStatefp: Option<string>,
                       fromState: string, toState: string,
                       fromZone: Value, toZone: Value,
                       fromZoneName: Value, toZoneName: Value,
                       fromInterconnect: Value, toInterconnect: Value)

  /** The state abbreviation column of an edge, a missing state FIPS giving "". */
  function StateColumn(sfp: Option<string>, states: Option<seq<StateRecord>>): (r: string)
    ensures sfp.None? ==> r == ""
    ensures sfp.Some? ==> |r| >= 2 || (states.Some? && exists k :: 0 <= k < |states.value| && r == states.value[k].abbr)
    ensures sfp.Some? && states.None? ==> r == ZFill(sfp.value, 2)
    ensures sfp.Some? && states.Some? ==>
              var sf := ZFill(sfp.value, 2);
              (exists k :: 0 <= k < |states.value| && states.value[k].fips == Some(sf) && r == states.value[k].abbr &&
                 (forall j :: 0 <= j < k ==> states.value[j].fips != Some(sf))) ||
              ((forall j :: 0 <= j < |states.value| ==> states.value[j].fips != Some(sf)) && r == sf)
  {
    StateAbbrevFromFips(sfp, states)
  }

  /**
   * The state abbreviation column as written: the mode is cast to the pandas "string"
   * dtype first, so a missing state FIPS reaches `state_abbrev_from_fips` as pd.NA,
   * whose text is "<NA>", and not as None.
   */
  function StateColumnAsWritten(sfp: Option<string>, states: Option<seq<StateRecord>>): (r: string)
    ensures sfp.Some? ==> r == StateColumn(sfp, states)
    ensures sfp.None? && states.None? ==> r == "<NA>"
  {
    assert ZFill("<NA>", 2) == "<NA>";
    StateAbbrevFromFips(Some(if sfp.None? then "<NA>" else sfp.value), states)
  }

  /** With no state table loaded, a missing state FIPS comes out as the text "<NA>". */
  lemma StateColumnAsWrittenShowsNA()
    ensures StateColumnAsWritten(None, None) == "<NA>"
    ensures StateColumn(None, None) == ""
  {
    assert ZFill("<NA>", 2) == "<NA>";
  }

  /**
   * When no member end has a state FIPS, the state columns are "<NA>" as written
   * (unless a state record carries that very text) and "" corrected.
   */
  lemma SummariseNoStatefp(from: seq<Meta>, to: seq<Meta>, states: Option<seq<StateRecord>>)
    requires forall m :: 0 <= m < |from| ==> from[m].sfp.None?
    requires forall m :: 0 <= m < |to| ==> to[m].sfp.None?
    requires states.Some? ==> forall k :: 0 <= k < |states.value| ==> states.value[k].fips != Some("<NA>")
    ensures SummariseAsWritten(from, to, states).fromState == "<NA>"
    ensures SummariseAsWritten(from, to, states).toState == "<NA>"
    ensures Summarise(from, to, states).fromState == "" && Summarise(from, to, states).toState == ""
  {
    assert ZFill("<NA>", 2) == "<NA>";
    assert forall m :: 0 <= m < |from| ==> MapSeq(from, SfpOf)[m].None?;
    assert forall m :: 0 <= m < |to| ==> MapSeq(to, SfpOf)[m].None?;
  }

  /** The corrected column is empty exactly when the state FIPS is missing (abbreviations are never empty). */
  lemma StateColumnEmptyIff(sfp: Option<string>, states: Option<seq<StateRecord>>)
    requires states.Some? ==> forall k :: 0 <= k < |states.value| ==> states.value[k].abbr != ""
    ensures StateColumn(sfp, states) == "" <==> sfp.None?
  {
  }

  /**
   * The edge attribute columns: the mode of the non-missing values of each attribute
   * over the members' From side and To side; state abbreviations from the modal state FIPS.
   */
  function Summarise(from: seq<Meta>, to: seq<Meta>, states: Option<seq<StateRecord>>): Ends
  {
    var fsfp := ModeText(MapSeq(from, SfpOf));
    var tsfp := ModeText(MapSeq(to, SfpOf));
    Ends(ModeText(MapSeq(from, CnameOf)), ModeText(MapSeq(to, CnameOf)),
         fsfp, tsfp, StateColumn(fsfp, states), StateColumn(tsfp, states),
         ModeNonNull(MapSeq(from, ZoneOf)), ModeNonNull(MapSeq(to, ZoneOf)),
         ModeNonNull(MapSeq(from, ZnameOf)), ModeNonNull(MapSeq(to, ZnameOf)),
         ModeNonNull(MapSeq(from, InterconnOf)), ModeNonNull(MapSeq(to, InterconnOf)))
  }

  /**
   * A side's county name is missing exactly when every end on that side lacks one, and
   * is otherwise the name of one of its ends; its zone is missing exactly when every
   * end's zone is.
   */
  lemma SummariseMissing(from: seq<Meta>, to: seq<Meta>, states: Option<seq<StateRecord>>)
    ensures var r := Summarise(from, to, states);
            (r.fromCounty.None? <==> forall m :: 0 <= m < |from| ==> from[m].cname.None?) &&
            (r.toCounty.None? <==> forall m :: 0 <= m < |to| ==> to[m].cname.None?) &&
            (r.fromCounty.Some? ==> exists m :: 0 <= m < |from| && from[m].cname == r.fromCounty) &&
            (r.toCounty.Some? ==> exists m :: 0 <= m < |to| && to[m].cname == r.toCounty) &&
            (r.fromZone == Null <==> forall m :: 0 <= m < |from| ==> from[m].zone == Null) &&
            (r.toZone == Null <==> forall m :: 0 <= m < |to| ==> to[m].zone == Null)
  {
    var r := Summarise(from, to, states);
    var fc := MapSeq(from, CnameOf);
    var tc := MapSeq(to, CnameOf);
    if r.fromCounty.Some? {
      var m :| 0 <= m < |fc| && fc[m] == r.fromCounty;
    }
    if r.toCounty.Some? {
      var m :| 0 <= m < |tc| && tc[m] == r.toCounty;
    }
    var fz := MapSeq(from, ZoneOf);
    var tz := MapSeq(to, ZoneOf);
    assert forall m :: 0 <= m < |from| ==> fz[m] == from[m].zone;
    assert forall m :: 0 <= m < |to| ==> tz[m] == to[m].zone;
  }

  /**
   * The attribute columns as written: the same modes, the state columns through pd.NA,
   * which changes a state column only where no end has a state FIPS.
   */
  function SummariseAsWritten(from: seq<Meta>, to: seq<Meta>, states: Option<seq<StateRecord>>): (r: Ends)
    ensures var e := Summarise(from, to, states);
            r == e.(fromState := r.fromState, toState := r.toState) &&
            (e.fromStatefp.Some? ==> r.fromState == e.fromState) &&
            (e.toStatefp.Some? ==> r.toState == e.toState)
  {
    var e := Summarise(from, to, states);
    e.(fromState := StateColumnAsWritten(e.fromStatefp, states),
       toState := StateColumnAsWritten(e.toStatefp, states))
  }

  /**
   * The attributes of a line's two ends in the orientation of its canonical county
   * pair: the end in the pair's first county comes first.
   */
  function Orient(o: Meta, d: Meta, fipsO: string, pair: (string, string)): (r: (Meta, Meta))
    ensures r == (o, d) || r == (d, o)
  {
    if pair.0 == fipsO then (o, d) else (d, o)
  }

  /** After orientation, the first end lies in the pair's first county and the second in its second. */
  lemma OrientFollowsPair(o: Meta, d: Meta, fipsO: string, fipsD: string)
    requires o.fips == Some(fipsO) && d.fips == Some(fipsD)
    ensures var p := Canon(fipsO, fipsD);
            var r := Orient(o, d, fipsO, p);
            r.0.fips == Some(p.0) && r.1.fips == Some(p.1)
  {
  }
}
