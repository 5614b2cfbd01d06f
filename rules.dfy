/**
 * The small per-row rules of the county aggregation: the required grid tables,
 * the power factor by nominal voltage, the rating ladder, the canonical county
 * pair and the state abbreviation.
 */
module Rules {
  import opened Wrappers
  import opened StrOps
  import opened Tables

  // ---------- required grid tables ----------

  /** The base names the grid directory must provide, in the order they are reported. */
  const RequiredTables: seq<string> := ["bus", "branch", "sub", "bus2sub"]

  /**
   * The required base names for which no file was found (`present` holds the base
   * names with a file of some accepted extension), in RequiredTables order.
   */
  function MissingRequiredTables(present: set<string>): (missing: seq<string>)
    ensures forall b :: b in missing <==> b in RequiredTables && b !in present
    ensures |missing| <= |RequiredTables|
  {
    Filter(RequiredTables, (b: string) => b !in present)
  }

  // ---------- power factor by nominal voltage ----------

  /** The voltage floors, with the 1e-6 slack the comparison uses. */
  const HighKvFloor: real := 500.0 - 0.000001
  const MidKvFloor: real := 230.0 - 0.000001

  /**
   * `mk_pf_from_kv` with the default rules (0.95, 0.97, 0.99). A missing voltage
   * (NaN) fails both comparisons and gets the lowest factor.
   */
  function MkPfFromKv(kv: Option<real>): (pf: real)
    ensures pf == 0.95 || pf == 0.97 || pf == 0.99
    ensures pf == 0.99 <==> kv.Some? && kv.value >= HighKvFloor
    ensures pf == 0.97 <==> kv.Some? && MidKvFloor <= kv.value < HighKvFloor
    ensures kv.None? ==> pf == 0.95
  {
    match kv
    case None => 0.95
    case Some(v) => if v >= HighKvFloor then 0.99 else if v >= MidKvFloor then 0.97 else 0.95
  }

  /** A higher nominal voltage never gets a lower power factor. */
  lemma MkPfMonotone(lo: real, hi: real)
    requires lo <= hi
    ensures MkPfFromKv(Some(lo)) <= MkPfFromKv(Some(hi))
  {
  }

  // ---------- rating ladder ----------

  const RateA: string := "ratea"
  const RateB: string := "rateb"
  const RateC: string := "ratec"

  /** The order in which the rating columns are tried for a preference letter (case-insensitive). */
  function Ladder(prefer: string): (l: seq<string>)
    ensures |l| == 3 && multiset(l) == multiset([RateA, RateB, RateC])
    ensures Lower(prefer) == "b" ==> l == [RateB, RateA, RateC]
    ensures Lower(prefer) == "c" ==> l == [RateC, RateB, RateA]
    ensures Lower(prefer) !in {"b", "c"} ==> l == [RateA, RateB, RateC]
  {
    var p := Lower(prefer);
    if p == "a" then [RateA, RateB, RateC]
    else if p == "b" then [RateB, RateA, RateC]
    else if p == "c" then [RateC, RateB, RateA]
    else [RateA, RateB, RateC]
  }

  /** `float(cell)` of a non-missing cell, None when the cell is missing or does not parse. */
  function CellFloat(v: Value): Option<real> {
    match v
    case Null => None
    case Num(n) => Some(n)
    case Text(s) => ParseDecimal(s)
  }

  /** The column holds a specified rating: a number greater than 0 (0 means "not specified"). */
  predicate Usable(row: Row, col: string) {
    var v := CellFloat(Get(row, col));
    v.Some? && v.value > 0.0
  }

  /** The first specified rating among `cols`, tried in order; None (NaN) when there is none. */
  function FirstUsable(row: Row, cols: seq<string>): (r: Option<real>)
    ensures r.Some? ==> r.value > 0.0
    ensures r.None? <==> forall j :: 0 <= j < |cols| ==> !Usable(row, cols[j])
    ensures r.Some? ==>
              exists k :: 0 <= k < |cols| && CellFloat(Get(row, cols[k])) == r &&
                (forall j :: 0 <= j < k ==> !Usable(row, cols[j]))
  {
    if |cols| == 0 then None
    else if Usable(row, cols[0]) then CellFloat(Get(row, cols[0]))
    else
      var r := FirstUsable(row, cols[1..]);
      assert forall j :: 1 <= j < |cols| ==> cols[j] == cols[1..][j - 1];
      assert r.Some? ==>
               exists k :: 1 <= k < |cols| && CellFloat(Get(row, cols[k])) == r &&
                 (forall j :: 0 <= j < k ==> !Usable(row, cols[j])) by {
        if r.Some? {
          var k' :| 0 <= k' < |cols| - 1 && CellFloat(Get(row, cols[1..][k'])) == r &&
                 (forall j :: 0 <= j < k' ==> !Usable(row, cols[1..][j]));
          assert forall j :: 0 <= j < k' + 1 ==> !Usable(row, cols[j]) by {
            forall j | 0 <= j < k' + 1 ensures !Usable(row, cols[j]) {
              if j > 0 {
                assert cols[j] == cols[1..][j - 1];
              }
            }
          }
          assert CellFloat(Get(row, cols[k' + 1])) == r;
        }
      }
      r
  }

  /** The rating `pick_rating` chooses for a row and a preference letter. */
  function Rating(row: Row, prefer: string): Option<real> {
    FirstUsable(row, Ladder(prefer))
  }

  /** Three columns are tried in order. */
  lemma FirstUsableOfThree(row: Row, a: string, b: string, c: string)
    ensures FirstUsable(row, [a, b, c]) ==
            if Usable(row, a) then CellFloat(Get(row, a))
            else if Usable(row, b) then CellFloat(Get(row, b))
            else if Usable(row, c) then CellFloat(Get(row, c))
            else None
  {
    assert [c][1..] == [];
    assert FirstUsable(row, [c]) == if Usable(row, c) then CellFloat(Get(row, c)) else None;
    assert [b, c][1..] == [c];
    assert FirstUsable(row, [b, c]) == if Usable(row, b) then CellFloat(Get(row, b)) else FirstUsable(row, [c]);
    assert [a, b, c][1..] == [b, c];
  }

  /**
   * Whatever the preference, the rating is positive and comes from one of the three
   * columns, and it is NaN (None) exactly when none of them holds a positive rating.
   */
  lemma RatingFromSomeColumn(row: Row, prefer: string)
    ensures var r := Rating(row, prefer);
            (r.Some? ==> r.value > 0.0) &&
            (r.None? <==> !Usable(row, RateA) && !Usable(row, RateB) && !Usable(row, RateC)) &&
            (r.Some? ==> r == CellFloat(Get(row, RateA)) || r == CellFloat(Get(row, RateB)) || r == CellFloat(Get(row, RateC)))
  {
    var p := Lower(prefer);
    if p == "b" {
      FirstUsableOfThree(row, RateB, RateA, RateC);
    } else if p == "c" {
      FirstUsableOfThree(row, RateC, RateB, RateA);
    } else {
      FirstUsableOfThree(row, RateA, RateB, RateC);
    }
  }

  /** `pick_rating`: walk the ladder and return the first positive rating, else NaN (None). */
  method PickRating(row: Row, prefer: string) returns (r: Option<real>)
    ensures r == Rating(row, prefer)
  {
    var ladder := Ladder(prefer);
    var i := 0;
    while i < |ladder|
      invariant 0 <= i <= |ladder|
      invariant FirstUsable(row, ladder[i..]) == Rating(row, prefer)
    {
      var v := CellFloat(Get(row, ladder[i]));
      if v.Some? && v.value > 0.0 {
        return v;
      }
      assert ladder[i..][1..] == ladder[i + 1..];
      i := i + 1;
    }
    return None;
  }

  /** A preferred column holding a positive rating wins over the other two. */
  lemma RatingTakesPreferred(row: Row, prefer: string)
    requires Lower(prefer) in {"a", "b", "c"}
    requires Usable(row, "rate" + Lower(prefer))
    ensures Rating(row, prefer) == CellFloat(Get(row, "rate" + Lower(prefer)))
  {
    var p := Lower(prefer);
    var l := Ladder(prefer);
    if p == "a" {
      assert "rate" + p == RateA && l[0] == RateA;
    } else if p == "b" {
      assert "rate" + p == RateB && l[0] == RateB;
    } else {
      assert "rate" + p == RateC && l[0] == RateC;
    }
    assert Usable(row, l[0]);
  }

  /** A zero rating means "not specified": rateA = 0 with rateB = 150 gives 150 under preference A. */
  lemma RatingSkipsZero()
    ensures Rating(map[RateA := Num(0.0), RateB := Num(150.0), RateC := Null], "A") == Some(150.0)
  {
    var row := map[RateA := Num(0.0), RateB := Num(150.0), RateC := Null];
    assert Lower("A") == "a";
    assert !Usable(row, RateA) && Usable(row, RateB);
  }

  // ---------- canonical county pair ----------

  /** One row of `unordered_pair`: the two county codes with the smaller one first. */
  function Canon(o: string, d: string): (p: (string, string))
    ensures LexLe(p.0, p.1)
    ensures p == (o, d) || p == (d, o)
    ensures p == (d, o) && o != d <==> LexLt(d, o)
  {
    LexTrichotomy(o, d);
    LexLeReflexive(o);
    if LexLt(d, o) then (d, o) else (o, d)
  }

  /** The pair does not depend on the direction of the line. */
  lemma CanonSymmetric(o: string, d: string)
    ensures Canon(o, d) == Canon(d, o)
  {
    LexTrichotomy(o, d);
  }

  /** Canonicalising a canonical pair changes nothing. */
  lemma CanonIdempotent(o: string, d: string)
    ensures Canon(Canon(o, d).0, Canon(o, d).1) == Canon(o, d)
  {
    var p := Canon(o, d);
    LexTrichotomy(p.0, p.1);
    if LexLt(p.1, p.0) {
      LexLeAntisymmetric(p.0, p.1);
    }
  }

  /**
   * `unordered_pair`: copy the two county columns into an n-by-2 object array,
   * then reverse every row whose first entry sorts after its second.
   */
  method UnorderedPair(fips: seq<(string, string)>) returns (arr: array2<string>)
    ensures fresh(arr)
    ensures arr.Length0 == |fips| && arr.Length1 == 2
    ensures forall i :: 0 <= i < |fips| ==> (arr[i, 0], arr[i, 1]) == Canon(fips[i].0, fips[i].1)
  {
    arr := new string[|fips|, 2];
    var i := 0;
    while i < |fips|
      invariant 0 <= i <= |fips|
      invariant forall k :: 0 <= k < i ==> arr[k, 0] == fips[k].0 && arr[k, 1] == fips[k].1
    {
      arr[i, 0] := fips[i].0;
      arr[i, 1] := fips[i].1;
      i := i + 1;
    }
    i := 0;
    while i < |fips|
      invariant 0 <= i <= |fips|
      invariant forall k :: 0 <= k < i ==> (arr[k, 0], arr[k, 1]) == Canon(fips[k].0, fips[k].1)
      invariant forall k :: i <= k < |fips| ==> arr[k, 0] == fips[k].0 && arr[k, 1] == fips[k].1
    {
      if LexLt(arr[i, 1], arr[i, 0]) {
        var t := arr[i, 0];
        arr[i, 0] := arr[i, 1];
        arr[i, 1] := t;
      }
      i := i + 1;
    }
  }

  // ---------- state abbreviation ----------

  /** One entry of the state table of the `us` package: its FIPS code (if any) and abbreviation. */
  datatype StateRecord = StateRecord(fips: Option<string>, abbr: string)

  /** Position of the first record with FIPS code `code`, or |states|. */
  function FindState(states: seq<StateRecord>, code: string): (k: nat)
    ensures k <= |states|
    ensures k < |states| ==> states[k].fips == Some(code)
    ensures forall j :: 0 <= j < k ==> states[j].fips != Some(code)
  {
    if |states| == 0 then 0
    else if states[0].fips == Some(code) then 0
    else 1 + FindState(states[1..], code)
  }

  /**
   * `state_abbrev_from_fips`: "" for None; otherwise the code padded to two digits
   * is looked up in the state table (`states` is None when the package is absent),
   * and is itself the answer when there is no table or no match.
   */
  function StateAbbrevFromFips(statefp: Option<string>, states: Option<seq<StateRecord>>): (r: string)
    ensures statefp.None? ==> r == ""
    ensures statefp.Some? && states.None? ==> r == ZFill(statefp.value, 2)
    ensures statefp.Some? && states.Some? ==>
              var sf := ZFill(statefp.value, 2);
              (exists k :: 0 <= k < |states.value| && states.value[k].fips == Some(sf) && r == states.value[k].abbr &&
                 (forall j :: 0 <= j < k ==> states.value[j].fips != Some(sf))) ||
              ((forall j :: 0 <= j < |states.value| ==> states.value[j].fips != Some(sf)) && r == sf)
  {
    match statefp
    case None => ""
    case Some(s) =>
      var sf := ZFill(s, 2);
      match states
      case None => sf
      case Some(table) =>
        var k := FindState(table, sf);
        if k < |table| then table[k].abbr else sf
  }

  /** A code stored without its leading zero still finds its state ("6" is California's "06"). */
  lemma StateAbbrevPadsFirst()
    ensures StateAbbrevFromFips(Some("6"), Some([StateRecord(Some("48"), "TX"), StateRecord(Some("06"), "CA")])) == "CA"
  {
    assert ZFill("6", 2) == "06";
    assert FindState([StateRecord(Some("48"), "TX"), StateRecord(Some("06"), "CA")], "06") == 1;
  }
}
