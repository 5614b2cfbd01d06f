/**
 * Data frames as the pipeline sees them: cells that may be missing, rows keyed by
 * column label, and the few frame operations it uses (column-alias resolution,
 * boolean-mask selection, row-wise derivation, key lookup).
 */
module Tables {
  import opened Wrappers
  import opened StrOps

  /** One cell: missing (NaN/None/NA), a number, or text. */
  datatype Value = Null | Num(n: real) | Text(s: string)

  /** A row of a frame, keyed by (already lower-cased) column label. */
  type Row = map<string, Value>

  /** A frame: its column labels and its rows, in order. */
  datatype Table = Table(columns: seq<string>, rows: seq<Row>)

  /** `row[col]`, reading an absent label as a missing cell. */
  function Get(row: Row, col: string): Value {
    if col in row then row[col] else Null
  }

  /** The row mask `frame[col] == v`. */
  function CellIs(col: string, v: Value): Row -> bool {
    (r: Row) => Get(r, col) == v
  }

  /** The number in a numeric cell; text and missing cells give None. */
  function NumOf(v: Value): Option<real> {
    if v.Num? then Some(v.n) else None
  }

  /** The label of row `i` in a frame read without an index column: its position. */
  function PositionLabel(i: nat): Value {
    Num(i as real)
  }

  /**
   * `next((c for c in aliases if c in columns), None)`: the first alias, in the
   * order given, that names a column.
   */
  function FirstPresent(aliases: seq<string>, columns: seq<string>): (r: Option<string>)
    ensures r.None? <==> forall j :: 0 <= j < |aliases| ==> aliases[j] !in columns
    ensures r.Some? ==> r.value in columns
    ensures r.Some? ==>
              exists k :: 0 <= k < |aliases| && aliases[k] == r.value &&
                (forall j :: 0 <= j < k ==> aliases[j] !in columns)
  {
    if |aliases| == 0 then None
    else if aliases[0] in columns then Some(aliases[0])
    else
      var r := FirstPresent(aliases[1..], columns);
      assert r.Some? ==>
               (exists k :: 1 <= k < |aliases| && aliases[k] == r.value &&
                  (forall j :: 0 <= j < k ==> aliases[j] !in columns)) by {
        if r.Some? {
          var k' :| 0 <= k' < |aliases| - 1 && aliases[1..][k'] == r.value &&
                (forall j :: 0 <= j < k' ==> aliases[1..][j] !in columns);
          assert aliases[k' + 1] == r.value;
          assert forall j :: 0 <= j < k' + 1 ==> aliases[j] !in columns by {
            forall j | 0 <= j < k' + 1 ensures aliases[j] !in columns {
              if j > 0 {
                assert aliases[j] == aliases[1..][j - 1];
              }
            }
          }
        }
      }
      r
  }

  // ---------- row selection and derivation ----------

  /** `df[mask]` for the mask `p`: the rows satisfying p, in their original order. */
  function Filter<T>(s: seq<T>, p: T -> bool): (r: seq<T>)
    ensures |r| <= |s|
    ensures forall i :: 0 <= i < |r| ==> r[i] in s && p(r[i])
    ensures forall i :: 0 <= i < |s| && p(s[i]) ==> s[i] in r
  {
    if |s| == 0 then []
    else
      var init := s[..|s| - 1];
      assert s == init + [s[|s| - 1]];
      Filter(init, p) + (if p(s[|s| - 1]) then [s[|s| - 1]] else [])
  }

  /** A mask no row satisfies selects nothing. */
  lemma {:induction false} FilterNone<T>(s: seq<T>, p: T -> bool)
    requires forall i :: 0 <= i < |s| ==> !p(s[i])
    ensures Filter(s, p) == []
    decreases |s|
  {
    if |s| > 0 {
      FilterNone(s[..|s| - 1], p);
    }
  }

  /** Selecting rows of a concatenation selects from each part. */
  lemma {:induction false} FilterAppend<T>(a: seq<T>, b: seq<T>, p: T -> bool)
    ensures Filter(a + b, p) == Filter(a, p) + Filter(b, p)
    decreases |b|
  {
    if |b| == 0 {
      assert a + b == a;
    } else {
      var b' := b[..|b| - 1];
      var x := b[|b| - 1];
      var tail := if p(x) then [x] else [];
      FilterAppend(a, b', p);
      assert (a + b)[..|a + b| - 1] == a + b';
      assert (a + b)[|a + b| - 1] == x;
      assert Filter(a + b, p) == Filter(a + b', p) + tail;
      assert Filter(b, p) == Filter(b', p) + tail;
    }
  }

  /** A column computed row by row: `f` applied to every row, in order. */
  function MapSeq<T, U>(s: seq<T>, f: T -> U): (r: seq<U>)
    ensures |r| == |s| && forall i :: 0 <= i < |s| ==> r[i] == f(s[i])
  {
    seq(|s|, i requires 0 <= i < |s| => f(s[i]))
  }

  /** The positions of the selected rows, strictly increasing: a selection keeps the input order. */
  function FilterIndices<T>(s: seq<T>, p: T -> bool): (idx: seq<nat>)
    ensures |idx| == |Filter(s, p)|
    ensures forall i :: 0 <= i < |idx| ==> idx[i] < |s| && s[idx[i]] == Filter(s, p)[i]
    ensures forall i, j :: 0 <= i < j < |idx| ==> idx[i] < idx[j]
  {
    if |s| == 0 then []
    else
      var init := s[..|s| - 1];
      var rest := FilterIndices(init, p);
      assert Filter(s, p) == Filter(init, p) + (if p(s[|s| - 1]) then [s[|s| - 1]] else []);
      if p(s[|s| - 1]) then rest + [|s| - 1] else rest
  }

  lemma MapSeqSnoc<T, U>(s: seq<T>, x: T, f: T -> U)
    ensures MapSeq(s + [x], f) == MapSeq(s, f) + [f(x)]
  {
  }

  /** The masked selection, computed the way a loop over the rows does it. */
  method KeepWhere<T>(s: seq<T>, p: T -> bool) returns (r: seq<T>)
    ensures r == Filter(s, p)
  {
    r := [];
    var i := 0;
    while i < |s|
      invariant 0 <= i <= |s|
      invariant r == Filter(s[..i], p)
    {
      assert s[..i + 1][..i] == s[..i];
      if p(s[i]) {
        r := r + [s[i]];
      }
      i := i + 1;
    }
    assert s[..|s|] == s;
  }

  // ---------- key lookup ----------

  /** Position of the first pair whose index entry equals `key`, or |pairs| when none does. */
  function FirstKeyIndex(pairs: seq<(Value, Value)>, key: Value): (k: nat)
    ensures k <= |pairs|
    ensures k < |pairs| ==> pairs[k].0 == key
    ensures forall j :: 0 <= j < k ==> pairs[j].0 != key
  {
    if |pairs| == 0 then 0
    else if pairs[0].0 == key then 0
    else 1 + FirstKeyIndex(pairs[1..], key)
  }

  /**
   * `keys.map(lookup)` for a lookup series given as (index, value) pairs: the value
   * paired with the first equal index entry, or a missing cell when there is none.
   */
  function LookupFirst(pairs: seq<(Value, Value)>, key: Value): Value {
    var k := FirstKeyIndex(pairs, key);
    if k < |pairs| then pairs[k].1 else Null
  }

  /**
   * On an index without repeated entries (the only kind `map` accepts), the lookup
   * gives the value of the one entry equal to the key.
   */
  lemma LookupUnique(pairs: seq<(Value, Value)>, key: Value, j: nat)
    requires j < |pairs| && pairs[j].0 == key
    requires forall a, b :: 0 <= a < b < |pairs| ==> pairs[a].0 != pairs[b].0
    ensures LookupFirst(pairs, key) == pairs[j].1
  {
    assert FirstKeyIndex(pairs, key) == j;
  }

  /** The (index, value) pairs of two columns of a frame, `df.set_index(k)[v]`. */
  function ColumnPairs(rows: seq<Row>, keyCol: string, valCol: string): (r: seq<(Value, Value)>)
    ensures |r| == |rows|
    ensures forall i :: 0 <= i < |rows| ==> r[i] == (Get(rows[i], keyCol), Get(rows[i], valCol))
  {
    seq(|rows|, i requires 0 <= i < |rows| => (Get(rows[i], keyCol), Get(rows[i], valCol)))
  }

  // ---------- the order pandas sorts cells in ----------

  /** Numbers before text; numbers by value; text as Python orders str. */
  predicate ValueLe(a: Value, b: Value) {
    match (a, b)
    case (Null, _) => true
    case (Num(x), Num(y)) => x <= y
    case (Num(_), Text(_)) => true
    case (Text(s), Text(t)) => LexLe(s, t)
    case _ => false
  }

  lemma ValueLeTotal(a: Value, b: Value)
    ensures ValueLe(a, b) || ValueLe(b, a)
  {
    if a.Text? && b.Text? {
      LexLeTotal(a.s, b.s);
    }
  }

  lemma ValueLeAntisymmetric(a: Value, b: Value)
    requires ValueLe(a, b) && ValueLe(b, a)
    ensures a == b
  {
    if a.Text? && b.Text? {
      LexLeAntisymmetric(a.s, b.s);
    }
  }

  lemma ValueLeTransitive(a: Value, b: Value, c: Value)
    requires ValueLe(a, b) && ValueLe(b, c)
    ensures ValueLe(a, c)
  {
    if a.Text? && b.Text? && c.Text? {
      LexLeTransitive(a.s, b.s, c.s);
    }
  }

  lemma ValueLeReflexive(a: Value)
    ensures ValueLe(a, a)
  {
    if a.Text? {
      LexLeReflexive(a.s);
    }
  }
}
