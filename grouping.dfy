/**
 * The group-by/aggregate fold shared by the AC and HVDC aggregation:
 * `df.groupby(["fips_lo", "fips_hi"]).agg(...)` with sums, sizes and the
 * mode of the non-missing values of a column.
 */
module Grouping {
  import opened Wrappers
  import opened StrOps
  import opened Tables

  // ---------- counting ----------

  /** How many times `x` occurs in `s`. */
  function Occ<T(==)>(s: seq<T>, x: T): nat {
    if |s| == 0 then 0 else Occ(s[..|s| - 1], x) + (if s[|s| - 1] == x then 1 else 0)
  }

  lemma {:induction false} OccPositive<T>(s: seq<T>, x: T)
    requires x in s
    ensures Occ(s, x) >= 1
    decreases |s|
  {
    if s[|s| - 1] != x {
      var init := s[..|s| - 1];
      assert s == init + [s[|s| - 1]];
      assert x in init;
      OccPositive(init, x);
    }
  }

  // ---------- mode of the non-missing values ----------

  /**
   * `a` is at least as good a mode of `vs` as `b`: it occurs more often, or as
   * often and sorts no later (pandas' `mode()` is sorted, and `.iloc[0]` takes the first).
   */
  predicate Dominates(vs: seq<Value>, a: Value, b: Value) {
    Occ(vs, a) > Occ(vs, b) || (Occ(vs, a) == Occ(vs, b) && ValueLe(a, b))
  }

  lemma DominatesTotal(vs: seq<Value>, a: Value, b: Value)
    ensures Dominates(vs, a, b) || Dominates(vs, b, a)
  {
    ValueLeTotal(a, b);
  }

  lemma DominatesTransitive(vs: seq<Value>, a: Value, b: Value, c: Value)
    requires Dominates(vs, a, b) && Dominates(vs, b, c)
    ensures Dominates(vs, a, c)
  {
    if Occ(vs, a) == Occ(vs, b) == Occ(vs, c) {
      ValueLeTransitive(a, b, c);
    }
  }

  /** The best candidate among `best` and the non-missing values of `rest`. */
  function PickMode(vs: seq<Value>, rest: seq<Value>, best: Value): (r: Value)
    ensures r == best || r in rest
    ensures best != Null ==> r != Null
    ensures Dominates(vs, r, best)
    ensures forall i :: 0 <= i < |rest| && rest[i] != Null ==> Dominates(vs, r, rest[i])
    decreases |rest|
  {
    if |rest| == 0 then
      ValueLeReflexive(best);
      best
    else
      var next := if rest[0] != Null && !Dominates(vs, best, rest[0]) then rest[0] else best;
      DominatesTotal(vs, best, rest[0]);
      ValueLeReflexive(best);
      ValueLeReflexive(rest[0]);
      var r := PickMode(vs, rest[1..], next);
      DominatesTransitive(vs, r, next, best);
      assert rest[0] != Null ==> Dominates(vs, r, rest[0]) by {
        if rest[0] != Null {
          DominatesTransitive(vs, r, next, rest[0]);
        }
      }
      assert forall i :: 1 <= i < |rest| && rest[i] != Null ==> Dominates(vs, r, rest[i]) by {
        forall i | 1 <= i < |rest| && rest[i] != Null ensures Dominates(vs, r, rest[i]) {
          assert rest[i] == rest[1..][i - 1];
        }
      }
      r
  }

  /** Position of the first non-missing value, or |vs|. */
  function FirstNonNull(vs: seq<Value>): (k: nat)
    ensures k <= |vs|
    ensures k < |vs| ==> vs[k] != Null
    ensures forall j :: 0 <= j < k ==> vs[j] == Null
  {
    if |vs| == 0 then 0 else if vs[0] != Null then 0 else 1 + FirstNonNull(vs[1..])
  }

  /**
   * `mode_nonnull`: drop the missing values; missing if nothing is left, otherwise
   * the smallest of the most frequent remaining values.
   */
  function ModeNonNull(vs: seq<Value>): (r: Value)
    ensures r == Null <==> forall i :: 0 <= i < |vs| ==> vs[i] == Null
    ensures r != Null ==> r in vs
    ensures r != Null ==> forall i :: 0 <= i < |vs| && vs[i] != Null ==> Dominates(vs, r, vs[i])
  {
    var k := FirstNonNull(vs);
    if k == |vs| then Null
    else
      var r := PickMode(vs, vs[k + 1..], vs[k]);
      assert forall i :: k < i < |vs| ==> vs[i] == vs[k + 1..][i - k - 1];
      r
  }

  /** The value mode_nonnull selects is the only one that dominates every non-missing value. */
  lemma {:induction false} ModeIsUnique(vs: seq<Value>, m: Value)
    requires m != Null && m in vs
    requires forall i :: 0 <= i < |vs| && vs[i] != Null ==> Dominates(vs, m, vs[i])
    ensures m == ModeNonNull(vs)
  {
    var r := ModeNonNull(vs);
    var i :| 0 <= i < |vs| && vs[i] == m;
    assert r != Null;
    var j :| 0 <= j < |vs| && vs[j] == r;
    assert Dominates(vs, m, r) && Dominates(vs, r, m);
    ValueLeAntisymmetric(m, r);
  }

  /** A text cell of a string column, or a missing one. */
  function OfText(o: Option<string>): Value {
    if o.Some? then Text(o.value) else Null
  }

  lemma {:induction false} OccOfText(xs: seq<Option<string>>, o: Option<string>)
    ensures Occ(MapSeq(xs, OfText), OfText(o)) == Occ(xs, o)
    decreases |xs|
  {
    if |xs| > 0 {
      var init := xs[..|xs| - 1];
      OccOfText(init, o);
      assert MapSeq(xs, OfText)[..|xs| - 1] == MapSeq(init, OfText);
    }
  }

  /** mode_nonnull on a string column (a pandas "string" dtype column). */
  function ModeText(xs: seq<Option<string>>): (r: Option<string>)
    ensures r.None? <==> forall i :: 0 <= i < |xs| ==> xs[i].None?
    ensures r.Some? ==> r in xs
    ensures r.Some? ==> forall i :: 0 <= i < |xs| && xs[i].Some? ==>
              Occ(xs, r) > Occ(xs, xs[i]) ||
              (Occ(xs, r) == Occ(xs, xs[i]) && LexLe(r.value, xs[i].value))
  {
    var vs := MapSeq(xs, OfText);
    var m := ModeNonNull(vs);
    if m.Text? then
      var j :| 0 <= j < |vs| && vs[j] == m;
      assert xs[j] == Some(m.s);
      OccOfText(xs, Some(m.s));
      assert forall i :: 0 <= i < |xs| && xs[i].Some? ==>
              Occ(xs, Some(m.s)) > Occ(xs, xs[i]) ||
              (Occ(xs, Some(m.s)) == Occ(xs, xs[i]) && LexLe(m.s, xs[i].value)) by {
        forall i | 0 <= i < |xs| && xs[i].Some?
          ensures Occ(xs, Some(m.s)) > Occ(xs, xs[i]) ||
                  (Occ(xs, Some(m.s)) == Occ(xs, xs[i]) && LexLe(m.s, xs[i].value))
        {
          OccOfText(xs, xs[i]);
          assert vs[i] == Text(xs[i].value);
          assert Dominates(vs, m, vs[i]);
        }
      }
      Some(m.s)
    else
      assert forall i :: 0 <= i < |vs| ==> !vs[i].Num?;
      None
  }

  // ---------- group keys ----------

  /** A group key: the canonical (low, high) county pair. */
  type Pair = (string, string)

  /** The order pandas sorts group keys in: by the first component, then the second. */
  predicate PairLt(p: Pair, q: Pair) {
    LexLt(p.0, q.0) || (p.0 == q.0 && LexLt(p.1, q.1))
  }

  lemma PairTrichotomy(p: Pair, q: Pair)
    ensures PairLt(p, q) || p == q || PairLt(q, p)
    ensures !(PairLt(p, q) && PairLt(q, p))
  {
    LexTrichotomy(p.0, q.0);
    LexTrichotomy(p.1, q.1);
  }

  lemma PairLtTransitive(p: Pair, q: Pair, r: Pair)
    requires PairLt(p, q) && PairLt(q, r)
    ensures PairLt(p, r)
  {
    LexTrichotomy(p.0, q.0);
    LexTrichotomy(q.0, r.0);
    LexTrichotomy(p.0, r.0);
    LexTrichotomy(p.1, r.1);
    if LexLt(p.0, q.0) && LexLt(q.0, r.0) {
      LexLeTransitive(p.0, q.0, r.0);
      if p.0 == r.0 {
        LexLeAntisymmetric(p.0, q.0);
      }
    } else if p.0 == q.0 && q.0 == r.0 {
      LexLeTransitive(p.1, q.1, r.1);
      if p.1 == r.1 {
        LexLeAntisymmetric(p.1, q.1);
      }
    }
  }

  predicate StrictlySorted(ks: seq<Pair>) {
    forall i, j :: 0 <= i < j < |ks| ==> PairLt(ks[i], ks[j])
  }

  lemma ConsSorted(a: Pair, ks: seq<Pair>)
    requires StrictlySorted(ks)
    requires forall x :: x in ks ==> PairLt(a, x)
    ensures StrictlySorted([a] + ks)
  {
    var r := [a] + ks;
    forall i, j | 0 <= i < j < |r| ensures PairLt(r[i], r[j]) {
      if i > 0 {
        assert r[i] == ks[i - 1] && r[j] == ks[j - 1];
      } else {
        assert r[j] in ks;
      }
    }
  }

  /** Insert `k` into a strictly sorted key list unless it is already there. */
  function InsertKey(ks: seq<Pair>, k: Pair): (r: seq<Pair>)
    requires StrictlySorted(ks)
    ensures StrictlySorted(r)
    ensures forall x :: x in r <==> x in ks || x == k
    decreases |ks|
  {
    if |ks| == 0 then [k]
    else if ks[0] == k then ks
    else if PairLt(k, ks[0]) then
      assert forall x :: x in ks ==> PairLt(k, x) by {
        forall x | x in ks ensures PairLt(k, x) {
          if x != ks[0] {
            var j :| 0 <= j < |ks| && ks[j] == x;
            PairLtTransitive(k, ks[0], x);
          }
        }
      }
      ConsSorted(k, ks);
      [k] + ks
    else
      var tail := ks[1..];
      assert StrictlySorted(tail) by {
        forall i, j | 0 <= i < j < |tail| ensures PairLt(tail[i], tail[j]) {
          assert tail[i] == ks[i + 1] && tail[j] == ks[j + 1];
        }
      }
      var rest := InsertKey(tail, k);
      PairTrichotomy(k, ks[0]);
      assert forall x :: x in rest ==> PairLt(ks[0], x) by {
        forall x | x in rest ensures PairLt(ks[0], x) {
          if x != k {
            var j :| 0 <= j < |tail| && tail[j] == x;
            assert ks[j + 1] == x;
          }
        }
      }
      ConsSorted(ks[0], rest);
      assert ks == [ks[0]] + tail;
      [ks[0]] + rest
  }

  /** The distinct keys of the rows, in sorted order (groupby's default `sort=True`). */
  function SortedKeys<T>(rows: seq<T>, key: T -> Pair): (ks: seq<Pair>)
    ensures StrictlySorted(ks)
    ensures forall i :: 0 <= i < |rows| ==> key(rows[i]) in ks
    ensures forall j :: 0 <= j < |ks| ==> exists i :: 0 <= i < |rows| && key(rows[i]) == ks[j]
    decreases |rows|
  {
    if |rows| == 0 then []
    else
      var init := rows[..|rows| - 1];
      var prev := SortedKeys(init, key);
      var ks := InsertKey(prev, key(rows[|rows| - 1]));
      assert forall i :: 0 <= i < |rows| - 1 ==> rows[i] == init[i];
      assert forall j :: 0 <= j < |ks| ==> exists i :: 0 <= i < |rows| && key(rows[i]) == ks[j] by {
        forall j | 0 <= j < |ks| ensures exists i :: 0 <= i < |rows| && key(rows[i]) == ks[j] {
          if ks[j] == key(rows[|rows| - 1]) {
            assert key(rows[|rows| - 1]) == ks[j];
          } else {
            assert ks[j] in prev;
            var j' :| 0 <= j' < |prev| && prev[j'] == ks[j];
            var i :| 0 <= i < |init| && key(init[i]) == prev[j'];
            assert key(rows[i]) == ks[j];
          }
        }
      }
      ks
  }

  // ---------- groups ----------

  /** One group of the fold: its key and its member rows, in input order. */
  datatype Group<T> = Group(key: Pair, members: seq<T>)

  function KeyIs<T>(key: T -> Pair, k: Pair): T -> bool {
    x => key(x) == k
  }

  function MkGroup<T>(rows: seq<T>, key: T -> Pair): Pair -> Group<T> {
    k => Group(k, Filter(rows, KeyIs(key, k)))
  }

  /** `rows.groupby(key)`: one group per distinct key, in key order. */
  function GroupBy<T>(rows: seq<T>, key: T -> Pair): seq<Group<T>> {
    MapSeq(SortedKeys(rows, key), MkGroup(rows, key))
  }

  /** The groups come in strictly increasing key order, so no key has two groups. */
  lemma GroupByKeysSorted<T>(rows: seq<T>, key: T -> Pair, gs: seq<Group<T>>)
    requires gs == GroupBy(rows, key)
    ensures forall i, j :: 0 <= i < j < |gs| ==> PairLt(gs[i].key, gs[j].key)
  {
    var ks := SortedKeys(rows, key);
    assert forall i :: 0 <= i < |gs| ==> gs[i].key == ks[i];
  }

  /** Each group is non-empty and holds only rows of the input with the group's key. */
  lemma GroupByMembers<T>(rows: seq<T>, key: T -> Pair, gs: seq<Group<T>>, i: nat)
    requires gs == GroupBy(rows, key) && i < |gs|
    ensures |gs[i].members| >= 1
    ensures forall m :: 0 <= m < |gs[i].members| ==>
              key(gs[i].members[m]) == gs[i].key && gs[i].members[m] in rows
  {
    var ks := SortedKeys(rows, key);
    var ms := Filter(rows, KeyIs(key, ks[i]));
    assert gs[i] == Group(ks[i], ms);
    var r :| 0 <= r < |rows| && key(rows[r]) == ks[i];
    assert KeyIs(key, ks[i])(rows[r]);
    assert rows[r] in ms;
    forall m | 0 <= m < |ms| ensures key(ms[m]) == ks[i] && ms[m] in rows {
      assert KeyIs(key, ks[i])(ms[m]);
    }
  }

  /** Every input row is a member of the group of its own key. */
  lemma GroupByCovers<T>(rows: seq<T>, key: T -> Pair, gs: seq<Group<T>>, r: nat)
    requires gs == GroupBy(rows, key) && r < |rows|
    ensures exists i :: 0 <= i < |gs| && gs[i].key == key(rows[r]) && rows[r] in gs[i].members
  {
    var ks := SortedKeys(rows, key);
    var i :| 0 <= i < |ks| && ks[i] == key(rows[r]);
    assert gs[i] == Group(ks[i], Filter(rows, KeyIs(key, ks[i])));
    assert KeyIs(key, ks[i])(rows[r]);
    assert gs[i].key == key(rows[r]) && rows[r] in gs[i].members;
  }

  /** Summarised per group by a key-keeping `f`, every input row's key has its entry. */
  lemma GroupImageCovers<T, E>(rows: seq<T>, key: T -> Pair, f: Group<T> -> E, ek: E -> Pair, r: nat)
    requires r < |rows|
    requires forall g :: ek(f(g)) == g.key
    ensures var es := MapSeq(GroupBy(rows, key), f);
            exists i :: 0 <= i < |es| && ek(es[i]) == key(rows[r])
  {
    var gs := GroupBy(rows, key);
    GroupByCovers(rows, key, gs, r);
    var i :| 0 <= i < |gs| && gs[i].key == key(rows[r]) && rows[r] in gs[i].members;
    assert ek(MapSeq(gs, f)[i]) == gs[i].key;
  }

  // ---------- sums ----------

  /** `s.sum()` of a derived column (missing entries are given as 0 by `f`). */
  function SumBy<T>(s: seq<T>, f: T -> real): real {
    if |s| == 0 then 0.0 else SumBy(s[..|s| - 1], f) + f(s[|s| - 1])
  }

  lemma SumBySnoc<T>(s: seq<T>, x: T, f: T -> real)
    ensures SumBy(s + [x], f) == SumBy(s, f) + f(x)
  {
    assert (s + [x])[..|s|] == s;
  }

  /** The sum of a group's `f` column. */
  function GroupSum<T>(f: T -> real): Group<T> -> real {
    (g: Group<T>) => SumBy(g.members, f)
  }

  /** Appending a row adds its value to the sum of its own group and to no other. */
  lemma GroupSumStep<T>(init: seq<T>, x: T, key: T -> Pair, k: Pair, f: T -> real)
    ensures GroupSum(f)(MkGroup(init + [x], key)(k)) ==
            GroupSum(f)(MkGroup(init, key)(k)) + (if key(x) == k then f(x) else 0.0)
  {
    var rows := init + [x];
    assert rows[..|rows| - 1] == init;
    var before := Filter(init, KeyIs(key, k));
    assert Filter(rows, KeyIs(key, k)) == before + (if key(x) == k then [x] else []);
    if key(x) == k {
      SumBySnoc(before, x, f);
    } else {
      assert before + [] == before;
    }
  }

  /** The last entry of a derived column and the column of all but the last row. */
  lemma MapSeqLast<T, U>(s: seq<T>, g: T -> U)
    requires |s| > 0
    ensures MapSeq(s, g)[..|s| - 1] == MapSeq(s[..|s| - 1], g)
    ensures MapSeq(s, g)[|s| - 1] == g(s[|s| - 1])
  {
  }

  /** Dropping the last key of distinct keys leaves distinct keys, none equal to the dropped one. */
  lemma DistinctInit(ks: seq<Pair>, ks': seq<Pair>)
    requires |ks| > 0 && ks' == ks[..|ks| - 1]
    requires forall i, j :: 0 <= i < j < |ks| ==> ks[i] != ks[j]
    ensures forall i, j :: 0 <= i < j < |ks'| ==> ks'[i] != ks'[j]
    ensures ks[|ks| - 1] !in ks'
    ensures forall p :: p in ks <==> p in ks' || p == ks[|ks| - 1]
  {
    assert ks == ks' + [ks[|ks| - 1]];
  }

  lemma {:induction false} GroupSumsSnoc<T>(init: seq<T>, x: T, key: T -> Pair, ks: seq<Pair>, f: T -> real)
    requires forall i, j :: 0 <= i < j < |ks| ==> ks[i] != ks[j]
    ensures SumBy(MapSeq(ks, MkGroup(init + [x], key)), GroupSum(f)) ==
            SumBy(MapSeq(ks, MkGroup(init, key)), GroupSum(f)) + (if key(x) in ks then f(x) else 0.0)
    decreases |ks|
  {
    if |ks| > 0 {
      var n := |ks|;
      var ks' := ks[..n - 1];
      var k := ks[n - 1];
      DistinctInit(ks, ks');
      GroupSumsSnoc(init, x, key, ks', f);
      MapSeqLast(ks, MkGroup(init + [x], key));
      MapSeqLast(ks, MkGroup(init, key));
      GroupSumStep(init, x, key, k, f);
    }
  }

  /** Summing a column group by group and then over the groups gives the column's total. */
  lemma {:induction false} GroupSumsPartition<T>(rows: seq<T>, key: T -> Pair, ks: seq<Pair>, f: T -> real)
    requires forall i, j :: 0 <= i < j < |ks| ==> ks[i] != ks[j]
    requires forall i :: 0 <= i < |rows| ==> key(rows[i]) in ks
    ensures SumBy(MapSeq(ks, MkGroup(rows, key)), GroupSum(f)) == SumBy(rows, f)
    decreases |rows|
  {
    if |rows| == 0 {
      assert forall k :: Filter(rows, KeyIs(key, k)) == [];
      GroupSumsOfEmpty(key, ks, f);
    } else {
      var init := rows[..|rows| - 1];
      var x := rows[|rows| - 1];
      assert rows == init + [x];
      GroupSumsPartition(init, key, ks, f);
      GroupSumsSnoc(init, x, key, ks, f);
    }
  }

  lemma {:induction false} GroupSumsOfEmpty<T>(key: T -> Pair, ks: seq<Pair>, f: T -> real)
    ensures SumBy(MapSeq(ks, MkGroup([], key)), GroupSum(f)) == 0.0
    decreases |ks|
  {
    if |ks| > 0 {
      var ks' := ks[..|ks| - 1];
      GroupSumsOfEmpty(key, ks', f);
      assert MapSeq(ks, MkGroup([], key))[..|ks| - 1] == MapSeq(ks', MkGroup([], key));
    }
  }

  /** Over the groups of a group-by, the groups' sums add up to the column's total. */
  lemma GroupByTotal<T>(rows: seq<T>, key: T -> Pair, f: T -> real)
    ensures SumBy(GroupBy(rows, key), GroupSum(f)) == SumBy(rows, f)
  {
    var ks := SortedKeys(rows, key);
    forall i, j | 0 <= i < j < |ks| ensures ks[i] != ks[j] {
      PairTrichotomy(ks[i], ks[j]);
    }
    GroupSumsPartition(rows, key, ks, f);
  }

  /** A sum over derived rows is the sum of the composed column. */
  lemma {:induction false} SumByMap<T, U>(s: seq<T>, mk: T -> U, g: U -> real, h: T -> real)
    requires forall i :: 0 <= i < |s| ==> h(s[i]) == g(mk(s[i]))
    ensures SumBy(MapSeq(s, mk), g) == SumBy(s, h)
    decreases |s|
  {
    if |s| > 0 {
      var init := s[..|s| - 1];
      SumByMap(init, mk, g, h);
      assert MapSeq(s, mk)[..|s| - 1] == MapSeq(init, mk);
    }
  }

  /** The `size` aggregate as a sum of ones. */
  function One<T>(x: T): real { 1.0 }

  lemma {:induction false} SumByOne<T>(s: seq<T>)
    ensures SumBy(s, One) == |s| as real
    decreases |s|
  {
    if |s| > 0 {
      SumByOne(s[..|s| - 1]);
    }
  }

  /** Over a group-by, the group sizes add up to the number of rows. */
  lemma GroupBySizes<T>(rows: seq<T>, key: T -> Pair)
    ensures SumBy(GroupBy(rows, key), GroupSum(One)) == |rows| as real
  {
    GroupByTotal(rows, key, One);
    SumByOne(rows);
  }

  /**
   * When every row's key is an ordered pair (strictly ordered when `strict`), the
   * groups come in strictly increasing key order and every group key is ordered too.
   */
  lemma GroupByPairsOrdered<T>(rows: seq<T>, key: T -> Pair, strict: bool)
    requires forall i :: 0 <= i < |rows| ==> LexLe(key(rows[i]).0, key(rows[i]).1)
    requires forall i :: 0 <= i < |rows| && strict ==> LexLt(key(rows[i]).0, key(rows[i]).1)
    ensures var gs := GroupBy(rows, key);
            (forall i, j :: 0 <= i < j < |gs| ==> PairLt(gs[i].key, gs[j].key)) &&
            (forall i :: 0 <= i < |gs| ==> LexLe(gs[i].key.0, gs[i].key.1)) &&
            (forall i :: 0 <= i < |gs| && strict ==> LexLt(gs[i].key.0, gs[i].key.1))
  {
    var gs := GroupBy(rows, key);
    GroupByKeysSorted(rows, key, gs);
    forall i | 0 <= i < |gs|
      ensures LexLe(gs[i].key.0, gs[i].key.1) && (strict ==> LexLt(gs[i].key.0, gs[i].key.1))
    {
      GroupByMembers(rows, key, gs, i);
      var m := gs[i].members[0];
      var j :| 0 <= j < |rows| && rows[j] == m;
    }
  }

  /** A single row makes a single group. */
  lemma GroupBySingle<T>(x: T, key: T -> Pair)
    ensures GroupBy([x], key) == [Group(key(x), [x])]
  {
    assert [x][..0] == [];
    assert SortedKeys([x], key) == InsertKey(SortedKeys([], key), key(x));
    assert SortedKeys([x], key) == [key(x)];
    assert Filter([x], KeyIs(key, key(x))) == Filter([], KeyIs(key, key(x))) + [x];
    assert MkGroup([x], key)(key(x)) == Group(key(x), [x]);
  }

}
