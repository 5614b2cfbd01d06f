/**
 * The Python string built-ins the pipeline relies on: the ordering of `str`,
 * `str.zfill`, `str.lower`, `str.startswith`, `str(int)` and `float(str)`.
 */
module StrOps {
  import opened Wrappers

  // ---------- ordering of str ----------

  /** Python's `a <= b` on str: lexicographic by code point, a proper prefix first. */
  predicate LexLe(a: string, b: string)
    decreases |a|
  {
    |a| == 0 || (|b| > 0 && (a[0] < b[0] || (a[0] == b[0] && LexLe(a[1..], b[1..]))))
  }

  /** Python's `a < b` on str. */
  predicate LexLt(a: string, b: string) {
    LexLe(a, b) && a != b
  }

  lemma {:induction false} LexLeReflexive(a: string)
    ensures LexLe(a, a)
    decreases |a|
  {
    if |a| > 0 {
      LexLeReflexive(a[1..]);
    }
  }

  lemma {:induction false} LexLeAntisymmetric(a: string, b: string)
    requires LexLe(a, b) && LexLe(b, a)
    ensures a == b
    decreases |a|
  {
    if |a| > 0 && |b| > 0 {
      LexLeAntisymmetric(a[1..], b[1..]);
      assert a == [a[0]] + a[1..];
      assert b == [b[0]] + b[1..];
    }
  }

  lemma {:induction false} LexLeTransitive(a: string, b: string, c: string)
    requires LexLe(a, b) && LexLe(b, c)
    ensures LexLe(a, c)
    decreases |a|
  {
    if |a| > 0 && |b| > 0 && |c| > 0 && a[0] == b[0] && b[0] == c[0] {
      LexLeTransitive(a[1..], b[1..], c[1..]);
    }
  }

  lemma {:induction false} LexLeTotal(a: string, b: string)
    ensures LexLe(a, b) || LexLe(b, a)
    decreases |a|
  {
    if |a| > 0 && |b| > 0 && a[0] == b[0] {
      LexLeTotal(a[1..], b[1..]);
    }
  }

  /** Exactly one of `a < b`, `a == b`, `b < a` holds. */
  lemma LexTrichotomy(a: string, b: string)
    ensures LexLt(a, b) || a == b || LexLt(b, a)
    ensures !(LexLt(a, b) && LexLt(b, a))
  {
    LexLeTotal(a, b);
    if LexLt(a, b) && LexLt(b, a) {
      LexLeAntisymmetric(a, b);
    }
  }

  // ---------- str.zfill ----------

  function Zeros(n: nat): (z: string)
    ensures |z| == n && forall i :: 0 <= i < n ==> z[i] == '0'
  {
    if n == 0 then "" else Zeros(n - 1) + "0"
  }

  predicate IsSign(c: char) {
    c == '+' || c == '-'
  }

  /** `s.zfill(width)`: pad on the left with '0' up to `width`, after a leading sign if there is one. */
  function ZFill(s: string, width: nat): (r: string)
    ensures |r| == if |s| < width then width else |s|
    ensures |s| >= width ==> r == s
    ensures (|s| == 0 || !IsSign(s[0])) ==>
              r[|r| - |s|..] == s && forall i :: 0 <= i < |r| - |s| ==> r[i] == '0'
    ensures |s| > 0 && IsSign(s[0]) ==>
              r[0] == s[0] && r[|r| - (|s| - 1)..] == s[1..] && forall i :: 1 <= i <= |r| - |s| ==> r[i] == '0'
  {
    if |s| >= width then s
    else if |s| > 0 && IsSign(s[0]) then [s[0]] + Zeros(width - |s|) + s[1..]
    else Zeros(width - |s|) + s
  }

  /** Padding an already padded string changes nothing. */
  lemma ZFillIdempotent(s: string, width: nat)
    ensures ZFill(ZFill(s, width), width) == ZFill(s, width)
  {
  }

  // ---------- str.lower, str.startswith ----------

  /** `str.lower` on one character; only the ASCII letters A-Z change. */
  function LowerChar(c: char): char {
    if 'A' <= c <= 'Z' then (c as int + 32) as char else c
  }

  function Lower(s: string): (r: string)
    ensures |r| == |s| && forall i :: 0 <= i < |s| ==> r[i] == LowerChar(s[i])
  {
    seq(|s|, i requires 0 <= i < |s| => LowerChar(s[i]))
  }

  predicate StartsWith(s: string, prefix: string) {
    |prefix| <= |s| && s[..|prefix|] == prefix
  }

  // ---------- digits, str(int) ----------

  predicate IsDigit(c: char) {
    '0' <= c <= '9'
  }

  predicate AllDigits(s: string) {
    forall i :: 0 <= i < |s| ==> IsDigit(s[i])
  }

  function DigitOf(c: char): (d: nat)
    requires IsDigit(c)
    ensures d < 10
  {
    c as int - '0' as int
  }

  function DigitChar(d: nat): (c: char)
    requires d < 10
    ensures IsDigit(c) && DigitOf(c) == d
  {
    ('0' as int + d) as char
  }

  /** The number a string of decimal digits denotes (most significant digit first). */
  function DigitsValue(s: string): nat
    requires AllDigits(s)
  {
    if |s| == 0 then 0 else DigitsValue(s[..|s| - 1]) * 10 + DigitOf(s[|s| - 1])
  }

  function Pow10(n: nat): (p: nat)
    ensures p >= 1
  {
    if n == 0 then 1 else 10 * Pow10(n - 1)
  }

  /** `str(n)` for a non-negative int: its decimal digits without leading zeros. */
  function NatToText(n: nat): (s: string)
    ensures |s| > 0 && AllDigits(s)
    ensures DigitsValue(s) == n
    ensures |s| > 1 ==> s[0] != '0'
  {
    if n < 10 then [DigitChar(n)]
    else
      var init := NatToText(n / 10);
      var s := init + [DigitChar(n % 10)];
      assert s[..|s| - 1] == init;
      s
  }

  /** `str(n)` for an int. */
  function IntToText(n: int): string {
    if n < 0 then "-" + NatToText(-n) else NatToText(n)
  }

  // ---------- float(str) ----------

  /** Position of the first '.', or |s| when there is none. */
  function PointIndex(s: string): (k: nat)
    ensures k <= |s|
    ensures k < |s| ==> s[k] == '.'
    ensures forall i :: 0 <= i < k ==> s[i] != '.'
  {
    if |s| == 0 then 0
    else if s[0] == '.' then 0
    else 1 + PointIndex(s[1..])
  }

  function ParseUnsigned(s: string): Option<real> {
    var k := PointIndex(s);
    var whole := s[..k];
    var frac := if k < |s| then s[k + 1..] else "";
    if AllDigits(whole) && AllDigits(frac) && |whole| + |frac| > 0 then
      Some(DigitsValue(whole) as real + DigitsValue(frac) as real / Pow10(|frac|) as real)
    else None
  }

  /**
   * `float(s)` for plain decimals: an optional sign, digits with at most one point,
   * at least one digit. Every other text counts as unparsable.
   */
  function ParseDecimal(s: string): Option<real> {
    if |s| > 0 && IsSign(s[0]) then
      match ParseUnsigned(s[1..])
      case None => None
      case Some(v) => Some(if s[0] == '-' then -v else v)
    else ParseUnsigned(s)
  }

  /** "0.9" reads as 0.9; "abc" does not parse. */
  lemma ParseDecimalExamples()
    ensures ParseDecimal("0.9") == Some(0.9)
    ensures ParseDecimal("abc") == None
  {
    assert PointIndex("0.9") == 1;
    assert "0.9"[..1] == "0" && "0.9"[2..] == "9";
    assert DigitsValue("0") == 0 && DigitsValue("9") == 9;
    assert !IsDigit('a');
  }

  // ---------- the round trip of a zero-padded code through an integer ----------

  lemma {:induction false} LeadingNonZeroValue(t: string)
    requires AllDigits(t) && |t| > 0 && t[0] != '0'
    ensures DigitsValue(t) >= 1
    decreases |t|
  {
    if |t| > 1 {
      var init := t[..|t| - 1];
      assert init[0] == t[0];
      LeadingNonZeroValue(init);
    }
  }

  /** Writing back the value of a digit string without leading zeros gives the string itself. */
  lemma {:induction false} NatToTextOfDigits(t: string)
    requires AllDigits(t) && |t| > 0 && t[0] != '0'
    ensures NatToText(DigitsValue(t)) == t
    decreases |t|
  {
    var init := t[..|t| - 1];
    var d := DigitOf(t[|t| - 1]);
    var n := DigitsValue(t);
    assert DigitChar(d) == t[|t| - 1];
    if |t| == 1 {
      assert init == "";
      assert DigitsValue(init) == 0;
      assert n == d;
      assert t == [t[0]];
    } else {
      assert init[0] == t[0];
      LeadingNonZeroValue(init);
      var m := DigitsValue(init);
      assert n == m * 10 + d;
      assert n / 10 == m && n % 10 == d;
      NatToTextOfDigits(init);
      assert t == init + [t[|t| - 1]];
    }
  }

  lemma {:induction false} ZerosValue(k: nat)
    ensures AllDigits(Zeros(k)) && DigitsValue(Zeros(k)) == 0
    decreases k
  {
    var z := Zeros(k);
    assert AllDigits(z) by {
      forall i | 0 <= i < |z| ensures IsDigit(z[i]) {
        assert z[i] == '0';
      }
    }
    if k > 0 {
      ZerosValue(k - 1);
      assert z == Zeros(k - 1) + "0";
      assert z[..k - 1] == Zeros(k - 1);
      assert DigitOf(z[k - 1]) == 0;
    }
  }

  /** Leading zeros do not change the value of a digit string. */
  lemma {:induction false} LeadingZerosValue(k: nat, t: string)
    requires AllDigits(t)
    ensures AllDigits(Zeros(k) + t) && DigitsValue(Zeros(k) + t) == DigitsValue(t)
    decreases |t|
  {
    var s := Zeros(k) + t;
    if |t| == 0 {
      assert s == Zeros(k);
      ZerosValue(k);
    } else {
      var init := t[..|t| - 1];
      LeadingZerosValue(k, init);
      assert s[..|s| - 1] == Zeros(k) + init;
      assert s[|s| - 1] == t[|t| - 1];
    }
  }

  /** The number of leading '0' characters of s. */
  function LeadingZeroCount(s: string): (z: nat)
    ensures z <= |s|
    ensures forall i :: 0 <= i < z ==> s[i] == '0'
    ensures z < |s| ==> s[z] != '0'
  {
    if |s| == 0 || s[0] != '0' then 0 else 1 + LeadingZeroCount(s[1..])
  }

  /**
   * A code of `width` digits written as an integer (as a CSV reader does, losing
   * its leading zeros) and padded back with `zfill(width)` is the code again.
   */
  lemma PaddedCodeRoundTrip(g: string, width: nat)
    requires |g| == width && width >= 1 && AllDigits(g)
    ensures ZFill(IntToText(DigitsValue(g)), width) == g
  {
    var z := LeadingZeroCount(g);
    var t := g[z..];
    assert g == Zeros(z) + t;
    LeadingZerosValue(z, t);
    if |t| == 0 {
      assert g == Zeros(width);
      ZeroCodeRoundTrip(width);
    } else {
      NatToTextOfDigits(t);
      ZFillRestoresZeros(z, t, width);
    }
  }

  /** The all-zero code is written as "0" and padded back to itself. */
  lemma ZeroCodeRoundTrip(width: nat)
    requires width >= 1
    ensures ZFill(IntToText(0), width) == Zeros(width)
  {
    assert IntToText(0) == "0";
    assert Zeros(width) == Zeros(width - 1) + "0";
  }

  /** Padding unsigned digits back to the full width restores the leading zeros. */
  lemma ZFillRestoresZeros(z: nat, t: string, width: nat)
    requires |t| > 0 && IsDigit(t[0]) && z + |t| == width
    ensures ZFill(t, width) == Zeros(z) + t
  {
    assert !IsSign(t[0]);
    if z == 0 {
      assert Zeros(z) + t == t;
    } else {
      assert |t| < width && width - |t| == z;
    }
  }
}
