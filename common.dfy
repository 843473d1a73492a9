/** Building blocks shared by the three calculator pages: optional and
    fallible results, `Math.round(x * 100) / 100`, the array operations the
    pages use on their rosters (filter, map, a summing `forEach`), the
    ordered threshold tables behind the qualitative messages, and the
    decimal text of a row number. */
module Common {

  datatype Option<+T> = None | Some(value: T)

  /** The outcome of a calculation: a value, or the reason the page shows an alert instead. */
  datatype Result<+R, +E> = Success(value: R) | Failure(error: E)

  // ---------------------------------------------------------------------------
  // Rounding
  // ---------------------------------------------------------------------------

  /** `Math.round(x * 100) / 100`. `Math.round` goes to the nearest integer and
      sends halves toward +infinity, which is `Floor(y + 0.5)`. */
  function Round2(x: real): (r: real)
    ensures x - 0.005 < r <= x + 0.005
    ensures (r * 100.0).Floor as real == r * 100.0
  {
    ((x * 100.0 + 0.5).Floor as real) / 100.0
  }

  /** Halves go up, also below zero (unlike rounding half away from zero). */
  lemma Round2HalfUp()
    ensures Round2(0.125) == 0.13
    ensures Round2(-0.125) == -0.12
    ensures Round2(7.8) == 7.8
  {
    assert (0.125 * 100.0 + 0.5).Floor == 13;
    assert (-0.125 * 100.0 + 0.5).Floor == -12;
    assert (7.8 * 100.0 + 0.5).Floor == 780;
  }

  lemma Round2Monotone(x: real, y: real)
    requires x <= y
    ensures Round2(x) <= Round2(y)
  {
    assert (x * 100.0 + 0.5).Floor <= (y * 100.0 + 0.5).Floor;
  }

  /** A value that already has at most two decimals is left as it is. */
  lemma Round2OfHundredths(k: int)
    ensures Round2(k as real / 100.0) == k as real / 100.0
  {
    assert (k as real / 100.0) * 100.0 + 0.5 == k as real + 0.5;
    assert (k as real + 0.5).Floor == k;
  }

  lemma Round2Idempotent(x: real)
    ensures Round2(Round2(x)) == Round2(x)
  {
    Round2OfHundredths((x * 100.0 + 0.5).Floor);
  }

  /** Rounding a value of the closed interval [lo, hi] whose ends have two
      decimals stays in that interval. */
  lemma Round2Within(x: real, lo: int, hi: int)
    requires lo as real / 100.0 <= x <= hi as real / 100.0
    ensures lo as real / 100.0 <= Round2(x) <= hi as real / 100.0
  {
    Round2Monotone(lo as real / 100.0, x);
    Round2Monotone(x, hi as real / 100.0);
    Round2OfHundredths(lo);
    Round2OfHundredths(hi);
  }

  // ---------------------------------------------------------------------------
  // Array operations on rosters
  // ---------------------------------------------------------------------------

  /** `s.filter(p)`: the elements satisfying `p`, in their order, with their multiplicity. */
  function Filter<T(!new)>(s: seq<T>, p: T -> bool): (r: seq<T>)
    ensures |r| <= |s|
    ensures forall i :: 0 <= i < |r| ==> p(r[i])
    ensures forall x :: x in r <==> x in s && p(x)
  {
    if s == [] then [] else (if p(s[0]) then [s[0]] else []) + Filter(s[1..], p)
  }

  /** The filter keeps each accepted element as often as it occurs and drops every other. */
  lemma {:induction false} FilterCount<T(!new)>(s: seq<T>, p: T -> bool, x: T)
    ensures multiset(Filter(s, p))[x] == if p(x) then multiset(s)[x] else 0
  {
    if s != [] {
      assert s == [s[0]] + s[1..];
      FilterCount(s[1..], p, x);
    }
  }

  /** Filtering distributes over concatenation, so it keeps the order of the rows it keeps. */
  lemma {:induction false} FilterAppend<T(!new)>(a: seq<T>, b: seq<T>, p: T -> bool)
    ensures Filter(a + b, p) == Filter(a, p) + Filter(b, p)
  {
    if a == [] {
      assert a + b == b;
    } else {
      assert (a + b)[1..] == a[1..] + b;
      FilterAppend(a[1..], b, p);
    }
  }

  /** A filter that rejects nothing returns its input unchanged. */
  lemma {:induction false} FilterKeepsAll<T(!new)>(s: seq<T>, p: T -> bool)
    requires forall i :: 0 <= i < |s| ==> p(s[i])
    ensures Filter(s, p) == s
  {
    if s != [] {
      FilterKeepsAll(s[1..], p);
    }
  }

  /** `s.map(x => p(x) ? f(x) : x)`: same length, rows satisfying `p` rewritten, the others identical. */
  function MapWhere<T>(s: seq<T>, p: T -> bool, f: T -> T): (r: seq<T>)
    ensures |r| == |s|
    ensures forall i :: 0 <= i < |s| ==> r[i] == if p(s[i]) then f(s[i]) else s[i]
  {
    if s == [] then [] else [if p(s[0]) then f(s[0]) else s[0]] + MapWhere(s[1..], p, f)
  }

  /** The total a `forEach` accumulates from 0 when it adds `f(x)` for each `x` in turn. */
  function SumOf<T>(s: seq<T>, f: T -> real): real
  {
    if s == [] then 0.0 else SumOf(s[..|s| - 1], f) + f(s[|s| - 1])
  }

  /** Sums of positive terms are positive. */
  lemma {:induction false} SumOfPositive<T>(s: seq<T>, f: T -> real)
    requires |s| > 0
    requires forall i :: 0 <= i < |s| ==> f(s[i]) > 0.0
    ensures SumOf(s, f) > 0.0
  {
    if |s| > 1 {
      SumOfPositive(s[..|s| - 1], f);
    }
  }

  /** Term-by-term smaller gives a smaller sum. */
  lemma {:induction false} SumOfMonotone<T>(s: seq<T>, f: T -> real, g: T -> real)
    requires forall i :: 0 <= i < |s| ==> f(s[i]) <= g(s[i])
    ensures SumOf(s, f) <= SumOf(s, g)
  {
    if s != [] {
      SumOfMonotone(s[..|s| - 1], f, g);
    }
  }

  /** `x => c * w(x)`. */
  function Scaled<T>(c: real, w: T -> real): T -> real
  {
    (x: T) => c * w(x)
  }

  /** A constant factor comes out of a sum. */
  lemma {:induction false} SumOfScaled<T>(s: seq<T>, c: real, w: T -> real)
    ensures SumOf(s, Scaled(c, w)) == c * SumOf(s, w)
  {
    if s != [] {
      SumOfScaled(s[..|s| - 1], c, w);
      Distribute(c, SumOf(s[..|s| - 1], w), w(s[|s| - 1]));
    }
  }

  /** Multiplying `lo <= x <= hi` by a non-negative factor. */
  lemma MulBetween(c: real, x: real, lo: real, hi: real)
    requires c >= 0.0 && lo <= x <= hi
    ensures lo * c <= x * c <= hi * c
  {
    assert x * c - lo * c == (x - lo) * c;
    assert hi * c - x * c == (hi - x) * c;
  }

  lemma Distribute(c: real, a: real, b: real)
    ensures c * (a + b) == c * a + c * b
  {
  }

  /** If every term `f(x)` is at least `lo * w(x)`, the sum of the `f` terms is at least
      `lo` times the sum of the weights. The requires reads `lo * w(s[i]) <= f(s[i])`;
      it is written through `Scaled` so that it matches the terms `SumOfMonotone` sums. */
  lemma SumOfAbove<T>(s: seq<T>, w: T -> real, f: T -> real, lo: real)
    requires forall i :: 0 <= i < |s| ==> Scaled(lo, w)(s[i]) <= f(s[i])
    ensures lo * SumOf(s, w) <= SumOf(s, f)
  {
    SumOfMonotone(s, Scaled(lo, w), f);
    SumOfScaled(s, lo, w);
  }

  /** If every term `f(x)` is at most `hi * w(x)`, the sum of the `f` terms is at most
      `hi` times the sum of the weights: with `SumOfAbove`, the core of "a weighted
      average lies between the bounds of what it averages". The requires reads
      `f(s[i]) <= hi * w(s[i])`, written through `Scaled` as in `SumOfAbove`. */
  lemma SumOfBelow<T>(s: seq<T>, w: T -> real, f: T -> real, hi: real)
    requires forall i :: 0 <= i < |s| ==> f(s[i]) <= Scaled(hi, w)(s[i])
    ensures SumOf(s, f) <= hi * SumOf(s, w)
  {
    SumOfMonotone(s, f, Scaled(hi, w));
    SumOfScaled(s, hi, w);
  }

  /** Dividing by a positive total keeps the bounds the weighted sum had. */
  lemma QuotientBetween(num: real, den: real, lo: real, hi: real)
    requires den > 0.0
    requires lo * den <= num <= hi * den
    ensures lo <= num / den <= hi
  {
    assert num / den - lo == (num - lo * den) / den;
    assert hi - num / den == (hi * den - num) / den;
  }

  /** The smallest `f(x)` over a non-empty sequence. */
  function MinOf<T>(s: seq<T>, f: T -> real): (m: real)
    requires |s| > 0
    ensures forall i :: 0 <= i < |s| ==> m <= f(s[i])
    ensures exists i :: 0 <= i < |s| && f(s[i]) == m
  {
    if |s| == 1 then f(s[0])
    else
      var m := MinOf(s[1..], f);
      assert forall i :: 1 <= i < |s| ==> s[i] == s[1..][i - 1];
      if f(s[0]) <= m then f(s[0]) else m
  }

  /** The largest `f(x)` over a non-empty sequence. */
  function MaxOf<T>(s: seq<T>, f: T -> real): (m: real)
    requires |s| > 0
    ensures forall i :: 0 <= i < |s| ==> f(s[i]) <= m
    ensures exists i :: 0 <= i < |s| && f(s[i]) == m
  {
    if |s| == 1 then f(s[0])
    else
      var m := MaxOf(s[1..], f);
      assert forall i :: 1 <= i < |s| ==> s[i] == s[1..][i - 1];
      if f(s[0]) >= m then f(s[0]) else m
  }

  // ---------------------------------------------------------------------------
  // Threshold tables
  // ---------------------------------------------------------------------------

  /** Looks a score up in a table of (threshold, band) pairs, highest threshold
      first: the band of the first threshold the score reaches, `fallback` if none. */
  function Classify<B>(table: seq<(real, B)>, score: real, fallback: B): B
  {
    if table == [] then fallback
    else if score >= table[0].0 then table[0].1
    else Classify(table[1..], score, fallback)
  }

  // ---------------------------------------------------------------------------
  // Row numbers as text
  // ---------------------------------------------------------------------------

  predicate IsDigits(s: string)
  {
    forall i :: 0 <= i < |s| ==> '0' <= s[i] <= '9'
  }

  /** The number a string of decimal digits denotes. */
  function DigitsValue(s: string): nat
    requires IsDigits(s)
  {
    if s == [] then 0 else 10 * DigitsValue(s[..|s| - 1]) + (s[|s| - 1] - '0') as nat
  }

  /** JavaScript's text for a whole number, as in `"Subject " + (i + 1)`:
      decimal digits, no leading zero, denoting `n`. */
  function NatToString(n: nat): (s: string)
    ensures |s| >= 1 && IsDigits(s)
    ensures s[0] == '0' ==> s == "0"
    ensures DigitsValue(s) == n
  {
    var last := ['0' + (n % 10) as char];
    if n < 10 then last
    else
      var s := NatToString(n / 10) + last;
      assert s[..|s| - 1] == NatToString(n / 10);
      s
  }

  /** Different numbers behind the same prefix give different labels. */
  lemma NumberedLabelsDiffer(prefix: string, m: nat, n: nat)
    requires m != n
    ensures prefix + NatToString(m) != prefix + NatToString(n)
  {
    var a, b := NatToString(m), NatToString(n);
    assert (prefix + a)[|prefix|..] == a;
    assert (prefix + b)[|prefix|..] == b;
  }

  /** Different numbers get different texts. */
  lemma NatToStringInjective(m: nat, n: nat)
    requires NatToString(m) == NatToString(n)
    ensures m == n
  {
  }
}
