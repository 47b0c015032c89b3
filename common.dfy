/** Shared vocabulary: an Option type, JavaScript's two-decimal rounding on
    exact reals, and the sequence folds (sum, maximum, minimum, filter) the
    application writes with `reduce`, `Math.max(...)` and `filter`. */
module Common {

  datatype Option<+T> = None | Some(value: T) {
    function GetOr(default: T): T {
      if Some? then value else default
    }
  }

  // ---------------------------------------------------------------------------
  // Rounding to two decimals

  /** `Math.round(x * 100) / 100`. `Math.round(y)` is `floor(y + 1/2)` for every
      real `y` (halves go up), so the result is within half a cent of `x`. */
  function Round2(x: real): (r: real)
    ensures x - 0.005 < r <= x + 0.005
    ensures IsCents(r)
  {
    var n := (x * 100.0 + 0.5).Floor;
    assert (n as real / 100.0) * 100.0 == n as real;
    n as real / 100.0
  }

  /** A value with at most two decimals: a whole number of hundredths. */
  predicate IsCents(x: real) {
    (x * 100.0).Floor as real == x * 100.0
  }

  /** Rounding keeps order. */
  lemma Round2Monotone(x: real, y: real)
    requires x <= y
    ensures Round2(x) <= Round2(y)
  {
    var a, b := x * 100.0 + 0.5, y * 100.0 + 0.5;
    assert a <= b;
    assert a.Floor as real <= a <= b;
    assert a.Floor <= b.Floor;
  }

  /** A value that already has at most two decimals is left alone. */
  lemma {:induction false} Round2OfCents(x: real)
    requires IsCents(x)
    ensures Round2(x) == x
  {
    var k := (x * 100.0).Floor;
    assert x * 100.0 + 0.5 == k as real + 0.5;
    assert (x * 100.0 + 0.5).Floor == k;
  }

  /** Rounding a value between two two-decimal bounds stays between them. */
  lemma Round2Between(lo: real, x: real, hi: real)
    requires IsCents(lo) && IsCents(hi) && lo <= x <= hi
    ensures lo <= Round2(x) <= hi
  {
    Round2Monotone(lo, x);
    Round2Monotone(x, hi);
    Round2OfCents(lo);
    Round2OfCents(hi);
  }

  /** Rounding keeps an ordered triple ordered. */
  lemma Round2Ordered(lo: real, x: real, hi: real)
    requires lo <= x <= hi
    ensures Round2(lo) <= Round2(x) <= Round2(hi)
  {
    Round2Monotone(lo, x);
    Round2Monotone(x, hi);
  }

  /** A rounded percentage of a part of a whole lies in [0, 100]. */
  lemma {:induction false} Round2Percent(part: real, whole: real)
    requires 0.0 <= part <= whole && whole > 0.0
    ensures 0.0 <= Round2(part / whole * 100.0) <= 100.0
  {
    assert part / whole <= 1.0 by {
      assert part / whole * whole == part;
    }
    assert IsCents(0.0) && IsCents(100.0);
    Round2Between(0.0, part / whole * 100.0, 100.0);
  }

  /** None of a whole, as a rounded percentage, is 0. */
  lemma NoShare(n: real)
    requires n > 0.0
    ensures Round2(0.0 / n * 100.0) == 0.0
  {
    assert 0.0 / n == 0.0;
    Round2OfCents(0.0);
  }

  /** All of a whole, as a rounded percentage, is 100. */
  lemma WholeShare(n: real)
    requires n > 0.0
    ensures Round2(n / n * 100.0) == 100.0
  {
    assert n / n == 1.0;
    Round2OfCents(100.0);
  }

  // ---------------------------------------------------------------------------
  // Folds over sequences (defined from the end, as `reduce` accumulates)

  /** `s.reduce((sum, x) => sum + f(x), 0)`. */
  function SumOf<T>(s: seq<T>, f: T -> real): real
  {
    if s == [] then 0.0 else SumOf(s[..|s| - 1], f) + f(s[|s| - 1])
  }

  /** The sum of terms bounded below and above is bounded by `|s|` times each. */
  lemma {:induction false} SumOfBounds<T>(s: seq<T>, f: T -> real, lo: real, hi: real)
    requires forall i :: 0 <= i < |s| ==> lo <= f(s[i]) <= hi
    ensures |s| as real * lo <= SumOf(s, f) <= |s| as real * hi
  {
    if s != [] {
      var pre := s[..|s| - 1];
      assert forall i :: 0 <= i < |pre| ==> pre[i] == s[i];
      SumOfBounds(pre, f, lo, hi);
      BoundsStep(|pre| as real, lo, hi, SumOf(pre, f), f(s[|s| - 1]));
      assert SumOf(s, f) == SumOf(pre, f) + f(s[|s| - 1]);
      assert |s| as real == |pre| as real + 1.0;
    }
  }

  /** One more term between `lo` and `hi` keeps a sum of `n` such terms
      between `n` times each. */
  lemma BoundsStep(n: real, lo: real, hi: real, sum: real, x: real)
    requires n * lo <= sum <= n * hi && lo <= x <= hi
    ensures (n + 1.0) * lo <= sum + x <= (n + 1.0) * hi
  {
  }

  /** The sum over a concatenation is the sum of the two sums. */
  lemma {:induction false} SumOfAppend<T>(a: seq<T>, b: seq<T>, f: T -> real)
    ensures SumOf(a + b, f) == SumOf(a, f) + SumOf(b, f)
  {
    if b != [] {
      assert (a + b)[..|a + b| - 1] == a + b[..|b| - 1];
      SumOfAppend(a, b[..|b| - 1], f);
    } else {
      assert a + b == a;
    }
  }

  /** Termwise smaller terms have a smaller sum. */
  lemma {:induction false} SumOfMonotone<T>(s: seq<T>, f: T -> real, g: T -> real)
    requires forall i :: 0 <= i < |s| ==> f(s[i]) <= g(s[i])
    ensures SumOf(s, f) <= SumOf(s, g)
  {
    if s != [] {
      var pre := s[..|s| - 1];
      assert forall i :: 0 <= i < |pre| ==> pre[i] == s[i];
      SumOfMonotone(pre, f, g);
    }
  }

  /** `Math.max(...s.map(f))` for a non-empty `s`. */
  function MaxOf<T>(s: seq<T>, f: T -> real): (m: real)
    requires s != []
    ensures forall i :: 0 <= i < |s| ==> f(s[i]) <= m
    ensures exists i :: 0 <= i < |s| && f(s[i]) == m
  {
    if |s| == 1 then f(s[0])
    else
      var pre := s[..|s| - 1];
      var m' := MaxOf(pre, f);
      assert forall i :: 0 <= i < |pre| ==> pre[i] == s[i];
      if f(s[|s| - 1]) > m' then f(s[|s| - 1]) else m'
  }

  /** `Math.min(...s.map(f))` for a non-empty `s`. */
  function MinOf<T>(s: seq<T>, f: T -> real): (m: real)
    requires s != []
    ensures forall i :: 0 <= i < |s| ==> m <= f(s[i])
    ensures exists i :: 0 <= i < |s| && f(s[i]) == m
  {
    if |s| == 1 then f(s[0])
    else
      var pre := s[..|s| - 1];
      var m' := MinOf(pre, f);
      assert forall i :: 0 <= i < |pre| ==> pre[i] == s[i];
      if f(s[|s| - 1]) < m' then f(s[|s| - 1]) else m'
  }

  /** The mean of a non-empty sequence lies between its minimum and maximum. */
  lemma MeanBetween<T>(s: seq<T>, f: T -> real)
    requires s != []
    ensures MinOf(s, f) <= SumOf(s, f) / |s| as real <= MaxOf(s, f)
  {
    MeanWithin(s, f, MinOf(s, f), MaxOf(s, f));
  }

  /** The mean of terms that all lie in [lo, hi] lies in [lo, hi]. */
  lemma MeanWithin<T>(s: seq<T>, f: T -> real, lo: real, hi: real)
    requires s != []
    requires forall i :: 0 <= i < |s| ==> lo <= f(s[i]) <= hi
    ensures lo <= SumOf(s, f) / |s| as real <= hi
  {
    SumOfBounds(s, f, lo, hi);
    QuotientBetween(SumOf(s, f), |s| as real, lo, hi);
  }

  /** With every term in whole cents, the mean rounded to cents still lies
      between the minimum and the maximum. */
  lemma RoundedMeanBetween<T>(s: seq<T>, f: T -> real)
    requires s != []
    requires forall i :: 0 <= i < |s| ==> IsCents(f(s[i]))
    ensures MinOf(s, f) <= Round2(SumOf(s, f) / |s| as real) <= MaxOf(s, f)
  {
    ExtremesAreCents(s, f);
    RoundedMeanWithinExtremes(s, f);
  }

  lemma RoundedMeanWithinExtremes<T>(s: seq<T>, f: T -> real)
    requires s != []
    requires IsCents(MinOf(s, f)) && IsCents(MaxOf(s, f))
    ensures MinOf(s, f) <= Round2(SumOf(s, f) / |s| as real) <= MaxOf(s, f)
  {
    MeanBetween(s, f);
    Round2Between(MinOf(s, f), SumOf(s, f) / |s| as real, MaxOf(s, f));
  }

  lemma ExtremesAreCents<T>(s: seq<T>, f: T -> real)
    requires s != []
    requires forall i :: 0 <= i < |s| ==> IsCents(f(s[i]))
    ensures IsCents(MinOf(s, f)) && IsCents(MaxOf(s, f))
  {
    var i :| 0 <= i < |s| && f(s[i]) == MinOf(s, f);
    var j :| 0 <= j < |s| && f(s[j]) == MaxOf(s, f);
  }

  lemma QuotientBetween(total: real, n: real, lo: real, hi: real)
    requires n > 0.0 && n * lo <= total <= n * hi
    ensures lo <= total / n <= hi
  {
    assert total / n * n == total;
  }

  // ---------------------------------------------------------------------------
  // Filtering and counting

  /** `s.filter(p)`. */
  function Filter<T>(s: seq<T>, p: T -> bool): (r: seq<T>)
    ensures |r| <= |s|
    ensures forall i :: 0 <= i < |r| ==> r[i] in s && p(r[i])
    ensures forall i :: 0 <= i < |s| && p(s[i]) ==> s[i] in r
  {
    if s == [] then []
    else
      var pre := s[..|s| - 1];
      assert s == pre + [s[|s| - 1]];
      Filter(pre, p) + if p(s[|s| - 1]) then [s[|s| - 1]] else []
  }

  /** Filtering distributes over concatenation: it keeps the kept elements in
      their original order. */
  lemma {:induction false} FilterAppend<T>(a: seq<T>, b: seq<T>, p: T -> bool)
    ensures Filter(a + b, p) == Filter(a, p) + Filter(b, p)
  {
    if b == [] {
      assert a + b == a;
    } else {
      assert (a + b)[..|a + b| - 1] == a + b[..|b| - 1];
      FilterAppend(a, b[..|b| - 1], p);
    }
  }

  /** A filter that every element passes changes nothing. */
  lemma {:induction false} FilterAll<T>(s: seq<T>, p: T -> bool)
    requires forall i :: 0 <= i < |s| ==> p(s[i])
    ensures Filter(s, p) == s
  {
    if s != [] {
      var pre := s[..|s| - 1];
      assert s == pre + [s[|s| - 1]];
      assert forall i :: 0 <= i < |pre| ==> pre[i] == s[i];
      FilterAll(pre, p);
      assert Filter(s, p) == Filter(pre, p) + [s[|s| - 1]];
    }
  }

  /** A filter that no element passes keeps nothing. */
  lemma {:induction false} FilterNone<T>(s: seq<T>, p: T -> bool)
    requires forall i :: 0 <= i < |s| ==> !p(s[i])
    ensures Filter(s, p) == []
  {
    if s != [] {
      var pre := s[..|s| - 1];
      assert forall i :: 0 <= i < |pre| ==> pre[i] == s[i];
      FilterNone(pre, p);
    }
  }

  /** Filtering by `p` and then by a stricter `q` is filtering by `q`. */
  lemma {:induction false} FilterNarrow<T>(s: seq<T>, p: T -> bool, q: T -> bool)
    requires forall i :: 0 <= i < |s| && q(s[i]) ==> p(s[i])
    ensures Filter(Filter(s, p), q) == Filter(s, q)
  {
    if s != [] {
      var pre, x := s[..|s| - 1], s[|s| - 1];
      assert forall i :: 0 <= i < |pre| ==> pre[i] == s[i];
      FilterNarrow(pre, p, q);
      FilterAppend(Filter(pre, p), if p(x) then [x] else [], q);
    }
  }

  /** `s.filter(p).length`. */
  function Count<T>(s: seq<T>, p: T -> bool): (n: nat)
    ensures n <= |s|
  {
    |Filter(s, p)|
  }

  /** `s.every(p)`. */
  predicate All<T>(s: seq<T>, p: T -> bool) {
    forall i :: 0 <= i < |s| ==> p(s[i])
  }
}
