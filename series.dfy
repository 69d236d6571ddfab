/** Reductions over one column of a table, as pandas computes them on a
    column with no missing cells. */
module Series {
  import opened Common

  function Sum(s: seq<real>): real
  {
    if |s| == 0 then 0.0 else Sum(s[..|s| - 1]) + s[|s| - 1]
  }

  lemma {:induction false} SumAppend(a: seq<real>, b: seq<real>)
    ensures Sum(a + b) == Sum(a) + Sum(b)
  {
    if |b| == 0 {
      assert a + b == a;
    } else {
      assert (a + b)[..|a + b| - 1] == a + b[..|b| - 1];
      SumAppend(a, b[..|b| - 1]);
    }
  }

  /** The arithmetic mean of a non-empty column. */
  function Mean(s: seq<real>): real
    requires |s| > 0
  {
    Sum(s) / |s| as real
  }

  /** The largest value of a non-empty column: an upper bound that is attained. */
  function Max(s: seq<real>): (m: real)
    requires |s| > 0
    ensures forall i :: 0 <= i < |s| ==> s[i] <= m
    ensures exists i :: 0 <= i < |s| && s[i] == m
  {
    if |s| == 1 then s[0]
    else
      var p := Max(s[..|s| - 1]);
      assert forall i :: 0 <= i < |s| - 1 ==> s[..|s| - 1][i] == s[i];
      if s[|s| - 1] > p then s[|s| - 1] else p
  }

  /** The smallest value of a non-empty column: a lower bound that is attained. */
  function Min(s: seq<real>): (m: real)
    requires |s| > 0
    ensures forall i :: 0 <= i < |s| ==> m <= s[i]
    ensures exists i :: 0 <= i < |s| && s[i] == m
  {
    if |s| == 1 then s[0]
    else
      var p := Min(s[..|s| - 1]);
      assert forall i :: 0 <= i < |s| - 1 ==> s[..|s| - 1][i] == s[i];
      if s[|s| - 1] < p then s[|s| - 1] else p
  }

  /** pandas `mean()`: NaN on an empty column. */
  function MeanOf(s: seq<real>): Value
  {
    if |s| == 0 then NaN else Num(Mean(s))
  }

  /** pandas `max()`: NaN on an empty column. */
  function MaxOf(s: seq<real>): Value
  {
    if |s| == 0 then NaN else Num(Max(s))
  }

  /** pandas `min()`: NaN on an empty column. */
  function MinOf(s: seq<real>): Value
  {
    if |s| == 0 then NaN else Num(Min(s))
  }

  /** The number of values strictly greater than the threshold `t`. */
  function CountAbove(s: seq<real>, t: real): (n: nat)
    ensures n <= |s|
    ensures n == 0 <==> forall i :: 0 <= i < |s| ==> s[i] <= t
    ensures n == |s| <==> forall i :: 0 <= i < |s| ==> s[i] > t
  {
    if |s| == 0 then 0
    else
      var p := CountAbove(s[..|s| - 1], t);
      assert forall i :: 0 <= i < |s| - 1 ==> s[..|s| - 1][i] == s[i];
      p + (if s[|s| - 1] > t then 1 else 0)
  }

  lemma {:induction false} SumAtMost(s: seq<real>, bound: real)
    requires forall i :: 0 <= i < |s| ==> s[i] <= bound
    ensures Sum(s) <= |s| as real * bound
  {
    if |s| > 0 {
      SumAtMost(s[..|s| - 1], bound);
      assert (|s| - 1) as real * bound + bound == |s| as real * bound;
    }
  }

  lemma {:induction false} SumAtLeast(s: seq<real>, bound: real)
    requires forall i :: 0 <= i < |s| ==> bound <= s[i]
    ensures |s| as real * bound <= Sum(s)
  {
    if |s| > 0 {
      SumAtLeast(s[..|s| - 1], bound);
      assert (|s| - 1) as real * bound + bound == |s| as real * bound;
    }
  }

  /** A mean is at most any upper bound of its column. */
  lemma MeanAtMost(s: seq<real>, bound: real)
    requires |s| > 0 && forall i :: 0 <= i < |s| ==> s[i] <= bound
    ensures Mean(s) <= bound
  {
    SumAtMost(s, bound);
    QuotientAtMost(Sum(s), |s| as real, bound);
  }

  /** A mean is at least any lower bound of its column. */
  lemma MeanAtLeast(s: seq<real>, bound: real)
    requires |s| > 0 && forall i :: 0 <= i < |s| ==> bound <= s[i]
    ensures bound <= Mean(s)
  {
    SumAtLeast(s, bound);
    QuotientAtLeast(Sum(s), |s| as real, bound);
  }

  lemma QuotientAtMost(x: real, n: real, bound: real)
    requires n > 0.0 && x <= n * bound
    ensures x / n <= bound
  {
    assert x / n * n == x;
  }

  lemma QuotientAtLeast(x: real, n: real, bound: real)
    requires n > 0.0 && n * bound <= x
    ensures bound <= x / n
  {
    assert x / n * n == x;
  }

  /** A mean lies between the column's minimum and maximum. */
  lemma MeanWithinExtremes(s: seq<real>)
    requires |s| > 0
    ensures Min(s) <= Mean(s) <= Max(s)
  {
    MeanAtMost(s, Max(s));
    MeanAtLeast(s, Min(s));
  }

  /** The row-by-row average of two equally long columns. */
  function PairwiseMean(a: seq<real>, b: seq<real>): seq<real>
    requires |a| == |b|
  {
    seq(|a|, i requires 0 <= i < |a| => (a[i] + b[i]) / 2.0)
  }

  lemma {:induction false} SumPairwiseMean(a: seq<real>, b: seq<real>)
    requires |a| == |b|
    ensures Sum(PairwiseMean(a, b)) == (Sum(a) + Sum(b)) / 2.0
  {
    if |a| > 0 {
      var n := |a| - 1;
      assert PairwiseMean(a, b)[..n] == PairwiseMean(a[..n], b[..n]);
      SumPairwiseMean(a[..n], b[..n]);
    }
  }

  /** Averaging the two column means equals the mean of the row-by-row
      averages in exact arithmetic. */
  lemma MeanOfMeans(a: seq<real>, b: seq<real>)
    requires |a| == |b| > 0
    ensures (Mean(a) + Mean(b)) / 2.0 == Mean(PairwiseMean(a, b))
  {
    SumPairwiseMean(a, b);
    var n := |a| as real;
    assert (Sum(a) / n + Sum(b) / n) / 2.0 == ((Sum(a) + Sum(b)) / 2.0) / n;
  }
}
