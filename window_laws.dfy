/** What the window statistics mean: which rows a window holds, bounds
    on its means and extremes, the arithmetic of its annual totals and
    extreme-event rates, and the season partition. */
module WindowLaws {
  import opened Common
  import opened Series
  import opened Table
  import opened ClimateWindow

  /** An empty window, and only an empty window, yields no statistics. */
  lemma NoneIffEmptyWindow(rows: seq<Row>, center: int, w: int, th: Thresholds)
    ensures WindowStatsOf(rows, center, w, th) == Ok(None) <==>
            forall r :: r in rows ==> !InBand(r, center, w)
  {
    var window := SelectWindow(rows, center, w);
    if |window| > 0 {
      assert window[0] in window;
    }
  }

  /** Statistics exist only for a positive window size: a negative size
      selects nothing and a zero size divides by zero. */
  lemma StatsNeedPositiveSize(rows: seq<Row>, center: int, w: int, th: Thresholds)
    requires WindowStatsOf(rows, center, w, th).Ok? && WindowStatsOf(rows, center, w, th).value.Some?
    ensures w > 0
  {
    if w < 0 {
      NegativeSizeSelectsNothing(rows, center, w);
    }
  }

  /** Statistics are computed from the window's rows: they exist exactly
      when the window is non-empty and the size is positive. */
  lemma StatsOfNonEmptyWindow(rows: seq<Row>, center: int, w: int, th: Thresholds)
    requires w > 0 && exists r :: r in rows && InBand(r, center, w)
    ensures WindowStatsOf(rows, center, w, th) == Ok(Some(StatsOf(SelectWindow(rows, center, w), w, th)))
  {
    var r :| r in rows && InBand(r, center, w);
    assert r in SelectWindow(rows, center, w);
  }

  /** Each mean lies between the smallest and largest value of its column;
      the humidity mean, the average of the two humidity column means,
      equals the mean of the row-by-row humidity averages. */
  lemma WindowMeans(window: seq<Row>)
    requires |window| > 0
    ensures var m := MeansOf(window);
      && Min(Column(window, TemperatureMean)) <= m.tempMean <= Max(Column(window, TemperatureMean))
      && Min(Column(window, CloudCoverMean)) <= m.cloudCover <= Max(Column(window, CloudCoverMean))
      && Min(Column(window, RadiationSum)) <= m.radiation <= Max(Column(window, RadiationSum))
      && m.humidityMean == Mean(PairwiseMean(Column(window, HumidityMax), Column(window, HumidityMin)))
  {
    MeanWithinExtremes(Column(window, TemperatureMean));
    MeanWithinExtremes(Column(window, CloudCoverMean));
    MeanWithinExtremes(Column(window, RadiationSum));
    MeanOfMeans(Column(window, HumidityMax), Column(window, HumidityMin));
  }

  /** `v` bounds column `f` of the window from above and some row attains it. */
  predicate AttainedMax(window: seq<Row>, f: Field, v: real)
  {
    (forall r :: r in window ==> Get(r.reading, f) <= v) && (exists r :: r in window && Get(r.reading, f) == v)
  }

  /** `v` bounds column `f` of the window from below and some row attains it. */
  predicate AttainedMin(window: seq<Row>, f: Field, v: real)
  {
    (forall r :: r in window ==> v <= Get(r.reading, f)) && (exists r :: r in window && Get(r.reading, f) == v)
  }

  lemma ColumnMax(window: seq<Row>, f: Field)
    requires |window| > 0
    ensures AttainedMax(window, f, Max(Column(window, f)))
  {
    var c := Column(window, f);
    var i :| 0 <= i < |c| && c[i] == Max(c);
    assert window[i] in window;
    forall r | r in window ensures Get(r.reading, f) <= Max(c) {
      var j :| 0 <= j < |window| && window[j] == r;
      assert c[j] == Get(r.reading, f);
    }
  }

  lemma ColumnMin(window: seq<Row>, f: Field)
    requires |window| > 0
    ensures AttainedMin(window, f, Min(Column(window, f)))
  {
    var c := Column(window, f);
    var i :| 0 <= i < |c| && c[i] == Min(c);
    assert window[i] in window;
    forall r | r in window ensures Min(c) <= Get(r.reading, f) {
      var j :| 0 <= j < |window| && window[j] == r;
      assert c[j] == Get(r.reading, f);
    }
  }

  /** The extremes and the monthly maxima are bounds attained by some row. */
  lemma WindowExtremes(window: seq<Row>)
    requires |window| > 0
    ensures var e := ExtremesOf(window);
      && AttainedMax(window, TemperatureMax, e.tempMax)
      && AttainedMin(window, TemperatureMin, e.tempMin)
      && AttainedMax(window, WindSpeedMax, e.windMax)
      && AttainedMax(window, HumidityMax, e.humidityMax)
      && AttainedMin(window, HumidityMin, e.humidityMin)
    ensures var c := CumulativeOf(window);
      && AttainedMax(window, PrecipitationSum, c.precipMonthlyMax)
      && AttainedMax(window, SnowfallSum, c.snowMonthlyMax)
  {
    ColumnMax(window, TemperatureMax);
    ColumnMin(window, TemperatureMin);
    ColumnMax(window, WindSpeedMax);
    ColumnMax(window, HumidityMax);
    ColumnMin(window, HumidityMin);
    ColumnMax(window, PrecipitationSum);
    ColumnMax(window, SnowfallSum);
  }

  /** Adding `v` at position `j` adds `v` to the sum. */
  lemma {:induction false} SumBump(s: seq<real>, j: nat, v: real)
    requires j < |s|
    ensures Sum(s[j := s[j] + v]) == Sum(s) + v
  {
    var n := |s| - 1;
    if j < n {
      assert s[j := s[j] + v][..n] == s[..n][j := s[..n][j] + v];
      SumBump(s[..n], j, v);
    } else {
      assert s[j := s[j] + v][..n] == s[..n];
    }
  }

  /** The last row adds its value to the sum of its own year only. */
  lemma InYearSumLast(rows: seq<Row>, y: int, f: Field)
    requires |rows| > 0
    ensures var n := |rows| - 1;
      Sum(Column(InYear(rows, y), f)) ==
      Sum(Column(InYear(rows[..n], y), f)) + (if rows[n].year == y then Get(rows[n].reading, f) else 0.0)
  {
    var n := |rows| - 1;
    var tail: seq<Row> := if rows[n].year == y then [rows[n]] else [];
    ColumnAppend(InYear(rows[..n], y), tail, f);
    SumAppend(Column(InYear(rows[..n], y), f), Column(tail, f));
    if rows[n].year == y {
      assert Column(tail, f) == [Get(rows[n].reading, f)];
      assert Column(tail, f)[..0] == [];
    } else {
      assert Column(tail, f) == [];
    }
  }

  /** The per-year sums of a column add up to its total, whenever `ys`
      lists every year of the table exactly once. */
  lemma {:induction false} YearSumsTotal(rows: seq<Row>, ys: seq<int>, f: Field)
    requires forall i, j :: 0 <= i < j < |ys| ==> ys[i] != ys[j]
    requires forall r :: r in rows ==> r.year in ys
    ensures Sum(YearSums(rows, ys, f)) == Sum(Column(rows, f))
  {
    if |rows| == 0 {
      YearSumsEmpty(rows, ys, f);
    } else {
      var n := |rows| - 1;
      assert forall r :: r in rows[..n] ==> r in rows;
      YearSumsTotal(rows[..n], ys, f);
      YearSumsLast(rows, ys, f);
      SumColumnLast(rows, f);
    }
  }

  lemma YearSumsEmpty(rows: seq<Row>, ys: seq<int>, f: Field)
    requires |rows| == 0
    ensures Sum(YearSums(rows, ys, f)) == 0.0
  {
    assert forall i :: 0 <= i < |ys| ==> InYear(rows, ys[i]) == [];
    ZeroSum(YearSums(rows, ys, f));
  }

  lemma SumColumnLast(rows: seq<Row>, f: Field)
    requires |rows| > 0
    ensures var n := |rows| - 1;
      Sum(Column(rows, f)) == Sum(Column(rows[..n], f)) + Get(rows[n].reading, f)
  {
    assert Column(rows, f)[..|rows| - 1] == Column(rows[..|rows| - 1], f);
  }

  /** The last row of the table adds its value to the sum of its own year
      and to no other. */
  lemma YearSumsLast(rows: seq<Row>, ys: seq<int>, f: Field)
    requires forall i, k :: 0 <= i < k < |ys| ==> ys[i] != ys[k]
    requires |rows| > 0 && rows[|rows| - 1] in rows && rows[|rows| - 1].year in ys
    ensures var n := |rows| - 1;
      Sum(YearSums(rows, ys, f)) == Sum(YearSums(rows[..n], ys, f)) + Get(rows[n].reading, f)
  {
    var n := |rows| - 1;
    var j :| 0 <= j < |ys| && ys[j] == rows[n].year;
    var before := YearSums(rows[..n], ys, f);
    var v := Get(rows[n].reading, f);
    var after := before[j := before[j] + v];
    forall i | 0 <= i < |ys| ensures YearSums(rows, ys, f)[i] == after[i] {
      InYearSumLast(rows, ys[i], f);
    }
    assert YearSums(rows, ys, f) == after;
    SumBump(before, j, v);
  }

  lemma {:induction false} ZeroSum(s: seq<real>)
    requires forall i :: 0 <= i < |s| ==> s[i] == 0.0
    ensures Sum(s) == 0.0
  {
    if |s| > 0 {
      ZeroSum(s[..|s| - 1]);
    }
  }

  /** The annual means are the window's total precipitation (snowfall)
      divided by the number of distinct years the window holds. */
  lemma AnnualMeans(window: seq<Row>)
    requires |window| > 0
    ensures |Years(window)| > 0
    ensures CumulativeOf(window).precipAnnualMean ==
            Sum(Column(window, PrecipitationSum)) / |Years(window)| as real
    ensures CumulativeOf(window).snowAnnualMean ==
            Sum(Column(window, SnowfallSum)) / |Years(window)| as real
  {
    assert window[0] in window;
    YearSumsTotal(window, Years(window), PrecipitationSum);
    YearSumsTotal(window, Years(window), SnowfallSum);
  }

  /** Each rate is the exceedance count over the requested size, so it lies
      between 0 and the window's row count over the requested size. */
  lemma EventRates(window: seq<Row>, w: int, th: Thresholds)
    requires w > 0
    ensures var e := ExtremeEventsOf(window, w, th);
      && e.hotDaysAnnual == CountAbove(Column(window, TemperatureMax), th.temperatureMax) as real / w as real
      && e.heavyRainAnnual == CountAbove(Column(window, PrecipitationSum), th.precipitation) as real / w as real
      && e.highWindAnnual == CountAbove(Column(window, WindSpeedMax), th.windSpeedMax) as real / w as real
      && 0.0 <= e.hotDaysAnnual <= |window| as real / w as real
      && 0.0 <= e.heavyRainAnnual <= |window| as real / w as real
      && 0.0 <= e.highWindAnnual <= |window| as real / w as real
  {
    var e := ExtremeEventsOf(window, w, th);
    var hot := CountAbove(Column(window, TemperatureMax), th.temperatureMax);
    var rain := CountAbove(Column(window, PrecipitationSum), th.precipitation);
    var wind := CountAbove(Column(window, WindSpeedMax), th.windSpeedMax);
    assert e == ExtremeEvents(Rate(hot, w), Rate(rain, w), Rate(wind, w));
    RateBounds(hot, |window|, w);
    RateBounds(rain, |window|, w);
    RateBounds(wind, |window|, w);
  }

  lemma RateBounds(count: nat, n: nat, w: int)
    requires w > 0 && count <= n
    ensures 0.0 <= Rate(count, w) <= n as real / w as real
  {
    QuotientAtMost(count as real, w as real, n as real / w as real);
  }

  /** Every calendar month belongs to exactly one season. */
  lemma SeasonsPartitionMonths(m: int)
    requires 1 <= m <= 12
    ensures exists i :: 0 <= i < |Seasons| && m in Seasons[i].1
    ensures forall i, j :: 0 <= i < |Seasons| && 0 <= j < |Seasons| && m in Seasons[i].1 && m in Seasons[j].1 ==> i == j
  {
    if m in Seasons[0].1 {
    } else if m in Seasons[1].1 {
    } else if m in Seasons[2].1 {
    } else {
      assert m in Seasons[3].1;
    }
  }

  function BucketSizes(window: seq<Row>): nat
  {
    |InMonths(window, Seasons[0].1)| + |InMonths(window, Seasons[1].1)|
    + |InMonths(window, Seasons[2].1)| + |InMonths(window, Seasons[3].1)|
  }

  /** A bucket holds exactly the rows whose month is one of `months`, and
      no more rows than the table. */
  lemma {:induction false} InMonthsMembers(rows: seq<Row>, months: seq<int>)
    ensures |InMonths(rows, months)| <= |rows|
    ensures forall r :: r in InMonths(rows, months) <==> r in rows && r.month in months
  {
    if |rows| > 0 {
      var prefix := rows[..|rows| - 1];
      InMonthsMembers(prefix, months);
      assert forall r :: r in rows <==> r in prefix || r == rows[|rows| - 1];
    }
  }

  /** A row with a calendar month lies in exactly one season bucket. */
  lemma RowInOneBucket(window: seq<Row>, r: Row)
    requires r in window && 1 <= r.month <= 12
    ensures exists k :: 0 <= k < |Seasons| && r in InMonths(window, Seasons[k].1)
    ensures forall k, j :: 0 <= k < |Seasons| && 0 <= j < |Seasons| && r in InMonths(window, Seasons[k].1) && r in InMonths(window, Seasons[j].1) ==> k == j
  {
    SeasonsPartitionMonths(r.month);
    forall k | 0 <= k < |Seasons| ensures r in InMonths(window, Seasons[k].1) <==> r.month in Seasons[k].1 {
      InMonthsMembers(window, Seasons[k].1);
    }
  }

  /** The season buckets split the window: every row lies in exactly one,
      and together they hold as many rows as the window. */
  lemma SeasonBucketsPartitionWindow(window: seq<Row>)
    requires forall r :: r in window ==> 1 <= r.month <= 12
    ensures forall r :: r in window ==> exists k :: 0 <= k < |Seasons| && r in InMonths(window, Seasons[k].1)
    ensures forall r, k, j :: (r in window && 0 <= k < |Seasons| && 0 <= j < |Seasons| &&
      r in InMonths(window, Seasons[k].1) && r in InMonths(window, Seasons[j].1)) ==> k == j
    ensures BucketSizes(window) == |window|
  {
    forall r | r in window
      ensures exists k :: 0 <= k < |Seasons| && r in InMonths(window, Seasons[k].1)
      ensures forall k, j :: 0 <= k < |Seasons| && 0 <= j < |Seasons| && r in InMonths(window, Seasons[k].1) && r in InMonths(window, Seasons[j].1) ==> k == j
    {
      RowInOneBucket(window, r);
    }
    BucketSizesTotal(window);
  }

  lemma {:induction false} BucketSizesTotal(window: seq<Row>)
    requires forall r :: r in window ==> 1 <= r.month <= 12
    ensures BucketSizes(window) == |window|
  {
    if |window| > 0 {
      var n := |window| - 1;
      assert forall r :: r in window[..n] ==> r in window;
      BucketSizesTotal(window[..n]);
      assert window[n] in window;
    }
  }

  /** A season's precipitation total is three times its mean monthly
      precipitation, which is the true total when the window holds each of
      the season's months once. */
  lemma SeasonPrecipTotal(window: seq<Row>, months: seq<int>)
    ensures var bucket := InMonths(window, months);
      var s := SeasonStatsOf(window, months);
      && (|bucket| > 0 ==> s.precipTotal == Num(3.0 * Mean(Column(bucket, PrecipitationSum))))
      && (|bucket| == 3 ==> s.precipTotal == Num(Sum(Column(bucket, PrecipitationSum))))
  {
    var bucket := InMonths(window, months);
    if |bucket| == 3 {
      ThreeMeans(Column(bucket, PrecipitationSum));
    }
  }

  lemma ThreeMeans(c: seq<real>)
    requires |c| == 3
    ensures 3.0 * Mean(c) == Sum(c)
  {
  }

  /** A season's statistics are all NaN exactly when none of its months is
      in the window. */
  lemma SeasonAbsentIsNaN(window: seq<Row>, months: seq<int>)
    ensures |InMonths(window, months)| == 0 <==> SeasonStatsOf(window, months) == SeasonStats(NaN, NaN, NaN, NaN, NaN)
  {
    var bucket := InMonths(window, months);
    if |bucket| > 0 {
      assert |Column(bucket, TemperatureMean)| > 0;
    }
  }
}
