/** The statistics of one window of the monthly table (`get_window_stats`):
    the rows whose year lies within half the window size of a centre year,
    and the means, extremes, cumulative totals, extreme-event rates and
    per-season figures computed from them. */
module ClimateWindow {
  import opened Common
  import opened Series
  import opened Table

  // ---------------------------------------------------------------------
  // Window selection

  /** Python's `w // 2`. Dafny's `/` rounds towards minus infinity for a
      positive divisor, exactly like Python's floor division. */
  function HalfWidth(w: int): int
  {
    w / 2
  }

  lemma HalfWidthIsFloor(w: int)
    ensures 2 * HalfWidth(w) <= w < 2 * HalfWidth(w) + 2
  {
  }

  predicate InBand(r: Row, center: int, w: int)
  {
    center - HalfWidth(w) <= r.year <= center + HalfWidth(w)
  }

  /** The rows of the window, in table order (a boolean mask over the table). */
  function SelectWindow(rows: seq<Row>, center: int, w: int): (window: seq<Row>)
    ensures |window| <= |rows|
    ensures forall r :: r in window <==> r in rows && InBand(r, center, w)
  {
    if |rows| == 0 then []
    else
      var rest := SelectWindow(rows[..|rows| - 1], center, w);
      var last := rows[|rows| - 1];
      assert forall r :: r in rows <==> r in rows[..|rows| - 1] || r == last;
      if InBand(last, center, w) then rest + [last] else rest
  }

  /** Selection keeps the table's order: it distributes over concatenation. */
  lemma {:induction false} SelectWindowAppend(a: seq<Row>, b: seq<Row>, center: int, w: int)
    ensures SelectWindow(a + b, center, w) == SelectWindow(a, center, w) + SelectWindow(b, center, w)
    decreases |b|
  {
    if |b| == 0 {
      assert a + b == a;
    } else {
      var n := |b| - 1;
      assert (a + b)[..|a + b| - 1] == a + b[..n];
      assert (a + b)[|a + b| - 1] == b[n];
      SelectWindowAppend(a, b[..n], center, w);
    }
  }

  /** Two window sizes with the same half width select the same rows; in
      particular the sizes 4 and 5 both select `[center - 2, center + 2]`. */
  lemma {:induction false} SelectWindowSameHalfWidth(rows: seq<Row>, center: int, w1: int, w2: int)
    requires HalfWidth(w1) == HalfWidth(w2)
    ensures SelectWindow(rows, center, w1) == SelectWindow(rows, center, w2)
  {
    if |rows| > 0 {
      SelectWindowSameHalfWidth(rows[..|rows| - 1], center, w1, w2);
    }
  }

  /** A negative window size selects nothing: its band is empty. */
  lemma {:induction false} NegativeSizeSelectsNothing(rows: seq<Row>, center: int, w: int)
    requires w < 0
    ensures SelectWindow(rows, center, w) == []
  {
    if |rows| > 0 {
      NegativeSizeSelectsNothing(rows[..|rows| - 1], center, w);
    }
  }

  // ---------------------------------------------------------------------
  // Statistics

  /** The in-window 95th percentiles of the three columns that define
      extreme events, computed by the caller. */
  datatype Thresholds = Thresholds(temperatureMax: real, precipitation: real, windSpeedMax: real)

  datatype Means = Means(tempMean: real, cloudCover: real, radiation: real, humidityMean: real)

  datatype Extremes = Extremes(tempMax: real, tempMin: real, windMax: real, humidityMax: real, humidityMin: real)

  datatype Cumulative = Cumulative(precipAnnualMean: real, precipMonthlyMax: real,
                                   snowAnnualMean: real, snowMonthlyMax: real)

  datatype ExtremeEvents = ExtremeEvents(hotDaysAnnual: real, heavyRainAnnual: real, highWindAnnual: real)

  /** The figures of one season; NaN when the window holds none of its months. */
  datatype SeasonStats = SeasonStats(tempMean: Value, tempMax: Value, tempMin: Value,
                                     precipTotal: Value, windMax: Value)

  /** The statistics of a non-empty window; `seasonal` is the ordered
      dictionary from season name to that season's figures. */
  datatype WindowStats = WindowStats(means: Means, extremes: Extremes, cumulative: Cumulative,
                                     extremeEvents: ExtremeEvents, seasonal: seq<(string, SeasonStats)>)

  function MeansOf(window: seq<Row>): Means
    requires |window| > 0
  {
    Means(
      Mean(Column(window, TemperatureMean)),
      Mean(Column(window, CloudCoverMean)),
      Mean(Column(window, RadiationSum)),
      (Mean(Column(window, HumidityMax)) + Mean(Column(window, HumidityMin))) / 2.0)
  }

  function ExtremesOf(window: seq<Row>): Extremes
    requires |window| > 0
  {
    Extremes(
      Max(Column(window, TemperatureMax)),
      Min(Column(window, TemperatureMin)),
      Max(Column(window, WindSpeedMax)),
      Max(Column(window, HumidityMax)),
      Min(Column(window, HumidityMin)))
  }

  /** The distinct years of a table, in order of first appearance. */
  function Years(rows: seq<Row>): (ys: seq<int>)
    ensures forall i, j :: 0 <= i < j < |ys| ==> ys[i] != ys[j]
    ensures forall y :: y in ys <==> exists r :: r in rows && r.year == y
  {
    if |rows| == 0 then []
    else
      var prefix := rows[..|rows| - 1];
      var last := rows[|rows| - 1];
      var ys := Years(prefix);
      assert forall r :: r in rows <==> r in prefix || r == last;
      if last.year in ys then ys else ys + [last.year]
  }

  /** The rows of one year, in table order. */
  function InYear(rows: seq<Row>, y: int): seq<Row>
  {
    if |rows| == 0 then []
    else InYear(rows[..|rows| - 1], y) + (if rows[|rows| - 1].year == y then [rows[|rows| - 1]] else [])
  }

  /** `groupby('year').agg('sum')` for one column, one entry per year of `ys`. */
  function YearSums(rows: seq<Row>, ys: seq<int>, f: Field): seq<real>
  {
    seq(|ys|, i requires 0 <= i < |ys| => Sum(Column(InYear(rows, ys[i]), f)))
  }

  function CumulativeOf(window: seq<Row>): Cumulative
    requires |window| > 0
  {
    assert window[0] in window;
    Cumulative(
      Mean(YearSums(window, Years(window), PrecipitationSum)),
      Max(Column(window, PrecipitationSum)),
      Mean(YearSums(window, Years(window), SnowfallSum)),
      Max(Column(window, SnowfallSum)))
  }

  /** Exceedances divided by the REQUESTED window size, not by the number of
      years actually present. */
  function Rate(count: nat, w: int): real
    requires w != 0
  {
    count as real / w as real
  }

  function ExtremeEventsOf(window: seq<Row>, w: int, th: Thresholds): ExtremeEvents
    requires w != 0
  {
    ExtremeEvents(
      Rate(CountAbove(Column(window, TemperatureMax), th.temperatureMax), w),
      Rate(CountAbove(Column(window, PrecipitationSum), th.precipitation), w),
      Rate(CountAbove(Column(window, WindSpeedMax), th.windSpeedMax), w))
  }

  // ---------------------------------------------------------------------
  // Seasons

  /** The four meteorological seasons in the order the analysis visits them. */
  const Seasons: seq<(string, seq<int>)> :=
    [("winter", [12, 1, 2]), ("spring", [3, 4, 5]), ("summer", [6, 7, 8]), ("autumn", [9, 10, 11])]

  /** The rows whose month is one of `months` (`isin(months)`), in table order. */
  function InMonths(rows: seq<Row>, months: seq<int>): seq<Row>
  {
    if |rows| == 0 then []
    else InMonths(rows[..|rows| - 1], months) + (if rows[|rows| - 1].month in months then [rows[|rows| - 1]] else [])
  }

  function SeasonStatsOf(window: seq<Row>, months: seq<int>): SeasonStats
  {
    var bucket := InMonths(window, months);
    SeasonStats(
      MeanOf(Column(bucket, TemperatureMean)),
      MaxOf(Column(bucket, TemperatureMax)),
      MinOf(Column(bucket, TemperatureMin)),
      Scale(MeanOf(Column(bucket, PrecipitationSum)), 3.0),
      MaxOf(Column(bucket, WindSpeedMax)))
  }

  /** The seasonal dictionary, one entry per season in `Seasons` order. */
  function SeasonalOf(window: seq<Row>): seq<(string, SeasonStats)>
  {
    seq(|Seasons|, i requires 0 <= i < |Seasons| => (Seasons[i].0, SeasonStatsOf(window, Seasons[i].1)))
  }

  /** Fills the seasonal dictionary one season at a time. */
  method FillSeasonalStats(window: seq<Row>) returns (stats: seq<(string, SeasonStats)>)
    ensures stats == SeasonalOf(window)
  {
    stats := [];
    var i := 0;
    while i < |Seasons|
      invariant 0 <= i <= |Seasons|
      invariant stats == SeasonalOf(window)[..i]
    {
      var (season, months) := Seasons[i];
      stats := stats + [(season, SeasonStatsOf(window, months))];
      i := i + 1;
    }
  }

  function StatsOf(window: seq<Row>, w: int, th: Thresholds): WindowStats
    requires |window| > 0 && w != 0
  {
    WindowStats(MeansOf(window), ExtremesOf(window), CumulativeOf(window),
                ExtremeEventsOf(window, w, th), SeasonalOf(window))
  }

  /** `get_window_stats`: no statistics (None) for an empty window, a
      division by zero for a window size of zero, the statistics otherwise. */
  function WindowStatsOf(rows: seq<Row>, center: int, w: int, th: Thresholds): Result<Option<WindowStats>>
  {
    var window := SelectWindow(rows, center, w);
    if |window| == 0 then Ok(None)
    else if w == 0 then Err(ZeroDivisionError)
    else Ok(Some(StatsOf(window, w, th)))
  }

  method GetWindowStats(rows: seq<Row>, center: int, w: int, th: Thresholds) returns (r: Result<Option<WindowStats>>)
    ensures r == WindowStatsOf(rows, center, w, th)
  {
    var window := SelectWindow(rows, center, w);
    if |window| == 0 {
      return Ok(None);
    }
    var means := MeansOf(window);
    var extremes := ExtremesOf(window);
    var cumulative := CumulativeOf(window);
    if w == 0 {
      return Err(ZeroDivisionError);
    }
    var events := ExtremeEventsOf(window, w, th);
    var seasonal := FillSeasonalStats(window);
    return Ok(Some(WindowStats(means, extremes, cumulative, events, seasonal)));
  }
}
