/** `analyze_climate_data`: the monthly table gains `year` and `month`
    columns, the statistics of the window around the current year and of
    the window around the target year are computed, and their difference
    is flattened by `compute_changes`. */
module Analysis {
  import opened Common
  import opened Table
  import opened ClimateWindow
  import opened Changes

  /** The monthly table the analysis receives, which it extends in place. */
  class Frame {
    var records: seq<Record>
    var years: seq<int>
    var months: seq<int>

    /** A table with its `date` and climate columns only. */
    constructor (records: seq<Record>)
      ensures this.records == records && years == [] && months == []
    {
      this.records := records;
      years := [];
      months := [];
    }

    /** The `year` and `month` columns exist and agree with `date`. */
    predicate HasCalendarColumns()
      reads this
    {
      && |years| == |records| && |months| == |records|
      && forall i :: 0 <= i < |records| ==> years[i] == records[i].date.year && months[i] == records[i].date.month
    }

    /** `df['year'] = df['date'].dt.year; df['month'] = df['date'].dt.month`. */
    method AddCalendarColumns()
      modifies this
      ensures records == old(records)
      ensures HasCalendarColumns()
    {
      var rs := records;
      years := seq(|rs|, i requires 0 <= i < |rs| => rs[i].date.year);
      months := seq(|rs|, i requires 0 <= i < |rs| => rs[i].date.month);
    }

    /** The table as rows carrying their year and month. */
    function Rows(): (rows: seq<Row>)
      reads this
      requires HasCalendarColumns()
      ensures rows == RowsOf(records)
    {
      var rs, ys, ms := records, years, months;
      seq(|rs|, i requires 0 <= i < |rs| => Row(ys[i], ms[i], rs[i].reading))
    }
  }

  /** The rows of a table once its calendar columns are added. */
  function RowsOf(records: seq<Record>): seq<Row>
  {
    seq(|records|, i requires 0 <= i < |records| => Row(records[i].date.year, records[i].date.month, records[i].reading))
  }

  // ---------------------------------------------------------------------
  // The statistics as the nested dictionary the source builds

  function MeansTree(m: Means): Tree
  {
    Dict([("temp_mean", Leaf(Num(m.tempMean))), ("cloud_cover", Leaf(Num(m.cloudCover))),
          ("radiation", Leaf(Num(m.radiation))), ("humidity_mean", Leaf(Num(m.humidityMean)))])
  }

  function ExtremesTree(e: Extremes): Tree
  {
    Dict([("temp_max", Leaf(Num(e.tempMax))), ("temp_min", Leaf(Num(e.tempMin))),
          ("wind_max", Leaf(Num(e.windMax))), ("humidity_max", Leaf(Num(e.humidityMax))),
          ("humidity_min", Leaf(Num(e.humidityMin)))])
  }

  function CumulativeTree(c: Cumulative): Tree
  {
    Dict([("precip_annual_mean", Leaf(Num(c.precipAnnualMean))), ("precip_monthly_max", Leaf(Num(c.precipMonthlyMax))),
          ("snow_annual_mean", Leaf(Num(c.snowAnnualMean))), ("snow_monthly_max", Leaf(Num(c.snowMonthlyMax)))])
  }

  function EventsTree(e: ExtremeEvents): Tree
  {
    Dict([("hot_days_annual", Leaf(Num(e.hotDaysAnnual))), ("heavy_rain_annual", Leaf(Num(e.heavyRainAnnual))),
          ("high_wind_annual", Leaf(Num(e.highWindAnnual)))])
  }

  function SeasonTree(s: SeasonStats): Tree
  {
    Dict([("temp_mean", Leaf(s.tempMean)), ("temp_max", Leaf(s.tempMax)), ("temp_min", Leaf(s.tempMin)),
          ("precip_total", Leaf(s.precipTotal)), ("wind_max", Leaf(s.windMax))])
  }

  function SeasonalTree(seasonal: seq<(string, SeasonStats)>): Tree
  {
    Dict(seq(|seasonal|, i requires 0 <= i < |seasonal| => (seasonal[i].0, SeasonTree(seasonal[i].1))))
  }

  /** The dictionary `get_window_stats` returns. */
  function ToTree(s: WindowStats): Tree
  {
    Dict([("means", MeansTree(s.means)), ("extremes", ExtremesTree(s.extremes)),
          ("cumulative", CumulativeTree(s.cumulative)), ("extreme_events", EventsTree(s.extremeEvents)),
          ("seasonal", SeasonalTree(s.seasonal))])
  }

  /** The names of the seasonal dictionary are the four seasons, in order. */
  predicate SeasonNames(seasonal: seq<(string, SeasonStats)>)
  {
    |seasonal| == |Seasons| && forall i :: 0 <= i < |seasonal| ==> seasonal[i].0 == Seasons[i].0
  }

  // ---------------------------------------------------------------------
  // The analysis

  /** The result: both windows' statistics and the flattened changes. */
  datatype Report = Report(current: WindowStats, future: WindowStats, changes: map<string, Value>)

  /** The last step of `analyze_climate_data`: `compute_changes` on the two
      windows' statistics. An empty current window makes it ask `None` for
      its keys (`AttributeError`), an empty target window makes it
      subscript `None` (`TypeError`). */
  function ReportOf(current: Option<WindowStats>, future: Option<WindowStats>): Result<Report>
  {
    if current.None? then Err(AttributeError)
    else if future.None? then Err(TypeError)
    else
      var changes :- Fold(ToTree(current.value), 0, ToTree(future.value), "", map[]);
      Ok(Report(current.value, future.value, changes))
  }

  /** The specification of `analyze_climate_data` on the table's rows: the
      current window is evaluated first, then the target one. */
  function AnalysisOf(rows: seq<Row>, nowYear: int, targetYear: int, w: int,
                      thNow: Thresholds, thTarget: Thresholds): Result<Report>
  {
    var current :- WindowStatsOf(rows, nowYear, w, thNow);
    var future :- WindowStatsOf(rows, targetYear, w, thTarget);
    ReportOf(current, future)
  }

  /** `analyze_climate_data(df, target_date, window_size)` with the clock's
      reading `now` and the in-window 95th percentiles supplied by the caller. */
  method AnalyzeClimateData(df: Frame, targetDate: Date, windowSize: int, now: Date,
                            thNow: Thresholds, thTarget: Thresholds) returns (r: Result<Report>)
    modifies df
    ensures df.records == old(df.records) && df.HasCalendarColumns()
    ensures r == AnalysisOf(RowsOf(df.records), now.year, targetDate.year, windowSize, thNow, thTarget)
  {
    df.AddCalendarColumns();
    var rows := df.Rows();
    var current :- GetWindowStats(rows, now.year, windowSize, thNow);
    var future :- GetWindowStats(rows, targetDate.year, windowSize, thTarget);
    if current.None? {
      return Err(AttributeError);
    }
    if future.None? {
      return Err(TypeError);
    }
    var changes :- ComputeChanges(ToTree(current.value), ToTree(future.value), "");
    return Ok(Report(current.value, future.value, changes));
  }
}
