/** What `analyze_climate_data` returns: when it succeeds, the statistics of
    the two windows and, for every statistic, its change between them;
    when it fails, which exception it raises. */
module AnalysisLaws {
  import opened Common
  import opened Table
  import opened ClimateWindow
  import opened Changes
  import opened ChangesLaws
  import opened Analysis

  /** The statistics of a window carry the four seasons, in order. */
  lemma StatsSeasonNames(window: seq<Row>, w: int, th: Thresholds)
    requires |window| > 0 && w != 0
    ensures SeasonNames(StatsOf(window, w, th).seasonal)
  {
  }

  /** Strings that differ at a position both reach are not prefixes of each other. */
  lemma Apart(a: string, b: string, n: nat)
    requires n < |a| && n < |b| && a[n] != b[n]
    ensures !(a <= b) && !(b <= a)
  {
  }

  /** Names that differ at a position both reach stay apart under a common suffix. */
  lemma NamesApart(k1: string, k2: string, suffix: string, n: nat)
    requires n < |k1| && n < |k2| && k1[n] != k2[n]
    ensures !(k1 + suffix <= k2 + suffix) && !(k2 + suffix <= k1 + suffix)
  {
    Apart(k1 + suffix, k2 + suffix, n);
  }

  lemma MeansNamesApart()
    ensures Incomparable(["temp_mean" + "_change", "cloud_cover" + "_change", "radiation" + "_change", "humidity_mean" + "_change"])
  {
    NamesApart("temp_mean", "cloud_cover", "_change", 0);
    NamesApart("temp_mean", "radiation", "_change", 0);
    NamesApart("temp_mean", "humidity_mean", "_change", 0);
    NamesApart("cloud_cover", "radiation", "_change", 0);
    NamesApart("cloud_cover", "humidity_mean", "_change", 0);
    NamesApart("radiation", "humidity_mean", "_change", 0);
  }

  /** No flattened name of the means is a prefix of another. */
  lemma MeansTreePrefixFree(m: Means)
    ensures PrefixFree(MeansTree(m))
  {
    assert Stems(MeansTree(m).entries) == ["temp_mean" + "_change", "cloud_cover" + "_change", "radiation" + "_change", "humidity_mean" + "_change"];
    MeansNamesApart();
    PrefixFreeFromStems(MeansTree(m));
  }

  lemma ExtremesNamesApart()
    ensures Incomparable(["temp_max" + "_change", "temp_min" + "_change", "wind_max" + "_change", "humidity_max" + "_change", "humidity_min" + "_change"])
  {
    NamesApart("temp_max", "temp_min", "_change", 6);
    NamesApart("temp_max", "wind_max", "_change", 0);
    NamesApart("temp_max", "humidity_max", "_change", 0);
    NamesApart("temp_max", "humidity_min", "_change", 0);
    NamesApart("temp_min", "wind_max", "_change", 0);
    NamesApart("temp_min", "humidity_max", "_change", 0);
    NamesApart("temp_min", "humidity_min", "_change", 0);
    NamesApart("wind_max", "humidity_max", "_change", 0);
    NamesApart("wind_max", "humidity_min", "_change", 0);
    NamesApart("humidity_max", "humidity_min", "_change", 10);
  }

  /** No flattened name of the extremes is a prefix of another. */
  lemma ExtremesTreePrefixFree(x: Extremes)
    ensures PrefixFree(ExtremesTree(x))
  {
    assert Stems(ExtremesTree(x).entries) == ["temp_max" + "_change", "temp_min" + "_change", "wind_max" + "_change", "humidity_max" + "_change", "humidity_min" + "_change"];
    ExtremesNamesApart();
    PrefixFreeFromStems(ExtremesTree(x));
  }

  lemma CumulativeNamesApart()
    ensures Incomparable(["precip_annual_mean" + "_change", "precip_monthly_max" + "_change", "snow_annual_mean" + "_change", "snow_monthly_max" + "_change"])
  {
    NamesApart("precip_annual_mean", "precip_monthly_max", "_change", 7);
    NamesApart("precip_annual_mean", "snow_annual_mean", "_change", 0);
    NamesApart("precip_annual_mean", "snow_monthly_max", "_change", 0);
    NamesApart("precip_monthly_max", "snow_annual_mean", "_change", 0);
    NamesApart("precip_monthly_max", "snow_monthly_max", "_change", 0);
    NamesApart("snow_annual_mean", "snow_monthly_max", "_change", 5);
  }

  /** No flattened name of the cumulative statistics is a prefix of another. */
  lemma CumulativeTreePrefixFree(c: Cumulative)
    ensures PrefixFree(CumulativeTree(c))
  {
    assert Stems(CumulativeTree(c).entries) == ["precip_annual_mean" + "_change", "precip_monthly_max" + "_change", "snow_annual_mean" + "_change", "snow_monthly_max" + "_change"];
    CumulativeNamesApart();
    PrefixFreeFromStems(CumulativeTree(c));
  }

  lemma EventsNamesApart()
    ensures Incomparable(["hot_days_annual" + "_change", "heavy_rain_annual" + "_change", "high_wind_annual" + "_change"])
  {
    NamesApart("hot_days_annual", "heavy_rain_annual", "_change", 1);
    NamesApart("hot_days_annual", "high_wind_annual", "_change", 1);
    NamesApart("heavy_rain_annual", "high_wind_annual", "_change", 1);
  }

  /** No flattened name of the extreme-event rates is a prefix of another. */
  lemma EventsTreePrefixFree(x: ExtremeEvents)
    ensures PrefixFree(EventsTree(x))
  {
    assert Stems(EventsTree(x).entries) == ["hot_days_annual" + "_change", "heavy_rain_annual" + "_change", "high_wind_annual" + "_change"];
    EventsNamesApart();
    PrefixFreeFromStems(EventsTree(x));
  }

  lemma SeasonStatNamesApart()
    ensures Incomparable(["temp_mean" + "_change", "temp_max" + "_change", "temp_min" + "_change", "precip_total" + "_change", "wind_max" + "_change"])
  {
    NamesApart("temp_mean", "temp_max", "_change", 6);
    NamesApart("temp_mean", "temp_min", "_change", 6);
    NamesApart("temp_mean", "precip_total", "_change", 0);
    NamesApart("temp_mean", "wind_max", "_change", 0);
    NamesApart("temp_max", "temp_min", "_change", 6);
    NamesApart("temp_max", "precip_total", "_change", 0);
    NamesApart("temp_max", "wind_max", "_change", 0);
    NamesApart("temp_min", "precip_total", "_change", 0);
    NamesApart("temp_min", "wind_max", "_change", 0);
    NamesApart("precip_total", "wind_max", "_change", 0);
  }

  /** No flattened name of a season's statistics is a prefix of another. */
  lemma SeasonTreePrefixFree(s: SeasonStats)
    ensures PrefixFree(SeasonTree(s))
  {
    assert Stems(SeasonTree(s).entries) == ["temp_mean" + "_change", "temp_max" + "_change", "temp_min" + "_change", "precip_total" + "_change", "wind_max" + "_change"];
    SeasonStatNamesApart();
    PrefixFreeFromStems(SeasonTree(s));
  }

  lemma SeasonalNamesApart()
    ensures Incomparable(["winter" + "_", "spring" + "_", "summer" + "_", "autumn" + "_"])
  {
    NamesApart("winter", "spring", "_", 0);
    NamesApart("winter", "summer", "_", 0);
    NamesApart("winter", "autumn", "_", 0);
    NamesApart("spring", "summer", "_", 1);
    NamesApart("spring", "autumn", "_", 0);
    NamesApart("summer", "autumn", "_", 0);
  }

  lemma SeasonalTreePrefixFree(seasonal: seq<(string, SeasonStats)>)
    requires SeasonNames(seasonal)
    ensures PrefixFree(SeasonalTree(seasonal))
  {
    var e := SeasonalTree(seasonal).entries;
    forall i | 0 <= i < |e| ensures e[i] == (Seasons[i].0, SeasonTree(seasonal[i].1)) && PrefixFree(e[i].1) {
      SeasonTreePrefixFree(seasonal[i].1);
    }
    assert Stems(e) == ["winter" + "_", "spring" + "_", "summer" + "_", "autumn" + "_"];
    SeasonalNamesApart();
    PrefixFreeFromStems(SeasonalTree(seasonal));
  }

  lemma StatsNamesApart()
    ensures Incomparable(["means" + "_", "extremes" + "_", "cumulative" + "_", "extreme_events" + "_", "seasonal" + "_"])
  {
    NamesApart("means", "extremes", "_", 0);
    NamesApart("means", "cumulative", "_", 0);
    NamesApart("means", "extreme_events", "_", 0);
    NamesApart("means", "seasonal", "_", 0);
    NamesApart("extremes", "cumulative", "_", 0);
    NamesApart("extremes", "extreme_events", "_", 7);
    NamesApart("extremes", "seasonal", "_", 0);
    NamesApart("cumulative", "extreme_events", "_", 0);
    NamesApart("cumulative", "seasonal", "_", 0);
    NamesApart("extreme_events", "seasonal", "_", 0);
  }

  /** The dictionary of a window's statistics has no two flattened names
      that could collide, and so distinct keys at every level. */
  lemma ToTreeWellFormed(s: WindowStats)
    requires SeasonNames(s.seasonal)
    ensures WellFormed(ToTree(s)) && PrefixFree(ToTree(s))
  {
    MeansTreePrefixFree(s.means);
    ExtremesTreePrefixFree(s.extremes);
    CumulativeTreePrefixFree(s.cumulative);
    EventsTreePrefixFree(s.extremeEvents);
    SeasonalTreePrefixFree(s.seasonal);
    assert Stems(ToTree(s).entries) == ["means" + "_", "extremes" + "_", "cumulative" + "_", "extreme_events" + "_", "seasonal" + "_"];
    StatsNamesApart();
    PrefixFreeFromStems(ToTree(s));
    PrefixFreeWellFormed(ToTree(s));
  }

  lemma SeasonalTreeSameShape(a: seq<(string, SeasonStats)>, b: seq<(string, SeasonStats)>)
    requires SeasonNames(a) && SeasonNames(b)
    ensures SameShape(SeasonalTree(a), SeasonalTree(b))
  {
    var ta, tb := SeasonalTree(a), SeasonalTree(b);
    forall i | 0 <= i < 4 ensures ta.entries[i].0 == tb.entries[i].0 && SameShape(ta.entries[i].1, tb.entries[i].1) {
      assert ta.entries[i].1 == SeasonTree(a[i].1) && tb.entries[i].1 == SeasonTree(b[i].1);
    }
  }

  /** Any two windows' dictionaries have the same keys at the same places. */
  lemma ToTreeSameShape(a: WindowStats, b: WindowStats)
    requires SeasonNames(a.seasonal) && SeasonNames(b.seasonal)
    ensures SameShape(ToTree(a), ToTree(b))
  {
    SeasonalTreeSameShape(a.seasonal, b.seasonal);
  }

  /** The changes between two windows' statistics: `compute_changes`
      succeeds, and reports under each leaf's flattened name the target
      value minus the current one, and nothing else. */
  lemma ChangesOfStats(c: WindowStats, f: WindowStats)
    requires SeasonNames(c.seasonal) && SeasonNames(f.seasonal)
    ensures var r := Fold(ToTree(c), 0, ToTree(f), "", map[]);
      && r.Ok?
      && (forall p :: IsLeafPath(ToTree(c), p) ==>
            IsLeafPath(ToTree(f), p) && FlatKey("", p) in r.value &&
            r.value[FlatKey("", p)] == Minus(At(ToTree(f), p).value.v, At(ToTree(c), p).value.v))
      && (forall k :: k in r.value ==> exists p :: IsLeafPath(ToTree(c), p) && FlatKey("", p) == k)
  {
    ToTreeWellFormed(c);
    ToTreeSameShape(c, f);
    SameShapeFoldOk(ToTree(c), 0, ToTree(f), "", map[]);
    PrefixFreeDistinct(ToTree(c), 0, "");
    ChangesAreLeafDifferences(ToTree(c), ToTree(f), "");
  }

  /** `compute_changes` on `None` fails, on the statistics of two windows it
      succeeds and reports both windows and their changes. */
  lemma ReportOfErrors(current: Option<WindowStats>, future: Option<WindowStats>)
    ensures current.None? ==> ReportOf(current, future) == Err(AttributeError)
    ensures current.Some? && future.None? ==> ReportOf(current, future) == Err(TypeError)
  {
  }

  lemma ReportOfStats(c: WindowStats, f: WindowStats)
    requires SeasonNames(c.seasonal) && SeasonNames(f.seasonal)
    ensures var r := ReportOf(Some(c), Some(f));
      && r.Ok? && r.value.current == c && r.value.future == f
      && (forall p :: IsLeafPath(ToTree(c), p) ==>
            IsLeafPath(ToTree(f), p) && FlatKey("", p) in r.value.changes &&
            r.value.changes[FlatKey("", p)] == Minus(At(ToTree(f), p).value.v, At(ToTree(c), p).value.v))
      && (forall k :: k in r.value.changes ==> exists p :: IsLeafPath(ToTree(c), p) && FlatKey("", p) == k)
  {
    ChangesOfStats(c, f);
  }

  /** The analysis succeeds only when the window size is positive and both
      windows hold at least one row ... */
  lemma AnalysisOkNeeds(rows: seq<Row>, nowYear: int, targetYear: int, w: int, thNow: Thresholds, thTarget: Thresholds)
    requires AnalysisOf(rows, nowYear, targetYear, w, thNow, thTarget).Ok?
    ensures w > 0 && |SelectWindow(rows, nowYear, w)| > 0 && |SelectWindow(rows, targetYear, w)| > 0
  {
    var current, future := WindowStatsOf(rows, nowYear, w, thNow), WindowStatsOf(rows, targetYear, w, thTarget);
    ReportOfErrors(current.value, future.value);
    if w < 0 {
      NegativeSizeSelectsNothing(rows, nowYear, w);
    }
  }

  /** ... and then it does succeed. */
  lemma AnalysisOkWhen(rows: seq<Row>, nowYear: int, targetYear: int, w: int, thNow: Thresholds, thTarget: Thresholds)
    requires w > 0 && |SelectWindow(rows, nowYear, w)| > 0 && |SelectWindow(rows, targetYear, w)| > 0
    ensures AnalysisOf(rows, nowYear, targetYear, w, thNow, thTarget).Ok?
  {
    AnalysisReport(rows, nowYear, targetYear, w, thNow, thTarget);
  }

  /** The analysis succeeds exactly when the window size is positive and
      both windows hold at least one row. */
  lemma AnalysisSucceedsIff(rows: seq<Row>, nowYear: int, targetYear: int, w: int, thNow: Thresholds, thTarget: Thresholds)
    ensures AnalysisOf(rows, nowYear, targetYear, w, thNow, thTarget).Ok? <==>
      w > 0 && |SelectWindow(rows, nowYear, w)| > 0 && |SelectWindow(rows, targetYear, w)| > 0
  {
    if AnalysisOf(rows, nowYear, targetYear, w, thNow, thTarget).Ok? {
      AnalysisOkNeeds(rows, nowYear, targetYear, w, thNow, thTarget);
    }
    if w > 0 && |SelectWindow(rows, nowYear, w)| > 0 && |SelectWindow(rows, targetYear, w)| > 0 {
      AnalysisOkWhen(rows, nowYear, targetYear, w, thNow, thTarget);
    }
  }

  /** How the analysis fails: a zero window size divides by zero as soon
      as either window has rows (the current window's statistics are
      computed first, then the target window's); an empty current window
      is otherwise an `AttributeError`, and an empty target window after a
      non-empty current one a `TypeError`. */
  lemma AnalysisErrors(rows: seq<Row>, nowYear: int, targetYear: int, w: int, thNow: Thresholds, thTarget: Thresholds)
    ensures var r := AnalysisOf(rows, nowYear, targetYear, w, thNow, thTarget);
      && (w == 0 && (|SelectWindow(rows, nowYear, w)| > 0 || |SelectWindow(rows, targetYear, w)| > 0) ==> r == Err(ZeroDivisionError))
      && (|SelectWindow(rows, nowYear, w)| == 0 && (w != 0 || |SelectWindow(rows, targetYear, w)| == 0) ==> r == Err(AttributeError))
      && (w != 0 && |SelectWindow(rows, nowYear, w)| > 0 && |SelectWindow(rows, targetYear, w)| == 0 ==> r == Err(TypeError))
  {
    var current, future := WindowStatsOf(rows, nowYear, w, thNow), WindowStatsOf(rows, targetYear, w, thTarget);
    if w != 0 && current.Ok? && future.Ok? {
      ReportOfErrors(current.value, future.value);
    }
  }

  /** When both windows hold rows and the size is positive, the analysis is
      the comparison of the two windows' statistics, whose contents
      `ReportOfStats` describes. */
  lemma AnalysisOfWindows(rows: seq<Row>, nowYear: int, targetYear: int, w: int, thNow: Thresholds, thTarget: Thresholds)
    requires w > 0 && |SelectWindow(rows, nowYear, w)| > 0 && |SelectWindow(rows, targetYear, w)| > 0
    ensures AnalysisOf(rows, nowYear, targetYear, w, thNow, thTarget) ==
      ReportOf(Some(StatsOf(SelectWindow(rows, nowYear, w), w, thNow)), Some(StatsOf(SelectWindow(rows, targetYear, w), w, thTarget)))
  {
  }

  /** A successful analysis reports the statistics of the window around the
      current year, those of the window around the target year, and for
      every statistic its change between them under its flattened name. */
  lemma AnalysisReport(rows: seq<Row>, nowYear: int, targetYear: int, w: int, thNow: Thresholds, thTarget: Thresholds)
    requires w > 0 && |SelectWindow(rows, nowYear, w)| > 0 && |SelectWindow(rows, targetYear, w)| > 0
    ensures var r := AnalysisOf(rows, nowYear, targetYear, w, thNow, thTarget);
      var c := StatsOf(SelectWindow(rows, nowYear, w), w, thNow);
      var f := StatsOf(SelectWindow(rows, targetYear, w), w, thTarget);
      && r.Ok? && r.value.current == c && r.value.future == f
      && (forall p :: IsLeafPath(ToTree(c), p) ==>
            IsLeafPath(ToTree(f), p) && FlatKey("", p) in r.value.changes &&
            r.value.changes[FlatKey("", p)] == Minus(At(ToTree(f), p).value.v, At(ToTree(c), p).value.v))
      && (forall k :: k in r.value.changes ==> exists p :: IsLeafPath(ToTree(c), p) && FlatKey("", p) == k)
  {
    var cw, fw := SelectWindow(rows, nowYear, w), SelectWindow(rows, targetYear, w);
    AnalysisOfWindows(rows, nowYear, targetYear, w, thNow, thTarget);
    StatsSeasonNames(cw, w, thNow);
    StatsSeasonNames(fw, w, thTarget);
    ReportOfStats(StatsOf(cw, w, thNow), StatsOf(fw, w, thTarget));
  }

  lemma TempMeanPath(s: WindowStats)
    ensures IsLeafPath(ToTree(s), ["means", "temp_mean"])
    ensures At(ToTree(s), ["means", "temp_mean"]).value == Leaf(Num(s.means.tempMean))
  {
    assert ["means", "temp_mean"][1..] == ["temp_mean"];
  }

  lemma TempMeanName()
    ensures FlatKey("", ["means", "temp_mean"]) == "means_temp_mean_change"
  {
    assert ["means", "temp_mean"][1..] == ["temp_mean"];
  }

  /** For instance, the change of the mean temperature is reported as
      `means_temp_mean_change`. */
  lemma TempMeanChange(c: WindowStats, f: WindowStats)
    requires SeasonNames(c.seasonal) && SeasonNames(f.seasonal)
    ensures var r := ReportOf(Some(c), Some(f));
      r.Ok? && "means_temp_mean_change" in r.value.changes &&
      r.value.changes["means_temp_mean_change"] == Num(f.means.tempMean - c.means.tempMean)
  {
    ReportOfStats(c, f);
    TempMeanPath(c);
    TempMeanPath(f);
    TempMeanName();
  }
}
