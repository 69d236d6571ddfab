/** The basic per-year metrics: `calculate_temp_mean`, the mean temperature
    of one year, and `calculate_seasonal_metrics`, the per-season figures of
    one year grouped by a `season` label. */
module BasicMetrics {
  import opened Common
  import opened Series
  import opened Table
  import opened ClimateWindow

  /** `data[data['date'].dt.year == year]`: the rows of one year, in table order. */
  function OfYear(records: seq<Record>, year: int): (rs: seq<Record>)
    ensures |rs| <= |records|
    ensures forall r :: r in rs <==> r in records && r.date.year == year
  {
    if |records| == 0 then []
    else
      var n := |records| - 1;
      var rest := OfYear(records[..n], year);
      assert forall r :: r in records <==> r in records[..n] || r == records[n];
      if records[n].date.year == year then rest + [records[n]] else rest
  }

  /** The year filter keeps table order and multiplicity: it distributes
      over concatenation (and, by its contract, keeps a single row exactly
      when that row lies in the year). */
  lemma {:induction false} OfYearAppend(a: seq<Record>, b: seq<Record>, year: int)
    ensures OfYear(a + b, year) == OfYear(a, year) + OfYear(b, year)
    decreases |b|
  {
    if |b| == 0 {
      assert a + b == a;
    } else {
      var n := |b| - 1;
      assert (a + b)[..|a + b| - 1] == a + b[..n];
      assert (a + b)[|a + b| - 1] == b[n];
      OfYearAppend(a, b[..n], year);
    }
  }

  // ---------------------------------------------------------------------
  // calculate_temp_mean

  /** The mean of `temperature_2m_mean` over the rows of `year`; NaN when
      the table has no row of that year. */
  function TempMean(records: seq<Record>, year: int): Value
  {
    MeanOf(RecordColumn(OfYear(records, year), TemperatureMean))
  }

  /** The mean is NaN exactly when no row lies in the year. */
  lemma TempMeanNaNIffNoRows(records: seq<Record>, year: int)
    ensures TempMean(records, year) == NaN <==> forall r :: r in records ==> r.date.year != year
  {
    var rs := OfYear(records, year);
    if |rs| > 0 {
      assert rs[0] in rs;
    }
  }

  /** Bounds on the year's temperatures bound their mean. */
  lemma TempMeanWithinBounds(records: seq<Record>, year: int, lo: real, hi: real)
    requires exists r :: r in records && r.date.year == year
    requires forall r :: r in records && r.date.year == year ==> lo <= r.reading.temperatureMean <= hi
    ensures TempMean(records, year).Num?
    ensures lo <= TempMean(records, year).x <= hi
  {
    var rs := OfYear(records, year);
    var r :| r in records && r.date.year == year;
    assert r in rs;
    var col := RecordColumn(rs, TemperatureMean);
    forall i | 0 <= i < |col| ensures lo <= col[i] <= hi {
      assert rs[i] in rs;
    }
    MeanAtMost(col, hi);
    MeanAtLeast(col, lo);
  }

  /** The mean is attained between the year's coldest and warmest readings. */
  lemma TempMeanBetweenExtremes(records: seq<Record>, year: int)
    requires exists r :: r in records && r.date.year == year
    ensures TempMean(records, year).Num?
    ensures var col := RecordColumn(OfYear(records, year), TemperatureMean);
      Min(col) <= TempMean(records, year).x <= Max(col)
  {
    var rs := OfYear(records, year);
    var r :| r in records && r.date.year == year;
    assert r in rs;
    MeanWithinExtremes(RecordColumn(rs, TemperatureMean));
  }

  // ---------------------------------------------------------------------
  // calculate_seasonal_metrics

  /** The `season` label of a month (`dt.month.map({...})`): December to
      February are winter, then spring, summer and fall by threes. A month
      outside the mapping would be NaN, which `groupby` drops. */
  function SeasonLabel(m: int): Option<string>
  {
    if m == 12 || m == 1 || m == 2 then Some("winter")
    else if 3 <= m <= 5 then Some("spring")
    else if 6 <= m <= 8 then Some("summer")
    else if 9 <= m <= 11 then Some("fall")
    else None
  }

  /** The labels in the order `groupby` emits its groups: sorted. */
  const SeasonLabels: seq<string> := ["fall", "spring", "summer", "winter"]

  /** The `season` column of a table. */
  function SeasonColumn(records: seq<Record>): (season: seq<Option<string>>)
    ensures |season| == |records|
  {
    seq(|records|, i requires 0 <= i < |records| => SeasonLabel(records[i].date.month))
  }

  /** The one-year table `calculate_seasonal_metrics` works on, which gains a
      `season` column. */
  class SeasonFrame {
    var records: seq<Record>
    var season: seq<Option<string>>

    constructor (records: seq<Record>)
      ensures this.records == records && season == []
    {
      this.records := records;
      season := [];
    }

    /** `df['season'] = df['date'].dt.month.map(...)`. */
    method AddSeasonColumn()
      modifies this
      ensures records == old(records)
      ensures season == SeasonColumn(records)
    {
      var rs := records;
      season := seq(|rs|, i requires 0 <= i < |rs| => SeasonLabel(rs[i].date.month));
    }
  }

  /** The figures `calculate_seasonal_metrics` reports for one group: the
      mean temperature, the total precipitation and the mean radiation. */
  datatype SeasonMetrics = SeasonMetrics(tempMean: real, precipSum: real, radiationMean: real)

  function MetricsOf(group: seq<Record>): SeasonMetrics
    requires |group| > 0
  {
    SeasonMetrics(Mean(RecordColumn(group, TemperatureMean)), Sum(RecordColumn(group, PrecipitationSum)),
                  Mean(RecordColumn(group, RadiationSum)))
  }

  /** The rows whose `season` cell is `name`, in table order. */
  function Group(rs: seq<Record>, season: seq<Option<string>>, name: string): (g: seq<Record>)
    requires |season| == |rs|
    ensures |g| <= |rs|
  {
    if |rs| == 0 then []
    else
      var n := |rs| - 1;
      Group(rs[..n], season[..n], name) + (if season[n] == Some(name) then [rs[n]] else [])
  }

  /** The entry of one group, present only when the group has rows. */
  function Entry(rs: seq<Record>, season: seq<Option<string>>, name: string): (e: seq<(string, SeasonMetrics)>)
    requires |season| == |rs|
    ensures |e| <= 1 && (|e| == 1 <==> |Group(rs, season, name)| > 0)
    ensures |e| == 1 ==> e[0] == (name, MetricsOf(Group(rs, season, name)))
  {
    var g := Group(rs, season, name);
    if |g| > 0 then [(name, MetricsOf(g))] else []
  }

  /** `groupby('season').agg(...)`: one entry per label, in `labels` order,
      for the labels that occur. */
  function GroupBy(rs: seq<Record>, season: seq<Option<string>>, labels: seq<string>): seq<(string, SeasonMetrics)>
    requires |season| == |rs|
  {
    if |labels| == 0 then []
    else Entry(rs, season, labels[0]) + GroupBy(rs, season, labels[1..])
  }

  /** The specification of `calculate_seasonal_metrics(df, year)`. */
  function SeasonalMetricsOf(records: seq<Record>, year: int): seq<(string, SeasonMetrics)>
  {
    var rs := OfYear(records, year);
    GroupBy(rs, SeasonColumn(rs), SeasonLabels)
  }

  /** `calculate_seasonal_metrics`: the year's rows, their season column,
      the grouped aggregation. */
  method CalculateSeasonalMetrics(records: seq<Record>, year: int) returns (stats: seq<(string, SeasonMetrics)>)
    ensures stats == SeasonalMetricsOf(records, year)
  {
    var df := new SeasonFrame(OfYear(records, year));
    df.AddSeasonColumn();
    stats := GroupBy(df.records, df.season, SeasonLabels);
  }

  // ---------------------------------------------------------------------
  // What the seasonal metrics are

  /** The rows of a season, chosen by month rather than through a column. */
  function OfSeason(rs: seq<Record>, name: string): (g: seq<Record>)
    ensures |g| <= |rs|
    ensures forall r :: r in g <==> r in rs && SeasonLabel(r.date.month) == Some(name)
  {
    if |rs| == 0 then []
    else
      var n := |rs| - 1;
      var rest := OfSeason(rs[..n], name);
      assert forall r :: r in rs <==> r in rs[..n] || r == rs[n];
      if SeasonLabel(rs[n].date.month) == Some(name) then rest + [rs[n]] else rest
  }

  /** The season filter keeps table order and multiplicity: it distributes
      over concatenation. */
  lemma {:induction false} OfSeasonAppend(a: seq<Record>, b: seq<Record>, name: string)
    ensures OfSeason(a + b, name) == OfSeason(a, name) + OfSeason(b, name)
    decreases |b|
  {
    if |b| == 0 {
      assert a + b == a;
    } else {
      var n := |b| - 1;
      assert (a + b)[..|a + b| - 1] == a + b[..n];
      assert (a + b)[|a + b| - 1] == b[n];
      OfSeasonAppend(a, b[..n], name);
    }
  }

  /** Grouping on the season column picks a season's rows by their month. */
  lemma {:induction false} GroupOnSeasonColumn(rs: seq<Record>, name: string)
    ensures Group(rs, SeasonColumn(rs), name) == OfSeason(rs, name)
  {
    if |rs| > 0 {
      var n := |rs| - 1;
      assert SeasonColumn(rs)[..n] == SeasonColumn(rs[..n]);
      GroupOnSeasonColumn(rs[..n], name);
    }
  }

  /** `e` is the entry of a non-empty group whose name is among `labels`. */
  predicate IsGroupEntry(rs: seq<Record>, season: seq<Option<string>>, labels: seq<string>, e: (string, SeasonMetrics))
    requires |season| == |rs|
  {
    e.0 in labels && |Group(rs, season, e.0)| > 0 && e.1 == MetricsOf(Group(rs, season, e.0))
  }

  /** Every entry of `out` is the entry of a non-empty group named among `labels`. */
  predicate GroupEntries(rs: seq<Record>, season: seq<Option<string>>, labels: seq<string>, out: seq<(string, SeasonMetrics)>)
    requires |season| == |rs|
  {
    forall i :: 0 <= i < |out| ==> IsGroupEntry(rs, season, labels, out[i])
  }

  /** Entries of a grouping: every key is one of the labels, names a
      non-empty group, and carries that group's figures. */
  lemma {:induction false} GroupByEntries(rs: seq<Record>, season: seq<Option<string>>, labels: seq<string>)
    requires |season| == |rs|
    ensures GroupEntries(rs, season, labels, GroupBy(rs, season, labels))
  {
    if |labels| > 0 {
      GroupByEntries(rs, season, labels[1..]);
      HeadEntries(rs, season, labels);
      TailEntries(rs, season, labels, GroupBy(rs, season, labels[1..]));
      ConcatEntries(rs, season, labels, Entry(rs, season, labels[0]), GroupBy(rs, season, labels[1..]));
    }
  }

  lemma HeadEntries(rs: seq<Record>, season: seq<Option<string>>, labels: seq<string>)
    requires |season| == |rs| && |labels| > 0
    ensures GroupEntries(rs, season, labels, Entry(rs, season, labels[0]))
  {
  }

  lemma TailEntries(rs: seq<Record>, season: seq<Option<string>>, labels: seq<string>, out: seq<(string, SeasonMetrics)>)
    requires |season| == |rs| && |labels| > 0 && GroupEntries(rs, season, labels[1..], out)
    ensures GroupEntries(rs, season, labels, out)
  {
    forall i | 0 <= i < |out| ensures IsGroupEntry(rs, season, labels, out[i]) {
      InTail(labels, out[i].0);
    }
  }

  lemma ConcatEntries(rs: seq<Record>, season: seq<Option<string>>, labels: seq<string>, x: seq<(string, SeasonMetrics)>, y: seq<(string, SeasonMetrics)>)
    requires |season| == |rs| && GroupEntries(rs, season, labels, x) && GroupEntries(rs, season, labels, y)
    ensures GroupEntries(rs, season, labels, x + y)
  {
    forall i | 0 <= i < |x + y| ensures IsGroupEntry(rs, season, labels, (x + y)[i]) {
      if i < |x| {
        assert (x + y)[i] == x[i];
      } else {
        assert (x + y)[i] == y[i - |x|];
      }
    }
  }

  lemma InTail(labels: seq<string>, x: string)
    requires |labels| > 0 && x in labels[1..]
    ensures x in labels
  {
    var b :| 0 <= b < |labels[1..]| && labels[1..][b] == x;
    assert labels[b + 1] == x;
  }

  /** The keys of a grouping, in order. */
  function Keys(out: seq<(string, SeasonMetrics)>): (keys: seq<string>)
    ensures |keys| == |out| && forall i :: 0 <= i < |out| ==> keys[i] == out[i].0
  {
    seq(|out|, i requires 0 <= i < |out| => out[i].0)
  }

  /** The keys of a grouping are the first label's key, if any, then the
      keys of the other labels. */
  lemma KeysSplit(rs: seq<Record>, season: seq<Option<string>>, labels: seq<string>)
    requires |season| == |rs| && |labels| > 0
    ensures Keys(GroupBy(rs, season, labels)) == Keys(Entry(rs, season, labels[0])) + Keys(GroupBy(rs, season, labels[1..]))
  {
    KeysConcat(Entry(rs, season, labels[0]), GroupBy(rs, season, labels[1..]));
  }

  lemma KeysConcat(x: seq<(string, SeasonMetrics)>, y: seq<(string, SeasonMetrics)>)
    ensures Keys(x + y) == Keys(x) + Keys(y)
  {
    assert forall i :: 0 <= i < |x| ==> (x + y)[i] == x[i];
    assert forall i :: 0 <= i < |y| ==> (x + y)[|x| + i] == y[i];
  }

  /** A name is a key exactly when it is one of the labels and its group is
      not empty. */
  lemma {:induction false} GroupByKeys(rs: seq<Record>, season: seq<Option<string>>, labels: seq<string>, name: string)
    requires |season| == |rs|
    ensures name in Keys(GroupBy(rs, season, labels)) <==> name in labels && |Group(rs, season, name)| > 0
  {
    if |labels| > 0 {
      GroupByKeys(rs, season, labels[1..], name);
      KeysSplit(rs, season, labels);
      assert labels == [labels[0]] + labels[1..];
    }
  }

  /** `x` comes before `y` in `labels`. */
  predicate Before(labels: seq<string>, x: string, y: string)
  {
    exists a, b :: 0 <= a < b < |labels| && labels[a] == x && labels[b] == y
  }

  /** `keys` lists some of `labels`, in the order of `labels`. */
  predicate InLabelOrder(keys: seq<string>, labels: seq<string>)
  {
    forall i, j :: 0 <= i < j < |keys| ==> Before(labels, keys[i], keys[j])
  }

  /** The keys of a grouping are among its labels. */
  lemma KeysAmongLabels(rs: seq<Record>, season: seq<Option<string>>, labels: seq<string>)
    requires |season| == |rs|
    ensures forall k :: 0 <= k < |Keys(GroupBy(rs, season, labels))| ==> Keys(GroupBy(rs, season, labels))[k] in labels
  {
    var keys := Keys(GroupBy(rs, season, labels));
    forall k | 0 <= k < |keys| ensures keys[k] in labels {
      GroupByKeys(rs, season, labels, keys[k]);
      assert keys[k] in keys;
    }
  }

  /** Putting the first label before keys taken in order from the other
      labels keeps the label order. */
  lemma ConsLabelOrder(first: seq<string>, later: seq<string>, labels: seq<string>)
    requires |labels| > 0 && (first == [] || first == [labels[0]])
    requires InLabelOrder(later, labels[1..])
    requires forall j :: 0 <= j < |later| ==> later[j] in labels[1..]
    ensures InLabelOrder(first + later, labels)
  {
    var keys := first + later;
    forall i, j | 0 <= i < j < |keys| ensures Before(labels, keys[i], keys[j]) {
      var jj := j - |first|;
      assert keys[j] == later[jj];
      if i >= |first| {
        var ii := i - |first|;
        assert keys[i] == later[ii];
        assert Before(labels[1..], later[ii], later[jj]);
        var a, b :| 0 <= a < b < |labels[1..]| && labels[1..][a] == later[ii] && labels[1..][b] == later[jj];
        assert 0 <= a + 1 < b + 1 < |labels| && labels[a + 1] == keys[i] && labels[b + 1] == keys[j];
      } else {
        assert later[jj] in labels[1..];
        var b :| 0 <= b < |labels[1..]| && labels[1..][b] == later[jj];
        assert keys[i] == first[0] == labels[0];
        assert 0 < b + 1 < |labels| && labels[b + 1] == keys[j];
      }
    }
  }

  /** Keys come out in the order of the labels. */
  lemma {:induction false} GroupByOrdered(rs: seq<Record>, season: seq<Option<string>>, labels: seq<string>)
    requires |season| == |rs|
    ensures InLabelOrder(Keys(GroupBy(rs, season, labels)), labels)
  {
    if |labels| > 0 {
      GroupByOrdered(rs, season, labels[1..]);
      KeysAmongLabels(rs, season, labels[1..]);
      var first := Keys(Entry(rs, season, labels[0]));
      assert first == [] || first == [labels[0]];
      ConsLabelOrder(first, Keys(GroupBy(rs, season, labels[1..])), labels);
      KeysSplit(rs, season, labels);
    }
  }

  /** The keys of the seasonal metrics are the seasons in which the year has
      rows ... */
  lemma SeasonalMetricsKeys(records: seq<Record>, year: int, name: string)
    ensures name in Keys(SeasonalMetricsOf(records, year)) <==>
      name in SeasonLabels && exists r :: r in records && r.date.year == year && SeasonLabel(r.date.month) == Some(name)
  {
    var rs := OfYear(records, year);
    GroupByKeys(rs, SeasonColumn(rs), SeasonLabels, name);
    GroupOnSeasonColumn(rs, name);
    var g := OfSeason(rs, name);
    if |g| > 0 {
      assert g[0] in g;
    }
    if exists r :: r in records && r.date.year == year && SeasonLabel(r.date.month) == Some(name) {
      var r :| r in records && r.date.year == year && SeasonLabel(r.date.month) == Some(name);
      assert r in g;
    }
  }

  /** ... in sorted order: fall, spring, summer, winter ... */
  lemma SeasonalMetricsOrdered(records: seq<Record>, year: int)
    ensures InLabelOrder(Keys(SeasonalMetricsOf(records, year)), SeasonLabels)
  {
    var rs := OfYear(records, year);
    GroupByOrdered(rs, SeasonColumn(rs), SeasonLabels);
  }

  /** ... and each carries the mean temperature, the total precipitation
      and the mean radiation of the year's rows in that season. */
  lemma SeasonalMetricsValues(records: seq<Record>, year: int)
    ensures var stats := SeasonalMetricsOf(records, year);
      forall i :: 0 <= i < |stats| ==>
        var g := OfSeason(OfYear(records, year), stats[i].0);
        && |g| > 0
        && stats[i].1.tempMean == Mean(RecordColumn(g, TemperatureMean))
        && stats[i].1.precipSum == Sum(RecordColumn(g, PrecipitationSum))
        && stats[i].1.radiationMean == Mean(RecordColumn(g, RadiationSum))
  {
    var rs := OfYear(records, year);
    GroupByEntries(rs, SeasonColumn(rs), SeasonLabels);
    var stats := SeasonalMetricsOf(records, year);
    forall i | 0 <= i < |stats| ensures Group(rs, SeasonColumn(rs), stats[i].0) == OfSeason(rs, stats[i].0) {
      GroupOnSeasonColumn(rs, stats[i].0);
    }
  }

  /** The season labels agree with the seasons of the window statistics,
      fall being the autumn of `Seasons`; only the months 1 to 12 have one. */
  lemma SeasonLabelsMatchSeasons(m: int)
    ensures SeasonLabel(m) == Some("winter") <==> m in Seasons[0].1
    ensures SeasonLabel(m) == Some("spring") <==> m in Seasons[1].1
    ensures SeasonLabel(m) == Some("summer") <==> m in Seasons[2].1
    ensures SeasonLabel(m) == Some("fall") <==> m in Seasons[3].1
    ensures SeasonLabel(m).Some? <==> 1 <= m <= 12
  {
  }

  /** Every row with a month from 1 to 12 lies in exactly one season, so
      the four seasons' rows together are all the rows of the year. */
  lemma {:induction false} SeasonGroupsCoverRows(rs: seq<Record>)
    requires forall r :: r in rs ==> 1 <= r.date.month <= 12
    ensures |OfSeason(rs, "fall")| + |OfSeason(rs, "spring")| + |OfSeason(rs, "summer")| + |OfSeason(rs, "winter")| == |rs|
  {
    if |rs| > 0 {
      var n := |rs| - 1;
      assert forall r :: r in rs[..n] ==> r in rs;
      SeasonGroupsCoverRows(rs[..n]);
      assert rs[n] in rs;
    }
  }
}
