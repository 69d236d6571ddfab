/** The reduction of the daily table to one row per calendar month
    (`resample('M').agg(...)`): intensity-like variables are averaged over
    the month's days, accumulation-like variables are summed. */
module Monthly {
  import opened Series
  import opened Table

  predicate SameMonth(a: Date, b: Date)
  {
    a.year == b.year && a.month == b.month
  }

  /** `a` lies in an earlier calendar month than `b`. */
  predicate MonthBefore(a: Date, b: Date)
  {
    a.year < b.year || (a.year == b.year && a.month < b.month)
  }

  predicate AllValid(days: seq<Record>)
  {
    forall i :: 0 <= i < |days| ==> ValidDate(days[i].date)
  }

  /** Rows in ascending date order, so never a later month before an earlier one
      (the daily table is built from an ascending date range). */
  predicate Chronological(days: seq<Record>)
  {
    forall i, j :: 0 <= i < j < |days| ==> !MonthBefore(days[j].date, days[i].date)
  }

  /** Rows in strictly ascending calendar-month order: one row per month. */
  predicate StrictlyChronological(rows: seq<Record>)
  {
    forall i, j :: 0 <= i < j < |rows| ==> MonthBefore(rows[i].date, rows[j].date)
  }

  /** The set of (year, month) pairs present in a table. */
  function MonthsOf(rows: seq<Record>): set<(int, int)>
  {
    set i | 0 <= i < |rows| :: (rows[i].date.year, rows[i].date.month)
  }

  /** The rows of one calendar month, in table order. */
  function InMonth(days: seq<Record>, y: int, m: int): seq<Record>
  {
    if |days| == 0 then []
    else
      (if days[0].date.year == y && days[0].date.month == m then [days[0]] else [])
      + InMonth(days[1..], y, m)
  }

  /** The fixed reducer per column: shortwave radiation, precipitation and
      snowfall are summed over the month; every other column is averaged. */
  predicate IsAccumulation(f: Field)
  {
    f == RadiationSum || f == PrecipitationSum || f == SnowfallSum
  }

  function Reduce(f: Field, values: seq<real>): real
    requires |values| > 0
  {
    if IsAccumulation(f) then Sum(values) else Mean(values)
  }

  /** pandas labels a monthly bin with the last day of its month. */
  function MonthEnd(d: Date): Date
    requires ValidDate(d)
  {
    Date(d.year, d.month, DaysInMonth(d.year, d.month))
  }

  /** Column-by-column addition of two readings. */
  function AddReadings(a: Reading, b: Reading): Reading
  {
    Reading(a.temperatureMean + b.temperatureMean, a.temperatureMax + b.temperatureMax,
      a.temperatureMin + b.temperatureMin, a.windSpeedMax + b.windSpeedMax,
      a.cloudCoverMean + b.cloudCoverMean, a.radiationSum + b.radiationSum,
      a.humidityMax + b.humidityMax, a.humidityMin + b.humidityMin,
      a.precipitationSum + b.precipitationSum, a.snowfallSum + b.snowfallSum)
  }

  /** The column totals of a group of days. */
  function SumReadings(group: seq<Record>): Reading
  {
    if |group| == 0 then Reading(0.0, 0.0, 0.0, 0.0, 0.0, 0.0, 0.0, 0.0, 0.0, 0.0)
    else AddReadings(SumReadings(group[..|group| - 1]), group[|group| - 1].reading)
  }

  /** Turns the column totals of `n` days into the monthly reading: the
      accumulation columns keep their totals, the others become means. */
  function MonthReading(total: Reading, n: nat): Reading
    requires n > 0
  {
    var d := n as real;
    Reading(total.temperatureMean / d, total.temperatureMax / d, total.temperatureMin / d,
      total.windSpeedMax / d, total.cloudCoverMean / d, total.radiationSum,
      total.humidityMax / d, total.humidityMin / d, total.precipitationSum, total.snowfallSum)
  }

  /** The monthly row reduced from the days of one month. */
  function MonthRecord(group: seq<Record>): Record
    requires |group| > 0 && ValidDate(group[0].date)
  {
    Record(MonthEnd(group[0].date), MonthReading(SumReadings(group), |group|))
  }

  lemma {:induction false} SumReadingsField(group: seq<Record>, f: Field)
    ensures Get(SumReadings(group), f) == Sum(RecordColumn(group, f))
  {
    if |group| > 0 {
      var n := |group| - 1;
      SumReadingsField(group[..n], f);
      assert RecordColumn(group, f)[..n] == RecordColumn(group[..n], f);
    }
  }

  lemma MonthRecordField(group: seq<Record>, f: Field)
    requires |group| > 0 && ValidDate(group[0].date)
    ensures Get(MonthRecord(group).reading, f) == Reduce(f, RecordColumn(group, f))
  {
    SumReadingsField(group, f);
  }

  /** The length of the leading run of days that share the first day's month. */
  function RunLength(days: seq<Record>): (k: nat)
    requires |days| > 0
    ensures 1 <= k <= |days|
    ensures forall i :: 0 <= i < k ==> SameMonth(days[i].date, days[0].date)
    ensures k < |days| ==> !SameMonth(days[k].date, days[0].date)
  {
    if |days| == 1 || !SameMonth(days[1].date, days[0].date) then 1
    else 1 + RunLength(days[1..])
  }

  /** The monthly table: each run of same-month days becomes one row. */
  function MonthlyAggregate(days: seq<Record>): seq<Record>
    requires AllValid(days)
    decreases |days|
  {
    if |days| == 0 then []
    else
      var k := RunLength(days);
      [MonthRecord(days[..k])] + MonthlyAggregate(days[k..])
  }

  lemma {:induction false} InMonthAppend(a: seq<Record>, b: seq<Record>, y: int, m: int)
    ensures InMonth(a + b, y, m) == InMonth(a, y, m) + InMonth(b, y, m)
  {
    if |a| > 0 {
      assert (a + b)[1..] == a[1..] + b;
      InMonthAppend(a[1..], b, y, m);
    } else {
      assert a + b == b;
    }
  }

  lemma InMonthSplit(days: seq<Record>, k: nat, y: int, m: int)
    requires k <= |days|
    ensures InMonth(days, y, m) == InMonth(days[..k], y, m) + InMonth(days[k..], y, m)
  {
    assert days == days[..k] + days[k..];
    InMonthAppend(days[..k], days[k..], y, m);
  }

  lemma {:induction false} InMonthAll(days: seq<Record>, y: int, m: int)
    requires forall i :: 0 <= i < |days| ==> days[i].date.year == y && days[i].date.month == m
    ensures InMonth(days, y, m) == days
  {
    if |days| > 0 {
      InMonthAll(days[1..], y, m);
    }
  }

  lemma {:induction false} InMonthNone(days: seq<Record>, y: int, m: int)
    requires forall i :: 0 <= i < |days| ==> !(days[i].date.year == y && days[i].date.month == m)
    ensures InMonth(days, y, m) == []
  {
    if |days| > 0 {
      InMonthNone(days[1..], y, m);
    }
  }

  lemma MonthsOfSplit(s: seq<Record>, k: nat)
    requires k <= |s|
    ensures MonthsOf(s) == MonthsOf(s[..k]) + MonthsOf(s[k..])
  {
    forall x | x in MonthsOf(s) ensures x in MonthsOf(s[..k]) + MonthsOf(s[k..]) {
      var i :| 0 <= i < |s| && x == (s[i].date.year, s[i].date.month);
      if i < k {
        assert s[..k][i] == s[i];
      } else {
        assert s[k..][i - k] == s[i];
      }
    }
    forall x | x in MonthsOf(s[k..]) ensures x in MonthsOf(s) {
      var i :| 0 <= i < |s[k..]| && x == (s[k..][i].date.year, s[k..][i].date.month);
      assert s[k..][i] == s[i + k];
    }
    forall x | x in MonthsOf(s[..k]) ensures x in MonthsOf(s) {
      var i :| 0 <= i < k && x == (s[..k][i].date.year, s[..k][i].date.month);
      assert s[..k][i] == s[i];
    }
  }

  /** Every day after the first month's run lies in a strictly later month. */
  lemma AfterFirstRun(days: seq<Record>, j: int)
    requires Chronological(days) && |days| > 0 && RunLength(days) <= j < |days|
    ensures MonthBefore(days[0].date, days[j].date)
  {
    var k := RunLength(days);
    assert !SameMonth(days[k].date, days[0].date);
    assert !MonthBefore(days[k].date, days[0].date);
    if j > k {
      assert !MonthBefore(days[j].date, days[k].date);
    }
  }

  lemma SuffixChronological(days: seq<Record>, k: nat)
    requires Chronological(days) && k <= |days|
    ensures Chronological(days[k..])
  {
    var tail := days[k..];
    forall i, j | 0 <= i < j < |tail| ensures !MonthBefore(tail[j].date, tail[i].date) {
      assert tail[i] == days[i + k] && tail[j] == days[j + k];
    }
  }

  /** The monthly table holds exactly the months present in the daily table. */
  lemma {:induction false} MonthlyAggregateMonths(days: seq<Record>)
    requires AllValid(days)
    ensures MonthsOf(MonthlyAggregate(days)) == MonthsOf(days)
    decreases |days|
  {
    if |days| > 0 {
      var k := RunLength(days);
      var out := MonthlyAggregate(days);
      var first := MonthRecord(days[..k]);
      assert out == [first] + MonthlyAggregate(days[k..]);
      MonthlyAggregateMonths(days[k..]);
      MonthsOfSplit(days, k);
      MonthsOfSplit(out, 1);
      assert out[..1] == [first] && out[1..] == MonthlyAggregate(days[k..]);
      assert MonthsOf(days[..k]) == {(days[0].date.year, days[0].date.month)} by {
        assert days[..k][0] == days[0];
      }
      assert MonthsOf([first]) == {(days[0].date.year, days[0].date.month)} by {
        assert [first][0] == first;
      }
    }
  }

  /** Every monthly row comes from some day of its month. */
  lemma RowFromDay(days: seq<Record>, j: nat)
    requires AllValid(days) && j < |MonthlyAggregate(days)|
    ensures exists t :: 0 <= t < |days| && SameMonth(days[t].date, MonthlyAggregate(days)[j].date)
  {
    var out := MonthlyAggregate(days);
    MonthlyAggregateMonths(days);
    assert (out[j].date.year, out[j].date.month) in MonthsOf(out);
  }

  /** Every row after the first one of the monthly table lies in a later
      month than the first run of days. */
  lemma RestAfterFirstRun(days: seq<Record>, j: nat)
    requires AllValid(days) && Chronological(days) && |days| > 0
    requires j < |MonthlyAggregate(days[RunLength(days)..])|
    ensures MonthBefore(days[0].date, MonthlyAggregate(days[RunLength(days)..])[j].date)
  {
    var k := RunLength(days);
    var tail := days[k..];
    RowFromDay(tail, j);
    var t :| 0 <= t < |tail| && SameMonth(tail[t].date, MonthlyAggregate(tail)[j].date);
    AfterFirstRun(days, t + k);
    assert tail[t] == days[t + k];
  }

  /** The monthly rows are in strictly ascending month order: one row per month. */
  lemma {:induction false} MonthlyAggregateOrdered(days: seq<Record>)
    requires AllValid(days) && Chronological(days)
    ensures StrictlyChronological(MonthlyAggregate(days))
    decreases |days|
  {
    if |days| > 0 {
      var k := RunLength(days);
      var rest := MonthlyAggregate(days[k..]);
      var out := MonthlyAggregate(days);
      assert out == [MonthRecord(days[..k])] + rest;
      SuffixChronological(days, k);
      MonthlyAggregateOrdered(days[k..]);
      assert SameMonth(out[0].date, days[0].date) by {
        assert days[..k][0] == days[0];
      }
      forall i, j | 0 <= i < j < |out| ensures MonthBefore(out[i].date, out[j].date) {
        assert out[j] == rest[j - 1];
        if i > 0 {
          assert out[i] == rest[i - 1];
          assert MonthBefore(rest[i - 1].date, rest[j - 1].date);
        } else {
          RestAfterFirstRun(days, j - 1);
        }
      }
    }
  }

  /** Each monthly row is labelled with the last day of its month. */
  lemma {:induction false} MonthlyAggregateLabels(days: seq<Record>)
    requires AllValid(days)
    ensures forall i :: 0 <= i < |MonthlyAggregate(days)| ==>
      var d := MonthlyAggregate(days)[i].date;
      ValidDate(d) && d.day == DaysInMonth(d.year, d.month)
    decreases |days|
  {
    if |days| > 0 {
      var k := RunLength(days);
      var rest := MonthlyAggregate(days[k..]);
      var out := MonthlyAggregate(days);
      assert out == [MonthRecord(days[..k])] + rest;
      MonthlyAggregateLabels(days[k..]);
      forall i | 0 < i < |out| ensures out[i] == rest[i - 1] { }
    }
  }

  /** `r` is the reduction of the non-empty group of days `group`. */
  predicate ReducesGroup(r: Record, group: seq<Record>)
  {
    && |group| > 0
    && (forall f :: IsAccumulation(f) ==> Get(r.reading, f) == Sum(RecordColumn(group, f)))
    && (forall f :: !IsAccumulation(f) ==> Get(r.reading, f) == Mean(RecordColumn(group, f)))
  }

  /** Each monthly row holds, for every accumulation column, the sum of that
      column over ALL days of its month in the daily table, and for every
      other column their mean. */
  lemma {:induction false} MonthlyAggregateValues(days: seq<Record>, i: nat)
    requires AllValid(days) && Chronological(days) && i < |MonthlyAggregate(days)|
    ensures var r := MonthlyAggregate(days)[i];
      ReducesGroup(r, InMonth(days, r.date.year, r.date.month))
    decreases |days|
  {
    var k := RunLength(days);
    var out := MonthlyAggregate(days);
    assert out == [MonthRecord(days[..k])] + MonthlyAggregate(days[k..]);
    if i == 0 {
      FirstRowValues(days);
    } else {
      SuffixChronological(days, k);
      MonthlyAggregateValues(days[k..], i - 1);
      RestAfterFirstRun(days, i - 1);
      var r := out[i];
      assert r == MonthlyAggregate(days[k..])[i - 1];
      LaterMonthGroup(days, r.date.year, r.date.month);
    }
  }

  /** The first monthly row reduces the days of the first month. */
  lemma FirstRowValues(days: seq<Record>)
    requires AllValid(days) && Chronological(days) && |days| > 0
    ensures var r := MonthRecord(days[..RunLength(days)]);
      r.date.year == days[0].date.year && r.date.month == days[0].date.month &&
      ReducesGroup(r, InMonth(days, days[0].date.year, days[0].date.month))
  {
    var head := days[..RunLength(days)];
    var r := MonthRecord(head);
    assert head[0] == days[0];
    FirstMonthGroup(days);
    forall f ensures Get(r.reading, f) == Reduce(f, RecordColumn(head, f)) {
      MonthRecordField(head, f);
    }
  }

  /** The days of a month later than the first one all lie after the first run. */
  lemma LaterMonthGroup(days: seq<Record>, y: int, m: int)
    requires |days| > 0 && MonthBefore(days[0].date, Date(y, m, 1))
    ensures InMonth(days, y, m) == InMonth(days[RunLength(days)..], y, m)
  {
    InMonthSplit(days, RunLength(days), y, m);
    NotFirstMonth(days, y, m);
  }

  lemma NotFirstMonth(days: seq<Record>, y: int, m: int)
    requires |days| > 0 && MonthBefore(days[0].date, Date(y, m, 1))
    ensures InMonth(days[..RunLength(days)], y, m) == []
  {
    var head := days[..RunLength(days)];
    forall j | 0 <= j < |head| ensures !(head[j].date.year == y && head[j].date.month == m) {
      assert head[j] == days[j];
    }
    InMonthNone(head, y, m);
  }

  /** The leading run lies entirely in the first month ... */
  lemma FirstRunInMonth(days: seq<Record>)
    requires |days| > 0
    ensures InMonth(days[..RunLength(days)], days[0].date.year, days[0].date.month) == days[..RunLength(days)]
  {
    var head := days[..RunLength(days)];
    forall j | 0 <= j < |head| ensures head[j].date.year == days[0].date.year && head[j].date.month == days[0].date.month {
      assert head[j] == days[j];
    }
    InMonthAll(head, days[0].date.year, days[0].date.month);
  }

  /** ... and no later day does. */
  lemma RestNotInFirstMonth(days: seq<Record>)
    requires Chronological(days) && |days| > 0
    ensures InMonth(days[RunLength(days)..], days[0].date.year, days[0].date.month) == []
  {
    var k := RunLength(days);
    var tail := days[k..];
    forall j | 0 <= j < |tail| ensures !(tail[j].date.year == days[0].date.year && tail[j].date.month == days[0].date.month) {
      AfterFirstRun(days, j + k);
      assert tail[j] == days[j + k];
    }
    InMonthNone(tail, days[0].date.year, days[0].date.month);
  }

  /** The days of the first month are exactly its leading run. */
  lemma FirstMonthGroup(days: seq<Record>)
    requires Chronological(days) && |days| > 0
    ensures InMonth(days, days[0].date.year, days[0].date.month) == days[..RunLength(days)]
  {
    var head := days[..RunLength(days)];
    InMonthSplit(days, RunLength(days), days[0].date.year, days[0].date.month);
    FirstRunInMonth(days);
    RestNotInFirstMonth(days);
    assert head + [] == head;
  }
}
