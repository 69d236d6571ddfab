/** The climate table: calendar dates and the ten daily climate variables
    the climate service returns for one location. */
module Table {

  /** A calendar date (UTC). */
  datatype Date = Date(year: int, month: int, day: int)

  predicate IsLeapYear(y: int)
  {
    y % 4 == 0 && (y % 100 != 0 || y % 400 == 0)
  }

  function DaysInMonth(y: int, m: int): int
    requires 1 <= m <= 12
  {
    if m == 2 then (if IsLeapYear(y) then 29 else 28)
    else if m == 4 || m == 6 || m == 9 || m == 11 then 30
    else 31
  }

  /** Every date a pandas timestamp can denote is a real calendar date. */
  predicate ValidDate(d: Date)
  {
    1 <= d.month <= 12 && 1 <= d.day <= DaysInMonth(d.year, d.month)
  }

  /** The ten climate variables of one row, named after their columns. */
  datatype Reading = Reading(
    temperatureMean: real,    // temperature_2m_mean
    temperatureMax: real,     // temperature_2m_max
    temperatureMin: real,     // temperature_2m_min
    windSpeedMax: real,       // wind_speed_10m_max
    cloudCoverMean: real,     // cloud_cover_mean
    radiationSum: real,       // shortwave_radiation_sum
    humidityMax: real,        // relative_humidity_2m_max
    humidityMin: real,        // relative_humidity_2m_min
    precipitationSum: real,   // precipitation_sum
    snowfallSum: real)        // snowfall_sum

  /** The names of the ten columns. */
  datatype Field =
    | TemperatureMean | TemperatureMax | TemperatureMin | WindSpeedMax | CloudCoverMean
    | RadiationSum | HumidityMax | HumidityMin | PrecipitationSum | SnowfallSum

  function Get(r: Reading, f: Field): real
  {
    match f
    case TemperatureMean => r.temperatureMean
    case TemperatureMax => r.temperatureMax
    case TemperatureMin => r.temperatureMin
    case WindSpeedMax => r.windSpeedMax
    case CloudCoverMean => r.cloudCoverMean
    case RadiationSum => r.radiationSum
    case HumidityMax => r.humidityMax
    case HumidityMin => r.humidityMin
    case PrecipitationSum => r.precipitationSum
    case SnowfallSum => r.snowfallSum
  }

  /** A row of the daily or the monthly table: its `date` and its readings. */
  datatype Record = Record(date: Date, reading: Reading)

  /** A row of the monthly table once the analysis has added its `year` and
      `month` columns. */
  datatype Row = Row(year: int, month: int, reading: Reading)

  /** One column of a table of records. */
  function RecordColumn(records: seq<Record>, f: Field): seq<real>
  {
    seq(|records|, i requires 0 <= i < |records| => Get(records[i].reading, f))
  }

  /** One column of a table of rows. */
  function Column(rows: seq<Row>, f: Field): seq<real>
  {
    seq(|rows|, i requires 0 <= i < |rows| => Get(rows[i].reading, f))
  }

  lemma ColumnAppend(a: seq<Row>, b: seq<Row>, f: Field)
    ensures Column(a + b, f) == Column(a, f) + Column(b, f)
  {
  }
}
