/** The crash records the dashboard works on, and the small wrappers used for
    values pandas reports as missing (NaN) and for lookups that raise. */
module Records {

  datatype Option<+T> = None | Some(value: T)

  datatype Result<+T, +E> = Success(value: T) | Failure(error: E)

  /** A calendar date as produced by parsing the CRASH_DATE column. */
  datatype Date = Date(year: int, month: int, day: int)

  predicate IsLeapYear(y: int) {
    y % 4 == 0 && (y % 100 != 0 || y % 400 == 0)
  }

  function DaysInMonth(y: int, m: int): (n: int)
    requires 1 <= m <= 12
    ensures 28 <= n <= 31
  {
    if m == 2 then (if IsLeapYear(y) then 29 else 28)
    else if m == 4 || m == 6 || m == 9 || m == 11 then 30
    else 31
  }

  predicate IsCalendarDate(d: Date) {
    1 <= d.month <= 12 && 1 <= d.day <= DaysInMonth(d.year, d.month)
  }

  /** A parsed crash date that is present: a real calendar date. Rows whose
      CRASH_DATE is missing (parsed to NaT, giving a NaN month) are not part of
      this model. */
  type CrashDate = d: Date | IsCalendarDate(d) witness Date(2017, 1, 1)

  /** One row of the crash CSV after its date column has been parsed.
      LAT and LON may be missing; so may the categorical columns. */
  datatype CsvRow = CsvRow(
    crashDate: CrashDate,
    lat: Option<real>,
    lon: Option<real>,
    county: Option<string>,
    collision: Option<string>,
    severity: Option<string>)

  /** A row of the loaded data frame: the CSV row plus the derived Month column. */
  datatype Crash = Crash(
    crashDate: CrashDate,
    month: int,
    lat: Option<real>,
    lon: Option<real>,
    county: Option<string>,
    collision: Option<string>,
    severity: Option<string>)

  /** The two columns the pie chart can be drawn by: CNTY_NAME and MANR_COLL_DESCR. */
  datatype Field = County | CollisionType

  function FieldValue(c: Crash, f: Field): Option<string> {
    match f
    case County => c.county
    case CollisionType => c.collision
  }

  /** The number of records whose Month column is m. */
  function CountMonth(data: seq<Crash>, m: int): (n: nat)
    ensures n <= |data|
  {
    if |data| == 0 then 0
    else CountMonth(data[..|data| - 1], m) + (if data[|data| - 1].month == m then 1 else 0)
  }

  lemma {:induction false} CountMonthPositive(data: seq<Crash>, m: int)
    ensures CountMonth(data, m) > 0 <==> exists i :: 0 <= i < |data| && data[i].month == m
  {
    if |data| > 0 {
      var init := data[..|data| - 1];
      CountMonthPositive(init, m);
      if exists i :: 0 <= i < |init| && init[i].month == m {
        var i :| 0 <= i < |init| && init[i].month == m;
        assert data[i].month == m;
      }
      if exists i :: 0 <= i < |data| && data[i].month == m {
        var i :| 0 <= i < |data| && data[i].month == m;
        if i < |init| {
          assert init[i].month == m;
        }
      }
    }
  }
}
