/**
  Day-of-water-year arithmetic and the unit conversions of the packaged
  utilities (functionalflows/utilities.py).

  A calendar date is reduced to what the arithmetic reads from it: its
  1-based day of year and whether its year is a leap year.
 */
module WaterYear {
  import opened Results

  datatype Date = Date(dayOfYear: int, isLeapYear: bool)

  /** Number of days in the calendar year of a date. */
  function YearLength(isLeapYear: bool): int {
    if isLeapYear then 366 else 365
  }

  predicate ValidDate(d: Date) {
    1 <= d.dayOfYear <= YearLength(d.isLeapYear)
  }

  /** The default first day of the water year (1 October in a non-leap year). */
  const DefaultStart: int := 274

  /**
    The configured start moved one day later when 29 February falls before
    it within the same calendar year.
   */
  function AdjustedStart(start: int, isLeapYear: bool): (s: int)
    ensures s == start || s == start + 1
    ensures s == start + 1 <==> start < 60 && isLeapYear
  {
    if start < 60 && isLeapYear then start + 1 else start
  }

  /**
    Day of the water year of date `d` for a water year starting on day
    `start` of a non-leap year. A start after day 365 is a configuration
    error. On a valid date and start the result is a day of the water year,
    and the (adjusted) start day itself is day 1.
   */
  function DayOfWaterYear(d: Date, start: int := DefaultStart): (r: Result<int>)
    ensures r.Failure? <==> start > 365
    ensures r.Failure? ==> r.error == InvalidStart(start)
    ensures r.Success? && d.dayOfYear == AdjustedStart(start, d.isLeapYear) ==> r.value == 1
    ensures 1 <= start <= 365 && ValidDate(d) ==> r.Success? && 1 <= r.value <= YearLength(d.isLeapYear)
  {
    if start > 365 then
      Failure(InvalidStart(start))
    else
      var end := YearLength(d.isLeapYear);
      var s := AdjustedStart(start, d.isLeapYear);
      Success(if d.dayOfYear < s then d.dayOfYear + (end - s) else d.dayOfYear - (s - 1))
  }

  /** With the default start, 1 January of a non-leap year is day 92. */
  lemma DefaultStartFirstOfJanuary()
    ensures DayOfWaterYear(Date(1, false)) == Success(92)
  {
  }

  /**
    Days on or after the adjusted start are counted from it, and the days
    before it continue the count of the previous water year.
   */
  lemma DayOfWaterYearShift(d1: Date, d2: Date, start: int)
    requires start <= 365 && d1.isLeapYear == d2.isLeapYear
    requires d1.dayOfYear <= d2.dayOfYear
    requires d1.dayOfYear >= AdjustedStart(start, d1.isLeapYear) || d2.dayOfYear < AdjustedStart(start, d1.isLeapYear)
    ensures DayOfWaterYear(d2, start).value - DayOfWaterYear(d1, start).value == d2.dayOfYear - d1.dayOfYear
  {
  }

  /**
    As written, the wrap adds `end - s` rather than `end - s + 1`: whenever
    the adjusted start is after 1 January, 1 January and the last day of the
    calendar year get the same day of water year, and no date gets the last
    day of the water year.
   */
  lemma DayOfWaterYearNotInjective(isLeapYear: bool, start: int)
    requires 1 <= start <= 365 && AdjustedStart(start, isLeapYear) > 1
    ensures var end := YearLength(isLeapYear);
      && DayOfWaterYear(Date(1, isLeapYear), start) == DayOfWaterYear(Date(end, isLeapYear), start)
      && DayOfWaterYear(Date(1, isLeapYear), start).value == end - AdjustedStart(start, isLeapYear) + 1
    ensures forall day :: 1 <= day <= YearLength(isLeapYear) ==>
      DayOfWaterYear(Date(day, isLeapYear), start).value < YearLength(isLeapYear)
  {
  }

  /** When the adjusted start is 1 January, the day of water year is the day of year. */
  lemma DayOfWaterYearIdentity(d: Date, start: int)
    requires start <= 365 && AdjustedStart(start, d.isLeapYear) == 1 && ValidDate(d)
    ensures DayOfWaterYear(d, start) == Success(d.dayOfYear)
  {
  }

  function DaysToHours(days: real): real { days * 24.0 }

  function HoursToMinutes(hours: real): real { hours * 60.0 }

  function MinutesToSeconds(mins: real): real { mins * 60.0 }

  function LitersToCubicMeters(liters: real): real { liters / 1000.0 }

  /**
    Litres per day to cubic metres per second: the litres become cubic
    metres and the day becomes 86400 seconds, so the whole conversion is a
    division by 86 400 000, undone by the matching multiplication.
   */
  function LitersPerDayToCubicMetersPerSecond(lpd: real): (r: real)
    ensures r * 86400000.0 == lpd
    ensures lpd > 0.0 ==> 0.0 < r < lpd
  {
    LitersToCubicMeters(lpd) / (DaysToHours(1.0) * HoursToMinutes(1.0) * MinutesToSeconds(1.0))
  }
}
