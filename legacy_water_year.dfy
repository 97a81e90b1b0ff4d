/**
  The legacy day-of-water-year map (utilities.py), whose water year always
  starts on 1 October.
 */
module LegacyWaterYear {
  import opened WaterYear

  /** Day of year of 1 October. */
  function October1(isLeapYear: bool): int {
    if isLeapYear then 275 else 274
  }

  /** Day of water year with the fixed 1 October start; 1 October is day 1. */
  function Dowy(d: Date): (r: int)
    ensures d.dayOfYear == October1(d.isLeapYear) ==> r == 1
    ensures ValidDate(d) ==> 1 <= r <= YearLength(d.isLeapYear)
  {
    var oct1 := October1(d.isLeapYear);
    if d.dayOfYear < oct1 then d.dayOfYear + 92 else d.dayOfYear - (oct1 - 1)
  }

  /** The day of year that has day of water year `w`. */
  function DayOfYearOf(w: int, isLeapYear: bool): int {
    if w <= 92 then w + October1(isLeapYear) - 1 else w - 92
  }

  /**
    The legacy map is a bijection from the days of a calendar year onto the
    days of the water year: `DayOfYearOf` inverts it on both sides.
   */
  lemma DowyBijection(d: Date, w: int)
    ensures ValidDate(d) ==> DayOfYearOf(Dowy(d), d.isLeapYear) == d.dayOfYear
    ensures 1 <= w <= YearLength(d.isLeapYear) ==>
      var back := Date(DayOfYearOf(w, d.isLeapYear), d.isLeapYear);
      ValidDate(back) && Dowy(back) == w
  {
  }

  /**
    1 January is day 93 of the legacy water year, one more than the packaged
    map gives for the same date with its default start.
   */
  lemma LegacyAndPackagedDisagree()
    ensures Dowy(Date(1, false)) == 93
    ensures DayOfWaterYear(Date(1, false), DefaultStart).value == 92
  {
  }
}
