/** The proleptic Gregorian calendar by its rules: month lengths, leap years, and the
    successor of a day.  There is no year 0; the year before 1 is -1. */
module CivilCalendar {

  datatype Ymd = Ymd(year: int, month: int, day: int)

  /** The year in a numbering that has a year 0. */
  function Astronomical(year: int): int {
    if year < 0 then year + 1 else year
  }

  predicate IsLeap(year: int) {
    var y := Astronomical(year);
    y % 4 == 0 && (y % 100 != 0 || y % 400 == 0)
  }

  function MonthLength(year: int, month: int): int {
    if month == 2 then (if IsLeap(year) then 29 else 28)
    else if month in {4, 6, 9, 11} then 30
    else 31
  }

  predicate IsDate(d: Ymd) {
    d.year != 0 && 1 <= d.month <= 12 && 1 <= d.day <= MonthLength(d.year, d.month)
  }

  function NextYear(year: int): int {
    if year == -1 then 1 else year + 1
  }

  function NextDay(d: Ymd): Ymd {
    if d.day < MonthLength(d.year, d.month) then d.(day := d.day + 1)
    else if d.month < 12 then Ymd(d.year, d.month + 1, 1)
    else Ymd(NextYear(d.year), 1, 1)
  }

  function DaysAfter(d: Ymd, n: nat): Ymd {
    if n == 0 then d else NextDay(DaysAfter(d, n - 1))
  }

  predicate Before(a: Ymd, b: Ymd) {
    || a.year < b.year
    || (a.year == b.year && a.month < b.month)
    || (a.year == b.year && a.month == b.month && a.day < b.day)
  }

  /** The number of days of a year before the first of a month. */
  function DaysBeforeMonth(year: int, month: int): int {
    if month <= 1 then 0 else DaysBeforeMonth(year, month - 1) + MonthLength(year, month - 1)
  }
}
