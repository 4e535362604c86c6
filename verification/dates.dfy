/** The Date class. */
module Dates {
  import opened CDivision
  import opened CivilCalendar
  import opened JulianDays

  const DATE_JD_INVALID: int := INT32_MIN

  /** Length of a month in a common year; 0 for a number that is no month. */
  function DaysInMonthTable(month: int): int {
    var days := [0, 31, 28, 31, 30, 31, 30, 31, 31, 30, 31, 30, 31];
    days[if month < 1 || month > 12 then 0 else month]
  }

  predicate IsLeapYear(year: int) {
    var y := if year < 1 then year + 1 else year;
    (TruncMod(y, 4) == 0 && TruncMod(y, 100) != 0) || TruncMod(y, 400) == 0
  }

  predicate IsValid(year: int, month: int, day: int) {
    && year != 0
    && day >= 1
    && (day <= DaysInMonthTable(month) || (day == 29 && month == 2 && IsLeapYear(year)))
  }

  function DayOfWeek(jd: int): int {
    if jd >= 0 then TruncMod(jd, 7) + 1 else TruncMod(jd + 1, 7) + 7
  }

  function DayOfYear(jd: int): int {
    jd - YmdToJd(Ymd(JdToYmd(jd).year, 1, 1)) + 1
  }

  lemma LeapRule(year: int)
    requires year != 0
    ensures IsLeapYear(year) <==> IsLeap(year)
  {
    hide TruncMod;
    var y := Astronomical(year);
    ZeroRemainder(y, 4);
    ZeroRemainder(y, 100);
    ZeroRemainder(y, 400);
    CenturyIsLeapCandidate(y);
  }

  /** Date::IsValid accepts exactly the dates of the calendar. */
  lemma ValidIsDate(year: int, month: int, day: int)
    ensures IsValid(year, month, day) <==> IsDate(Ymd(year, month, day))
  {
    hide IsLeapYear, IsLeap;
    if year != 0 {
      LeapRule(year);
    }
  }

  /** Monday is 1 and Sunday 7, cyclically through the negative days as well. */
  lemma WeekIsCyclic(jd: int)
    ensures DayOfWeek(jd) == jd % 7 + 1
    ensures DayOfWeek(jd + 1) == if DayOfWeek(jd) == 7 then 1 else DayOfWeek(jd) + 1
  {
  }

  lemma {:induction false} MonthStart(year: int, month: int)
    requires year != 0 && 1 <= month <= 12
    ensures YmdToJd(Ymd(year, month, 1)) == YmdToJd(Ymd(year, 1, 1)) + DaysBeforeMonth(year, month)
  {
    hide YmdToJd, IsLeap, FloorDiv;
    if month > 1 {
      MonthStart(year, month - 1);
      DayInMonth(year, month - 1, MonthLength(year, month - 1));
      NextDayIsNextJd(Ymd(year, month - 1, MonthLength(year, month - 1)));
    }
  }

  lemma DayInMonth(year: int, month: int, day: int)
    ensures YmdToJd(Ymd(year, month, day)) == YmdToJd(Ymd(year, month, 1)) + day - 1
  {
    hide FloorDiv;
  }

  /** The day of the year is the sum of the preceding month lengths plus the day. */
  lemma DayOfYearMeaning(jd: int)
    ensures var d := JdToYmd(jd); DayOfYear(jd) == DaysBeforeMonth(d.year, d.month) + d.day
  {
    hide FloorDiv, JdToYmd, YmdToJd, MonthLength;
    DayRoundTrip(jd);
    var d := JdToYmd(jd);
    MonthStart(d.year, d.month);
    DayInMonth(d.year, d.month, d.day);
  }

  class Date {
    var jd: int

    constructor ()
      ensures jd == -0x8000_0000
    {
      jd := DATE_JD_INVALID;
    }

    /** Afterwards the object holds the date it was given, or the invalid date. */
    method Set(year: int, month: int, day: int)
      modifies this
      ensures if IsDate(Ymd(year, month, day)) then JdToYmd(jd) == Ymd(year, month, day) else jd == -0x8000_0000
    {
      hide FloorDiv, JdToYmd, YmdToJd, IsDate;
      ValidIsDate(year, month, day);
      if IsValid(year, month, day) {
        DateRoundTrip(Ymd(year, month, day));
        jd := YmdToJd(Ymd(year, month, day));
      } else {
        jd := DATE_JD_INVALID;
      }
    }

    /** `operator +=`: the calendar date moves on by that many days, or back if there are fewer than none.  The number
        that stands for the invalid date is moved like any other day number. */
    method Add(days: int)
      modifies this
      ensures days >= 0 ==> JdToYmd(jd) == DaysAfter(JdToYmd(old(jd)), days)
      ensures days <= 0 ==> DaysAfter(JdToYmd(jd), -days) == JdToYmd(old(jd))
    {
      hide FloorDiv, JdToYmd, NextDay;
      MovedBy(jd, days);
      jd := jd + days;
    }

    /** `operator -=`: the other way round. */
    method Subtract(days: int)
      modifies this
      ensures days >= 0 ==> DaysAfter(JdToYmd(jd), days) == JdToYmd(old(jd))
      ensures days <= 0 ==> JdToYmd(jd) == DaysAfter(JdToYmd(old(jd)), -days)
    {
      hide FloorDiv, JdToYmd, NextDay;
      MovedBy(jd, -days);
      jd := jd - days;
    }
  }

  lemma MovedBy(jd: int, days: int)
    ensures days >= 0 ==> JdToYmd(jd + days) == DaysAfter(JdToYmd(jd), days)
    ensures days <= 0 ==> DaysAfter(JdToYmd(jd + days), -days) == JdToYmd(jd)
  {
    hide FloorDiv, JdToYmd, NextDay;
    if days >= 0 {
      DaysCounted(jd, days);
    }
    if days <= 0 {
      DaysCounted(jd + days, -days);
    }
  }
}
