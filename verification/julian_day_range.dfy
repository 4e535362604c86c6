/** When the 32-bit arithmetic of the conversions stays in range. */
module JulianDayRange {
  import opened CDivision
  import opened CivilCalendar
  import opened JulianDays

  const JD_MIN: int := -536866432
  const JD_MAX: int := 536838867

  predicate Fits(v: int) {
    INT32_MIN <= v <= INT32_MAX
  }

  /** The dividend FloorDiv hands to the machine's division, for a positive divisor. */
  function Dividend(a: int, b: int): int {
    a - (if a < 0 then b - 1 else 0)
  }

  predicate CenturyStepFits(a: int) {
    var b := FloorDiv(4 * a + 3, 146097);
    && Fits(a) && Fits(4 * a) && Fits(4 * a + 3) && Fits(Dividend(4 * a + 3, 146097)) && Fits(b)
    && Fits(146097 * b) && Fits(Dividend(146097 * b, 4)) && Fits(a - FloorDiv(146097 * b, 4))
  }

  predicate YearStepFits(c: int) {
    var d := FloorDiv(4 * c + 3, 1461);
    && Fits(4 * c) && Fits(4 * c + 3) && Fits(Dividend(4 * c + 3, 1461)) && Fits(d)
    && Fits(1461 * d) && Fits(Dividend(1461 * d, 4)) && Fits(c - FloorDiv(1461 * d, 4))
  }

  predicate MonthStepFits(e: int) {
    var m := FloorDiv(5 * e + 2, 153);
    && Fits(5 * e) && Fits(5 * e + 2) && Fits(Dividend(5 * e + 2, 153)) && Fits(m)
    && Fits(153 * m) && Fits(153 * m + 2) && Fits(Dividend(153 * m + 2, 5)) && Fits(e - FloorDiv(153 * m + 2, 5) + 1)
    && Fits(m + 3) && Fits(12 * FloorDiv(m, 10)) && Fits(m + 3 - 12 * FloorDiv(m, 10))
  }

  predicate YearResultFits(b: int, d: int, carry: int) {
    && Fits(100 * b) && Fits(100 * b + d) && Fits(100 * b + d - 4800)
    && Fits(100 * b + d - 4800 + carry) && Fits(100 * b + d - 4800 + carry - 1)
  }

  /** Every intermediate value of the conversion to a date fits. */
  predicate JdToYmdFits(jd: int) {
    var a := jd + 32044;
    var b := FloorDiv(4 * a + 3, 146097);
    var c := a - FloorDiv(146097 * b, 4);
    var d := FloorDiv(4 * c + 3, 1461);
    var e := c - FloorDiv(1461 * d, 4);
    var m := FloorDiv(5 * e + 2, 153);
    CenturyStepFits(a) && YearStepFits(c) && MonthStepFits(e) && YearResultFits(b, d, FloorDiv(m, 10))
  }

  /** Every intermediate value of the conversion to a Julian day fits. */
  predicate YmdToJdFits(date: Ymd) {
    var year := if date.year < 0 then date.year + 1 else date.year;
    var a := FloorDiv(14 - date.month, 12);
    var y := year + 4800 - a;
    var m := date.month + 12 * a - 3;
    var s1 := date.day + FloorDiv(153 * m + 2, 5);
    var s2 := s1 + 365 * y;
    var s3 := s2 + FloorDiv(y, 4);
    var s4 := s3 - FloorDiv(y, 100);
    var s5 := s4 + FloorDiv(y, 400);
    && Fits(year) && Fits(14 - date.month) && Fits(Dividend(14 - date.month, 12)) && Fits(a)
    && Fits(year + 4800) && Fits(y) && Fits(12 * a) && Fits(date.month + 12 * a) && Fits(m)
    && Fits(153 * m) && Fits(153 * m + 2) && Fits(Dividend(153 * m + 2, 5)) && Fits(365 * y)
    && Fits(Dividend(y, 4)) && Fits(Dividend(y, 100)) && Fits(Dividend(y, 400))
    && Fits(s1) && Fits(s2) && Fits(s3) && Fits(s4) && Fits(s5) && Fits(s5 - 32045)
  }

  /** The conversion to a date is free of overflow on exactly this range of days. */
  lemma DayRangeExact(jd: int)
    ensures JdToYmdFits(jd) <==> JD_MIN <= jd <= JD_MAX
  {
    hide FloorDiv, YearStepFits, MonthStepFits, YearResultFits;
    if JD_MIN <= jd <= JD_MAX {
      DayRangeSuffices(jd);
    } else {
      assert !Fits(4 * (jd + 32044) + 3) || !Fits(Dividend(4 * (jd + 32044) + 3, 146097));
    }
  }

  lemma DayRangeSuffices(jd: int)
    requires JD_MIN <= jd <= JD_MAX
    ensures JdToYmdFits(jd)
  {
    hide FloorDiv, CenturyStepFits, YearStepFits, MonthStepFits, YearResultFits;
    var a := jd + 32044;
    CenturyFits(a);
    YearFits(a - 146097 * ((4 * a + 3) / 146097) / 4);
  }

  lemma CenturyFits(a: int)
    requires JD_MIN <= a - 32044 <= JD_MAX
    ensures var b := FloorDiv(4 * a + 3, 146097);
            var c := a - FloorDiv(146097 * b, 4);
            && CenturyStepFits(a) && -14700 <= b <= 14700 && 0 <= c <= 36524
            && c == a - 146097 * ((4 * a + 3) / 146097) / 4
            && forall d, carry | 0 <= d <= 99 && 0 <= carry <= 1 :: YearResultFits(b, d, carry)
  {
    hide FloorDiv;
    var b, c, d := CenturyBounds(a);
    FloorDivIsFloor(4 * a + 3, 146097);
    FloorDivIsFloor(146097 * b, 4);
    CenturySize(a, b);
  }

  lemma CenturySize(a: int, b: int)
    requires JD_MIN <= a - 32044 <= JD_MAX && b == (4 * a + 3) / 146097
    ensures -14700 <= b <= 14700
    ensures Fits(4 * a + 3) && Fits(Dividend(4 * a + 3, 146097))
    ensures Fits(146097 * b) && Fits(Dividend(146097 * b, 4))
  {
  }

  lemma YearFits(c: int)
    requires 0 <= c <= 36524
    ensures var d := FloorDiv(4 * c + 3, 1461);
            var e := c - FloorDiv(1461 * d, 4);
            var m := FloorDiv(5 * e + 2, 153);
            0 <= d <= 99 && YearStepFits(c) && MonthStepFits(e) && 0 <= FloorDiv(m, 10) <= 1
  {
    hide FloorDiv, MonthStepFits;
    var d := (4 * c + 3) / 1461;
    FloorDivIsFloor(4 * c + 3, 1461);
    FloorDivIsFloor(1461 * d, 4);
    var e := c - 1461 * d / 4;
    assert 0 <= e <= 365;
    MonthFits(e);
  }

  lemma MonthFits(e: int)
    requires 0 <= e <= 365
    ensures MonthStepFits(e) && 0 <= FloorDiv(FloorDiv(5 * e + 2, 153), 10) <= 1
  {
    hide FloorDiv;
    var m := (5 * e + 2) / 153;
    FloorDivIsFloor(5 * e + 2, 153);
    FloorDivIsFloor(153 * m + 2, 5);
    FloorDivIsFloor(m, 10);
  }

  /** For those days the way back does not overflow either. */
  lemma WayBackFits(jd: int)
    requires JD_MIN <= jd <= JD_MAX
    ensures YmdToJdFits(JdToYmd(jd))
  {
    hide FloorDiv, JdToYmd, YmdToJd, IsLeap, YearDays, YmdToJdFits;
    DayRoundTrip(jd);
    var date := JdToYmd(jd);
    DatePlaced(date);
    YearSize(PlaceOf(date).y);
    MonthSize(PlaceOf(date).m);
    YearsFit(date);
  }

  lemma YearsFit(date: Ymd)
    requires IsDate(date) && -1500000 <= date.year <= 1500000
    ensures YmdToJdFits(date)
  {
    hide FloorDiv, IsLeap;
    var year := Astronomical(date.year);
    var a := (14 - date.month) / 12;
    var y := year + 4800 - a;
    var m := date.month + 12 * a - 3;
    FloorDivIsFloor(14 - date.month, 12);
    assert a == if date.month <= 2 then 1 else 0;
    FloorDivIsFloor(153 * m + 2, 5);
    FloorDivIsFloor(y, 4);
    FloorDivIsFloor(y, 100);
    FloorDivIsFloor(y, 400);
  }

  lemma YearSize(y: int)
    ensures y >= 0 ==> 365 * y <= YearDays(y) <= 366 * y
    ensures y < 0 ==> 366 * y - 3 <= YearDays(y) <= 365 * y + 3
  {
  }
}
