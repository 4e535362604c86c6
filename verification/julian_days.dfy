/** Julian days, as YmdToJd and JdToYmd compute them. */
module JulianDays {
  import opened CDivision
  import opened CivilCalendar

  const INT32_MIN: int := -0x8000_0000
  const INT32_MAX: int := 0x7fff_ffff

  function YmdToJd(d: Ymd): int {
    var year := if d.year < 0 then d.year + 1 else d.year;
    var a := FloorDiv(14 - d.month, 12);
    var y := year + 4800 - a;
    var m := d.month + 12 * a - 3;
    d.day + FloorDiv(153 * m + 2, 5) + 365 * y + FloorDiv(y, 4) - FloorDiv(y, 100) + FloorDiv(y, 400) - 32045
  }

  function JdToYmd(jd: int): Ymd {
    var a := jd + 32044;
    var b := FloorDiv(4 * a + 3, 146097);
    var c := a - FloorDiv(146097 * b, 4);
    var d := FloorDiv(4 * c + 3, 1461);
    var e := c - FloorDiv(1461 * d, 4);
    var m := FloorDiv(5 * e + 2, 153);
    var day := e - FloorDiv(153 * m + 2, 5) + 1;
    var month := m + 3 - 12 * FloorDiv(m, 10);
    var year := 100 * b + d - 4800 + FloorDiv(m, 10);
    Ymd(if year <= 0 then year - 1 else year, month, day)
  }

  // ---- Years and months counted from the first of March ----

  /** Days before the first of March of year y, in a numbering with a year 0. */
  function YearDays(y: int): int {
    365 * y + y / 4 - y / 100 + y / 400
  }

  /** Days of such a year before its month m; month 0 is March. */
  function MonthDays(m: int): int {
    (153 * m + 2) / 5
  }

  predicate LeapEnd(y: int) {
    (y + 1) % 4 == 0 && ((y + 1) % 100 != 0 || (y + 1) % 400 == 0)
  }

  lemma YearLength(y: int)
    ensures YearDays(y + 1) - YearDays(y) == if LeapEnd(y) then 366 else 365
  {
    QuotientSteps(y, 4);
    QuotientSteps(y, 100);
    QuotientSteps(y, 400);
    CenturyIsLeapCandidate(y + 1);
  }

  lemma QuotientSteps(y: int, k: int)
    requires k > 1
    ensures (y + 1) / k - y / k == if (y + 1) % k == 0 then 1 else 0
  {
    assert y == k * (y / k) + y % k;
    if y % k == k - 1 {
      assert k * (y / k + 1) == k * (y / k) + k;
      QuotientUnique(y + 1, k, y / k + 1, 0);
    } else {
      QuotientUnique(y + 1, k, y / k, y % k + 1);
    }
    assert y + 1 == k * ((y + 1) / k) + (y + 1) % k;
  }

  lemma CenturyIsLeapCandidate(y: int)
    ensures y % 400 == 0 ==> y % 100 == 0
    ensures y % 100 == 0 ==> y % 4 == 0
  {
  }

  lemma YearsGrow(y: int, z: int)
    requires y < z
    ensures YearDays(y + 1) <= YearDays(z)
    decreases z - y
  {
    if y + 1 < z {
      YearsGrow(y, z - 1);
      YearLength(z - 1);
    }
  }

  lemma YearUnique(n: int, y: int, z: int)
    requires YearDays(y) <= n < YearDays(y + 1) && YearDays(z) <= n < YearDays(z + 1)
    ensures y == z
  {
    if y < z {
      YearsGrow(y, z);
    } else if z < y {
      YearsGrow(z, y);
    }
  }

  /** The century b and the year d of the century that contain day n. */
  lemma CenturyBounds(n: int) returns (b: int, c: int, d: int)
    ensures b == (4 * n + 3) / 146097 && c == n - 146097 * b / 4 && d == (4 * c + 3) / 1461
    ensures 0 <= c <= 36524 && (c == 36524 ==> b % 4 == 3) && 0 <= d <= 99
  {
    b := (4 * n + 3) / 146097;
    c := n - 146097 * b / 4;
    d := (4 * c + 3) / 1461;
    var q, s := b / 4, b % 4;
    assert b == 4 * q + s;
    assert 146097 * b / 4 == 146097 * q + 36524 * s;
  }

  lemma YearStart(b: int, d: int)
    requires 0 <= d <= 99
    ensures YearDays(100 * b + d) == 146097 * b / 4 + 1461 * d / 4
  {
    var y := 100 * b + d;
    assert y / 100 == b && y / 4 == 25 * b + d / 4 && y / 400 == b / 4;
  }

  /** The century and year steps of JdToYmd find the year that contains day n. */
  lemma YearFound(n: int) returns (b: int, c: int, d: int)
    ensures b == (4 * n + 3) / 146097 && c == n - 146097 * b / 4 && d == (4 * c + 3) / 1461
    ensures YearDays(100 * b + d) <= n < YearDays(100 * b + d + 1)
    ensures c - 1461 * d / 4 == n - YearDays(100 * b + d)
    ensures 0 <= c <= 36524 && 0 <= d <= 99
  {
    b, c, d := CenturyBounds(n);
    YearStart(b, d);
    YearLength(100 * b + d);
    var e := c - 1461 * d / 4;
    assert 0 <= e <= 365;
    if e == 365 {
      LastDayOfLeapYear(b, c, d);
    }
  }

  lemma LastDayOfLeapYear(b: int, c: int, d: int)
    requires 0 <= c <= 36524 && (c == 36524 ==> b % 4 == 3) && d == (4 * c + 3) / 1461 && 0 <= d <= 99
    requires c - 1461 * d / 4 == 365
    ensures LeapEnd(100 * b + d)
  {
    var y := 100 * b + d + 1;
    assert d % 4 == 3;
    assert y % 4 == 0;
    if d == 99 {
      assert c == 36524;
      assert y == 100 * (b + 1);
      assert (b + 1) % 4 == 0;
      assert y == 400 * ((b + 1) / 4);
    } else {
      assert y % 100 == d + 1;
    }
  }

  lemma MonthFound(e: int, m: int)
    requires 0 <= e <= 365 && m == (5 * e + 2) / 153
    ensures 0 <= m <= 11 && MonthDays(m) <= e < MonthDays(m + 1)
  {
  }

  lemma MonthUnique(e: int, m: int)
    requires 0 <= m <= 11 && MonthDays(m) <= e < MonthDays(m + 1) && e <= 365
    ensures m == (5 * e + 2) / 153
  {
  }

  // ---- The two conversions ----

  /** YmdToJd and JdToYmd with plain quotients. */
  lemma Unfolded(d: Ymd)
    ensures var a := (14 - d.month) / 12;
            var y := Astronomical(d.year) + 4800 - a;
            YmdToJd(d) == d.day + MonthDays(d.month + 12 * a - 3) + YearDays(y) - 32045
  {
    hide FloorDiv;
    var a := (14 - d.month) / 12;
    var y := Astronomical(d.year) + 4800 - a;
    FloorDivIsFloor(14 - d.month, 12);
    FloorDivIsFloor(153 * (d.month + 12 * a - 3) + 2, 5);
    FloorDivIsFloor(y, 4);
    FloorDivIsFloor(y, 100);
    FloorDivIsFloor(y, 400);
  }

  lemma UnfoldedInverse(jd: int)
    ensures var a := jd + 32044;
            var b := (4 * a + 3) / 146097;
            var c := a - 146097 * b / 4;
            var t := (4 * c + 3) / 1461;
            var e := c - 1461 * t / 4;
            var m := (5 * e + 2) / 153;
            var year := 100 * b + t - 4800 + m / 10;
            JdToYmd(jd) == Ymd(if year <= 0 then year - 1 else year, m + 3 - 12 * (m / 10), e - MonthDays(m) + 1)
  {
    hide FloorDiv;
    var a := jd + 32044;
    FloorDivIsFloor(4 * a + 3, 146097);
    var b := (4 * a + 3) / 146097;
    FloorDivIsFloor(146097 * b, 4);
    var c := a - 146097 * b / 4;
    FloorDivIsFloor(4 * c + 3, 1461);
    var t := (4 * c + 3) / 1461;
    FloorDivIsFloor(1461 * t, 4);
    var e := c - 1461 * t / 4;
    FloorDivIsFloor(5 * e + 2, 153);
    var m := (5 * e + 2) / 153;
    FloorDivIsFloor(153 * m + 2, 5);
    FloorDivIsFloor(m, 10);
  }

  /** The year (from March, with a year 0), month and day that a Julian day falls in. */
  datatype Place = Place(y: int, m: int, day: int)

  predicate InPlace(n: int, p: Place) {
    && 0 <= p.m <= 11
    && n == YearDays(p.y) + MonthDays(p.m) + p.day - 1
    && 1 <= p.day <= MonthDays(p.m + 1) - MonthDays(p.m)
    && YearDays(p.y) <= n < YearDays(p.y + 1)
  }

  function DateOf(p: Place): Ymd {
    var year := p.y - 4800 + p.m / 10;
    Ymd(if year <= 0 then year - 1 else year, p.m + 3 - 12 * (p.m / 10), p.day)
  }

  lemma PlaceFound(jd: int) returns (p: Place)
    ensures InPlace(jd + 32044, p) && JdToYmd(jd) == DateOf(p)
  {
    hide FloorDiv, JdToYmd, YearDays, MonthDays, LeapEnd, InPlace;
    var b, c, d := YearFound(jd + 32044);
    UnfoldedInverse(jd);
    p := PlaceInYear(jd + 32044, 100 * b + d, c - 1461 * d / 4);
  }

  lemma PlaceInYear(n: int, y: int, e: int) returns (p: Place)
    requires YearDays(y) <= n < YearDays(y + 1) && e == n - YearDays(y)
    ensures InPlace(n, p) && p.y == y && p.m == (5 * e + 2) / 153 && p.day == e - MonthDays(p.m) + 1
  {
    hide YearDays, LeapEnd;
    YearLength(y);
    var m := (5 * e + 2) / 153;
    MonthFound(e, m);
    p := Place(y, m, e - MonthDays(m) + 1);
  }

  lemma PlaceUnique(n: int, p: Place, q: Place)
    requires InPlace(n, p) && InPlace(n, q)
    ensures p == q
  {
    YearUnique(n, p.y, q.y);
    YearLength(p.y);
    var e := n - YearDays(p.y);
    MonthUnique(e, p.m);
    MonthUnique(e, q.m);
  }

  /** Lengths of the months, seen from March. */
  lemma PlaceIsDate(n: int, p: Place)
    requires InPlace(n, p)
    ensures IsDate(DateOf(p))
  {
    YearLength(p.y);
    var d := DateOf(p);
    if p.m == 11 {
      LeapShift(p.y, d.year);
      assert p.day <= MonthLength(d.year, 2);
    } else if p.m == 10 {
    } else {
      assert p.day <= MonthLength(d.year, p.m + 3);
    }
  }

  lemma LeapShift(y: int, year: int)
    requires Astronomical(year) == y - 4799
    ensures IsLeap(year) <==> LeapEnd(y)
  {
  }

  /** The place of a valid date. */
  function PlaceOf(d: Ymd): Place {
    if d.month <= 2 then Place(Astronomical(d.year) + 4799, d.month + 9, d.day)
    else Place(Astronomical(d.year) + 4800, d.month - 3, d.day)
  }

  lemma MonthLengthPlaced(d: Ymd)
    requires IsDate(d)
    ensures var p := PlaceOf(d);
            if p.m == 11 then YearDays(p.y + 1) == YearDays(p.y) + MonthDays(11) + MonthLength(d.year, d.month)
            else MonthDays(p.m + 1) == MonthDays(p.m) + MonthLength(d.year, d.month)
  {
    hide IsLeap, LeapEnd, YearDays;
    var p := PlaceOf(d);
    YearLength(p.y);
    if d.month == 2 {
      LeapShift(p.y, d.year);
    }
  }

  /** The formula of YmdToJd, in terms of the date's place. */
  lemma JdOfPlace(d: Ymd)
    requires 1 <= d.month <= 12
    ensures var p := PlaceOf(d); YmdToJd(d) + 32044 == YearDays(p.y) + MonthDays(p.m) + d.day - 1
  {
    hide FloorDiv, YmdToJd, YearDays, MonthDays;
    Unfolded(d);
    assert (14 - d.month) / 12 == if d.month <= 2 then 1 else 0;
  }

  lemma MonthEnds(m: int)
    requires 0 <= m <= 11
    ensures 28 < MonthDays(m + 1) - MonthDays(m) && (m < 11 ==> MonthDays(m + 1) <= 337)
  {
  }

  lemma DatePlaced(d: Ymd)
    requires IsDate(d)
    ensures InPlace(YmdToJd(d) + 32044, PlaceOf(d)) && DateOf(PlaceOf(d)) == d
  {
    hide FloorDiv, YmdToJd, YearDays, MonthDays, IsLeap, LeapEnd;
    JdOfPlace(d);
    MonthLengthPlaced(d);
    MonthEnds(PlaceOf(d).m);
    YearLength(PlaceOf(d).y);
    MonthSize(PlaceOf(d).m);
    assert MonthDays(12) - MonthDays(11) == 30 by { LastMonth(); }
  }

  lemma LastMonth()
    ensures MonthDays(12) - MonthDays(11) == 30
  {
  }

  lemma MonthSize(m: int)
    requires 0 <= m <= 11
    ensures 0 <= MonthDays(m) <= 340
  {
  }

  lemma PlaceOfDate(n: int, p: Place)
    requires InPlace(n, p)
    ensures PlaceOf(DateOf(p)) == p
  {
  }

  /** Converting a date to a Julian day and back gives the date. */
  lemma DateRoundTrip(d: Ymd)
    requires IsDate(d)
    ensures JdToYmd(YmdToJd(d)) == d
  {
    hide FloorDiv, JdToYmd, YmdToJd, InPlace, IsDate, DateOf, PlaceOf;
    DatePlaced(d);
    var p := PlaceFound(YmdToJd(d));
    PlaceUnique(YmdToJd(d) + 32044, p, PlaceOf(d));
  }

  /** Every Julian day, negative ones included, is a valid date that converts back to it. */
  lemma DayRoundTrip(jd: int)
    ensures IsDate(JdToYmd(jd))
    ensures YmdToJd(JdToYmd(jd)) == jd
  {
    hide FloorDiv, JdToYmd, YmdToJd, IsDate, DateOf, PlaceOf, YearDays, MonthDays;
    var p := PlaceFound(jd);
    PlaceIsDate(jd + 32044, p);
    PlaceOfDate(jd + 32044, p);
    DatePlaced(DateOf(p));
  }

  // ---- The conversions follow the calendar ----

  lemma NextDayIsDate(d: Ymd)
    requires IsDate(d)
    ensures IsDate(NextDay(d)) && Before(d, NextDay(d))
  {
  }

  lemma PlaceOfNextDay(d: Ymd)
    requires IsDate(d)
    ensures var p, q := PlaceOf(d), PlaceOf(NextDay(d));
            q == if d.day < MonthLength(d.year, d.month) then p.(day := p.day + 1)
                 else if p.m == 11 then Place(p.y + 1, 0, 1)
                 else Place(p.y, p.m + 1, 1)
  {
    hide IsLeap;
  }

  lemma NextDayIsNextJd(d: Ymd)
    requires IsDate(d)
    ensures YmdToJd(NextDay(d)) == YmdToJd(d) + 1
  {
    hide FloorDiv, YmdToJd, JdToYmd, YearDays, MonthLength, NextDay, PlaceOf, DateOf, Before;
    NextDayIsDate(d);
    DatePlaced(d);
    DatePlaced(NextDay(d));
    MonthLengthPlaced(d);
    PlaceOfNextDay(d);
    assert PlaceOf(d).day == d.day by { PlaceKeepsDay(d); }
  }

  lemma PlaceKeepsDay(d: Ymd)
    ensures PlaceOf(d).day == d.day
  {
  }

  /** The day after a Julian day is its successor in the calendar. */
  lemma Successor(jd: int)
    ensures JdToYmd(jd + 1) == NextDay(JdToYmd(jd))
  {
    hide *;
    DayRoundTrip(jd);
    NextDayIsNextJd(JdToYmd(jd));
    NextDayIsDate(JdToYmd(jd));
    DateRoundTrip(NextDay(JdToYmd(jd)));
  }

  /** Counting days and counting Julian days agree, from any starting day. */
  lemma {:induction false} DaysCounted(jd: int, n: nat)
    ensures JdToYmd(jd + n) == DaysAfter(JdToYmd(jd), n)
  {
    hide FloorDiv, JdToYmd, NextDay;
    if n > 0 {
      DaysCounted(jd, n - 1);
      Successor(jd + n - 1);
    }
  }

  /** The Unix epoch and day 0 of the Julian period, which fix the count. */
  lemma Anchors()
    ensures JdToYmd(2440588) == Ymd(1970, 1, 1)
    ensures JdToYmd(0) == Ymd(-4714, 11, 24)
  {
    hide FloorDiv, JdToYmd, YmdToJd;
    Unfolded(Ymd(1970, 1, 1));
    Unfolded(Ymd(-4714, 11, 24));
    DateRoundTrip(Ymd(1970, 1, 1));
    DateRoundTrip(Ymd(-4714, 11, 24));
  }

  lemma {:induction false} LaterIsAfter(jd: int, n: nat)
    requires n > 0
    ensures Before(JdToYmd(jd), JdToYmd(jd + n))
  {
    hide FloorDiv, JdToYmd, NextDay, IsDate;
    DayRoundTrip(jd + n - 1);
    Successor(jd + n - 1);
    NextDayIsDate(JdToYmd(jd + n - 1));
    if n > 1 {
      LaterIsAfter(jd, n - 1);
    }
  }

  /** Julian-day order is date order. */
  lemma OrderAgrees(i: int, j: int)
    ensures i < j <==> Before(JdToYmd(i), JdToYmd(j))
  {
    hide FloorDiv, JdToYmd;
    if i < j {
      LaterIsAfter(i, j - i);
    } else if j < i {
      LaterIsAfter(j, i - j);
    }
  }
}
