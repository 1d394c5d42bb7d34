/**
 The calendar the KRB-CRED writer carries with it. The reference is the proleptic Gregorian
 calendar counted out year by year and month by month; `CivilFromDays` is the closed form the
 client computes.
 */
module Calendar {

  datatype Date = Date(year: int, month: int, day: int)

  // ---- The reference calendar ---------------------------------------------------

  predicate Leap(y: int) {
    y % 4 == 0 && (y % 100 != 0 || y % 400 == 0)
  }

  function YearLength(y: int): int {
    if Leap(y) then 366 else 365
  }

  function DaysInMonth(y: int, m: int): int
    requires 1 <= m <= 12
  {
    if m == 2 then (if Leap(y) then 29 else 28)
    else if m == 4 || m == 6 || m == 9 || m == 11 then 30
    else 31
  }

  predicate ValidDate(d: Date) {
    1 <= d.month <= 12 && 1 <= d.day <= DaysInMonth(d.year, d.month)
  }

  /** Days from 1 January 1970 to 1 January of year `y`, negative before 1970. */
  function YearStart(y: int): int
    decreases if y < 1970 then 1970 - y else y - 1970
  {
    if y == 1970 then 0
    else if y > 1970 then YearStart(y - 1) + YearLength(y - 1)
    else YearStart(y + 1) - YearLength(y)
  }

  /** Days of year `y` before month `m`. */
  function MonthStart(y: int, m: int): int
    requires 1 <= m <= 12
    decreases m
  {
    if m == 1 then 0 else MonthStart(y, m - 1) + DaysInMonth(y, m - 1)
  }

  /** Days from the epoch to the date. */
  function DayNumber(d: Date): int
    requires ValidDate(d)
  {
    YearStart(d.year) + MonthStart(d.year, d.month) + d.day - 1
  }

  // ---- The client's computation -------------------------------------------------

  function CivilFromDays(day: int): Date {
    var z := day + 719_468;
    var era := z / 146_097;
    var doe := z % 146_097;
    var yoe := (doe - doe / 1_460 + doe / 36_524 - doe / 146_096) / 365;
    var y := yoe + era * 400;
    var doy := doe - (365 * yoe + yoe / 4 - yoe / 100);
    var mp := (5 * doy + 2) / 153;
    var d := doy - (153 * mp + 2) / 5 + 1;
    var m := if mp < 10 then mp + 3 else mp - 9;
    Date(if m <= 2 then y + 1 else y, m, d)
  }

  // ---- Closed forms of the reference ----------------------------------------------

  /** Leap days in the years before `y`, counted from year 1. */
  function LeapsBefore(y: int): int {
    (y - 1) / 4 - (y - 1) / 100 + (y - 1) / 400
  }

  lemma DivisionStep(y: int, k: int)
    requires k == 4 || k == 100 || k == 400
    ensures y / k == (y - 1) / k + (if y % k == 0 then 1 else 0)
  {
  }

  lemma LeapsStep(y: int)
    ensures LeapsBefore(y + 1) == LeapsBefore(y) + (if Leap(y) then 1 else 0)
  {
    DivisionStep(y, 4);
    DivisionStep(y, 100);
    DivisionStep(y, 400);
    Divisibility(y);
  }

  lemma Divisibility(y: int)
    ensures y % 400 == 0 ==> y % 100 == 0
    ensures y % 100 == 0 ==> y % 4 == 0
  {
  }

  lemma {:induction false} YearStartClosed(y: int)
    ensures YearStart(y) == 365 * (y - 1970) + LeapsBefore(y) - 477
    decreases if y < 1970 then 1970 - y else y - 1970
  {
    hide LeapsBefore, Leap;
    if y > 1970 {
      YearStartClosed(y - 1);
      LeapsStep(y - 1);
    } else if y < 1970 {
      YearStartClosed(y + 1);
      LeapsStep(y);
    } else {
      assert LeapsBefore(1970) == 477 by { Leaps1970(); }
    }
  }

  lemma Leaps1970()
    ensures LeapsBefore(1970) == 477
  {
  }

  lemma MonthStarts(y: int)
    ensures MonthStart(y, 2) == 31 && MonthStart(y, 1) == 0
    ensures var f := if Leap(y) then 60 else 59;
            && MonthStart(y, 3) == f && MonthStart(y, 4) == f + 31 && MonthStart(y, 5) == f + 61
            && MonthStart(y, 6) == f + 92 && MonthStart(y, 7) == f + 122 && MonthStart(y, 8) == f + 153
            && MonthStart(y, 9) == f + 184 && MonthStart(y, 10) == f + 214 && MonthStart(y, 11) == f + 245
            && MonthStart(y, 12) == f + 275
  {
    assert MonthStart(y, 3) == MonthStart(y, 2) + DaysInMonth(y, 2);
    assert MonthStart(y, 4) == MonthStart(y, 3) + 31;
    assert MonthStart(y, 5) == MonthStart(y, 4) + 30;
    assert MonthStart(y, 6) == MonthStart(y, 5) + 31;
    assert MonthStart(y, 7) == MonthStart(y, 6) + 30;
    assert MonthStart(y, 8) == MonthStart(y, 7) + 31;
    assert MonthStart(y, 9) == MonthStart(y, 8) + 31;
    assert MonthStart(y, 10) == MonthStart(y, 9) + 30;
    assert MonthStart(y, 11) == MonthStart(y, 10) + 31;
    assert MonthStart(y, 12) == MonthStart(y, 11) + 30;
  }

  /** 1 March of year `400 * era + yoe`, in days since the epoch. */
  function MarchFirst(era: int, yoe: int): int {
    146_097 * era + 365 * yoe + yoe / 4 - yoe / 100 - 719_468
  }

  lemma MarchFirstIsMarchFirst(era: int, yoe: int)
    requires 0 <= yoe <= 399
    ensures MarchFirst(era, yoe) == YearStart(400 * era + yoe) + MonthStart(400 * era + yoe, 3)
  {
    hide LeapsBefore, Leap;
    var y := 400 * era + yoe;
    YearStartClosed(y);
    MonthStarts(y);
    LeapsStep(y);
    LeapsOfEra(era, yoe);
  }

  lemma LeapsOfEra(era: int, yoe: int)
    requires 0 <= yoe <= 399
    ensures LeapsBefore(400 * era + yoe + 1) == 97 * era + yoe / 4 - yoe / 100
  {
    var y := 400 * era + yoe;
    assert y / 4 == 100 * era + yoe / 4;
    assert y / 100 == 4 * era + yoe / 100;
    assert y / 400 == era;
  }

  // ---- The year of the era ----------------------------------------------------------

  /** The client's formula for the year of the era that day `doe` of the era falls in. */
  function YearOfEra(doe: int): int {
    (doe - doe / 1_460 + doe / 36_524 - doe / 146_096) / 365
  }

  /** Day `t` of year `4 * olympiad + year` of a century; a 366th day only in the last year of four. */
  predicate Position(century: int, olympiad: int, year: int, t: int) {
    && 0 <= century <= 3 && 0 <= olympiad <= 24 && 0 <= year <= 3
    && 0 <= t <= (if year == 3 && (olympiad < 24 || century == 3) then 365 else 364)
  }

  lemma YearOfEraAt(century: int, olympiad: int, year: int, t: int)
    requires Position(century, olympiad, year, t)
    ensures YearOfEra(36_524 * century + 1_461 * olympiad + 365 * year + t) == 100 * century + 4 * olympiad + year
  {
    var doe := 36_524 * century + 1_461 * olympiad + 365 * year + t;
    var excess := 24 * century + olympiad + 365 * year + t;
    assert doe == 1_460 * (25 * century + olympiad) + excess;
    var carry := if excess >= 1_460 then 1 else 0;
    assert doe / 1_460 == 25 * century + olympiad + carry;
    if doe == 146_096 {
      assert YearOfEra(doe) == 399;
    } else {
      assert doe / 36_524 == century && doe / 146_096 == 0;
      var n := doe - doe / 1_460 + doe / 36_524 - doe / 146_096;
      assert n == 365 * (100 * century + 4 * olympiad + year) + (t - carry);
      assert 0 <= t - carry < 365;
    }
  }

  lemma LastOfFourIsLeap(century: int, olympiad: int)
    requires 0 <= century <= 3 && 0 <= olympiad <= 24
    requires olympiad < 24 || century == 3
    ensures Leap(100 * century + 4 * olympiad + 4)
  {
    var y := 100 * century + 4 * olympiad + 4;
    assert y == 4 * (25 * century + olympiad + 1);
    assert olympiad < 24 ==> y % 100 == 4 * olympiad + 4;
  }

  /** Every day of the era is day `doy` of its year `yoe`, and the formula finds that year. */
  lemma YearOfEraCorrect(doe: int)
    requires 0 <= doe < 146_097
    ensures var yoe := YearOfEra(doe);
            var doy := doe - (365 * yoe + yoe / 4 - yoe / 100);
            && 0 <= yoe <= 399
            && 0 <= doy <= (if Leap(yoe + 1) then 365 else 364)
  {
    var century := if doe / 36_524 > 3 then 3 else doe / 36_524;
    var r := doe - 36_524 * century;
    var olympiad := if r / 1_461 > 24 then 24 else r / 1_461;
    var s := r - 1_461 * olympiad;
    var year := if s / 365 > 3 then 3 else s / 365;
    var t := s - 365 * year;
    assert Position(century, olympiad, year, t);
    YearOfEraAt(century, olympiad, year, t);
    var yoe := 100 * century + 4 * olympiad + year;
    assert yoe / 4 == 25 * century + olympiad && yoe / 100 == century;
    if t == 365 {
      LastOfFourIsLeap(century, olympiad);
    }
  }

  // ---- Months, and the theorem --------------------------------------------------------

  /** The month part of the formula: day `doy` counted from 1 March of year `y`. */
  lemma MonthCorrect(y: int, doy: int)
    requires 0 <= doy <= (if Leap(y + 1) then 365 else 364)
    ensures var mp := (5 * doy + 2) / 153;
            var m := if mp < 10 then mp + 3 else mp - 9;
            var d := Date(if m <= 2 then y + 1 else y, m, doy - (153 * mp + 2) / 5 + 1);
            && ValidDate(d)
            && YearStart(d.year) + MonthStart(d.year, m) + d.day - 1 == YearStart(y) + MonthStart(y, 3) + doy
  {
    hide Leap, YearStart;
    MonthStarts(y);
    MonthStarts(y + 1);
    assert YearStart(y + 1) == YearStart(y) + YearLength(y) by { YearStep(y); }
    var mp := (5 * doy + 2) / 153;
    assert 0 <= mp <= 11;
    if mp == 0 { } else if mp == 1 { } else if mp == 2 { } else if mp == 3 { }
    else if mp == 4 { } else if mp == 5 { } else if mp == 6 { } else if mp == 7 { }
    else if mp == 8 { } else if mp == 9 { } else if mp == 10 { } else { }
  }

  lemma YearStep(y: int)
    ensures YearStart(y + 1) == YearStart(y) + YearLength(y)
  {
  }

  lemma LeapIsPeriodic(era: int, y: int)
    ensures Leap(400 * era + y) <==> Leap(y)
  {
    ShiftedRemainder(100 * era, y, 4);
    ShiftedRemainder(4 * era, y, 100);
    ShiftedRemainder(era, y, 400);
  }

  lemma ShiftedRemainder(q: int, y: int, k: int)
    requires k == 4 || k == 100 || k == 400
    ensures (k * q + y) % k == y % k
  {
    if k == 4 {
      assert (4 * q + y) / 4 == q + y / 4;
    } else if k == 100 {
      assert (100 * q + y) / 100 == q + y / 100;
    } else {
      assert (400 * q + y) / 400 == q + y / 400;
    }
  }

  /** For every day count, the client computes the date that is that many days from the epoch. */
  lemma CivilIsDayNumber(z: int)
    ensures ValidDate(CivilFromDays(z))
    ensures DayNumber(CivilFromDays(z)) == z
  {
    hide Leap, YearStart, MonthStart, DaysInMonth;
    var era := (z + 719_468) / 146_097;
    var doe := (z + 719_468) % 146_097;
    YearOfEraCorrect(doe);
    var yoe := YearOfEra(doe);
    var doy := doe - (365 * yoe + yoe / 4 - yoe / 100);
    var y := 400 * era + yoe;
    LeapIsPeriodic(era, yoe + 1);
    MarchFirstIsMarchFirst(era, yoe);
    MonthCorrect(y, doy);
  }

  // ---- Distinct dates have distinct day counts ------------------------------------------

  lemma {:induction false} YearStartMonotone(y: int, y': int)
    requires y < y'
    ensures YearStart(y) + YearLength(y) <= YearStart(y')
    decreases y' - y
  {
    if y + 1 < y' {
      YearStartMonotone(y, y' - 1);
      YearStep(y' - 1);
    } else {
      YearStep(y);
    }
  }

  lemma {:induction false} MonthStartMonotone(y: int, m: int, m': int)
    requires 1 <= m < m' <= 12
    ensures MonthStart(y, m) + DaysInMonth(y, m) <= MonthStart(y, m')
    decreases m'
  {
    if m + 1 < m' {
      MonthStartMonotone(y, m, m' - 1);
    }
  }

  lemma DayOfYearBound(d: Date)
    requires ValidDate(d)
    ensures YearStart(d.year) <= DayNumber(d) < YearStart(d.year) + YearLength(d.year)
  {
    MonthStarts(d.year);
  }

  lemma DayNumberInjective(d: Date, d': Date)
    requires ValidDate(d) && ValidDate(d') && DayNumber(d) == DayNumber(d')
    ensures d == d'
  {
    DayOfYearBound(d);
    DayOfYearBound(d');
    if d.year < d'.year {
      YearStartMonotone(d.year, d'.year);
    } else if d'.year < d.year {
      YearStartMonotone(d'.year, d.year);
    } else if d.month < d'.month {
      MonthStartMonotone(d.year, d.month, d'.month);
    } else if d'.month < d.month {
      MonthStartMonotone(d.year, d'.month, d.month);
    }
  }

  /** And the other way round: every date of the calendar is recovered from its day count. */
  lemma CivilInvertsDayNumber(d: Date)
    requires ValidDate(d)
    ensures CivilFromDays(DayNumber(d)) == d
  {
    CivilIsDayNumber(DayNumber(d));
    DayNumberInjective(CivilFromDays(DayNumber(d)), d);
  }
}
