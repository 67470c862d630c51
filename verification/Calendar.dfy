/**
 The proleptic Gregorian calendar in UTC, days counted from 1970-01-01.
 Month lengths and leap years follow section 5.7 and Appendix C of RFC 3339.
 */
module Calendar {

  datatype Date = Date(year: int, month: int, day: int)

  predicate IsLeap(y: int) {
    y % 4 == 0 && (y % 100 != 0 || y % 400 == 0)
  }

  function YearLength(y: int): int {
    if IsLeap(y) then 366 else 365
  }

  function MonthLength(y: int, m: int): (n: int)
    requires 1 <= m <= 12
    ensures 28 <= n <= 31
  {
    if m == 2 then (if IsLeap(y) then 29 else 28)
    else if m == 4 || m == 6 || m == 9 || m == 11 then 30
    else 31
  }

  /** Day number of 1 January of year `y`. */
  function YearStart(y: int): int
    decreases if y < 1970 then 1970 - y else y - 1970
  {
    if y == 1970 then 0
    else if y > 1970 then YearStart(y - 1) + YearLength(y - 1)
    else YearStart(y + 1) - YearLength(y)
  }

  /** Days of year `y` before month `m`; month 13 gives the whole year. */
  function MonthStart(y: int, m: int): int
    requires 1 <= m <= 13
    decreases m
  {
    if m == 1 then 0 else MonthStart(y, m - 1) + MonthLength(y, m - 1)
  }

  predicate ValidDate(d: Date) {
    1 <= d.month <= 12 && 1 <= d.day <= MonthLength(d.year, d.month)
  }

  function DayNumber(d: Date): int
    requires ValidDate(d)
  {
    YearStart(d.year) + MonthStart(d.year, d.month) + d.day - 1
  }

  lemma YearStartNext(y: int)
    ensures YearStart(y + 1) == YearStart(y) + YearLength(y)
  {
  }

  function Excess(a: int, b: int): nat {
    if a > b then a - b else 0
  }

  /** The year that holds day `n`, searched for from `guess`. */
  function YearFrom(guess: int, n: int): (y: int)
    ensures YearStart(y) <= n < YearStart(y + 1)
    decreases Excess(YearStart(guess), n) + Excess(n + 1, YearStart(guess + 1))
  {
    YearStartNext(guess);
    YearStartNext(guess - 1);
    YearStartNext(guess + 1);
    if n < YearStart(guess) then YearFrom(guess - 1, n)
    else if n >= YearStart(guess + 1) then YearFrom(guess + 1, n)
    else guess
  }

  /** The month that holds day `k` of year `y`, searched for from `m`. */
  function MonthFrom(y: int, m: int, k: int): (r: int)
    requires 1 <= m <= 12 && MonthStart(y, m) <= k < MonthStart(y, 13)
    ensures m <= r <= 12 && MonthStart(y, r) <= k < MonthStart(y, r + 1)
    decreases 12 - m
  {
    if m < 12 && k >= MonthStart(y, m + 1) then MonthFrom(y, m + 1, k) else m
  }

  lemma MonthsFillYear(y: int)
    ensures MonthStart(y, 13) == YearLength(y)
  {
    assert MonthStart(y, 4) == 59 + 31 + (if IsLeap(y) then 1 else 0);
    assert MonthStart(y, 7) == MonthStart(y, 4) + 91;
    assert MonthStart(y, 10) == MonthStart(y, 7) + 92;
  }

  /** The days before each month, as section 5.7 of RFC 3339 has the months. */
  lemma MonthStarts(y: int, m: int)
    requires 1 <= m <= 12
    ensures MonthStart(y, m) == [0, 31, 59, 90, 120, 151, 181, 212, 243, 273, 304, 334][m - 1]
                                + (if m > 2 && y % 4 == 0 && (y % 100 != 0 || y % 400 == 0) then 1 else 0)
  {
    FirstHalf(y);
    SecondHalf(y);
  }

  lemma FirstHalf(y: int)
    ensures MonthStart(y, 1) == 0 && MonthStart(y, 2) == 31
    ensures var leap := if IsLeap(y) then 1 else 0;
            && MonthStart(y, 3) == 59 + leap && MonthStart(y, 4) == 90 + leap && MonthStart(y, 5) == 120 + leap
            && MonthStart(y, 6) == 151 + leap && MonthStart(y, 7) == 181 + leap
  {
    assert MonthStart(y, 4) == 59 + 31 + (if IsLeap(y) then 1 else 0);
  }

  lemma SecondHalf(y: int)
    ensures var h := MonthStart(y, 7);
            && MonthStart(y, 8) == h + 31 && MonthStart(y, 9) == h + 62 && MonthStart(y, 10) == h + 92
            && MonthStart(y, 11) == h + 123 && MonthStart(y, 12) == h + 153
  {
    assert MonthStart(y, 10) == MonthStart(y, 7) + 92;
  }

  /** The date of day `n`. */
  function CivilDate(n: int): (d: Date)
    ensures ValidDate(d) && DayNumber(d) == n
  {
    var y := YearFrom(1970, n);
    var k := n - YearStart(y);
    YearStartNext(y);
    MonthsFillYear(y);
    var m := MonthFrom(y, 1, k);
    Date(y, m, k - MonthStart(y, m) + 1)
  }

  lemma {:induction false} YearStartMonotone(a: int, b: int)
    requires a < b
    ensures YearStart(a + 1) <= YearStart(b)
    decreases b - a
  {
    if a + 1 < b {
      YearStartMonotone(a, b - 1);
      YearStartNext(b - 1);
    }
  }

  lemma {:induction false} MonthStartMonotone(y: int, a: int, b: int)
    requires 1 <= a < b <= 13
    ensures MonthStart(y, a + 1) <= MonthStart(y, b)
    decreases b - a
  {
    if a + 1 < b {
      MonthStartMonotone(y, a, b - 1);
    }
  }

  predicate Before(a: Date, b: Date) {
    a.year < b.year || (a.year == b.year && (a.month < b.month || (a.month == b.month && a.day < b.day)))
  }

  lemma DayWithinYear(d: Date)
    requires ValidDate(d)
    ensures YearStart(d.year) <= DayNumber(d) < YearStart(d.year + 1)
    ensures MonthStart(d.year, d.month) >= 0
  {
    MonthsFillYear(d.year);
    YearStartNext(d.year);
    if d.month < 12 { MonthStartMonotone(d.year, d.month, 13); }
    if d.month > 1 { MonthStartMonotone(d.year, 1, d.month); }
  }

  /** Day numbers order dates as the calendar does. */
  lemma DayNumberOrder(a: Date, b: Date)
    requires ValidDate(a) && ValidDate(b)
    ensures DayNumber(a) < DayNumber(b) <==> Before(a, b)
  {
    BeforeIncreases(a, b);
    BeforeIncreases(b, a);
    if !Before(a, b) && !Before(b, a) {
      assert a == b;
    }
  }

  lemma BeforeIncreases(a: Date, b: Date)
    requires ValidDate(a) && ValidDate(b)
    ensures Before(a, b) ==> DayNumber(a) < DayNumber(b)
  {
    DayWithinYear(a);
    DayWithinYear(b);
    if a.year < b.year {
      YearStartMonotone(a.year, b.year);
    } else if a.year == b.year && a.month < b.month {
      MonthStartMonotone(a.year, a.month, b.month);
    }
  }

  /** Every valid date is the date of exactly one day number. */
  lemma CivilDateInverse(d: Date)
    requires ValidDate(d)
    ensures CivilDate(DayNumber(d)) == d
  {
    var e := CivilDate(DayNumber(d));
    DayNumberOrder(d, e);
    DayNumberOrder(e, d);
  }

  /** The recursive year starts agree with the usual closed form. */
  lemma {:induction false} YearStartClosedForm(y: int)
    ensures YearStart(y) == 365 * (y - 1970) + LeapsBefore(y) - LeapsBefore(1970)
    decreases if y < 1970 then 1970 - y else y - 1970
  {
    if y > 1970 {
      YearStartClosedForm(y - 1);
      LeapsStep(y - 1);
    } else if y < 1970 {
      YearStartClosedForm(y + 1);
      LeapsStep(y);
    }
  }

  /** Leap years in (.., y), counted from year 1. */
  function LeapsBefore(y: int): int {
    (y - 1) / 4 - (y - 1) / 100 + (y - 1) / 400
  }

  lemma LeapsStep(y: int)
    ensures LeapsBefore(y + 1) == LeapsBefore(y) + (if IsLeap(y) then 1 else 0)
  {
    QuarterStep(y);
    CenturyStep(y);
    EraStep(y);
    LeapDivisors(y);
    CountStep(y / 4, (y - 1) / 4, y / 100, (y - 1) / 100, y / 400, (y - 1) / 400,
              y % 4 == 0, y % 100 == 0, y % 400 == 0);
  }

  lemma QuarterStep(y: int)
    ensures y / 4 == (y - 1) / 4 + (if y % 4 == 0 then 1 else 0)
  {
  }

  lemma CenturyStep(y: int)
    ensures y / 100 == (y - 1) / 100 + (if y % 100 == 0 then 1 else 0)
  {
  }

  lemma EraStep(y: int)
    ensures y / 400 == (y - 1) / 400 + (if y % 400 == 0 then 1 else 0)
  {
  }

  lemma LeapDivisors(y: int)
    ensures y % 400 == 0 ==> y % 100 == 0
    ensures y % 100 == 0 ==> y % 4 == 0
  {
    if y % 400 == 0 {
      MultipleOfHundred(4 * (y / 400));
    }
    if y % 100 == 0 {
      MultipleOfFour(25 * (y / 100));
    }
  }

  lemma MultipleOfHundred(k: int)
    ensures 100 * k % 100 == 0
  {
  }

  lemma MultipleOfFour(k: int)
    ensures 4 * k % 4 == 0
  {
  }

  /** The leap rule as a count: one for each fourth year, one less for each hundredth, one more for each 400th. */
  lemma CountStep(c4: int, p4: int, c100: int, p100: int, c400: int, p400: int, by4: bool, by100: bool, by400: bool)
    requires c4 == p4 + (if by4 then 1 else 0) && c100 == p100 + (if by100 then 1 else 0)
    requires c400 == p400 + (if by400 then 1 else 0)
    requires (by400 ==> by100) && (by100 ==> by4)
    ensures c4 - c100 + c400 == p4 - p100 + p400 + (if by4 && (!by100 || by400) then 1 else 0)
  {
  }

  /** The month index year * 12 + month - 1. */
  function MonthIndex(d: Date): int {
    d.year * 12 + d.month - 1
  }

  /** The next day is in the next month exactly on the last day of a month, December included. */
  lemma MonthIndexNextDay(n: int)
    ensures var d := CivilDate(n);
            MonthIndex(CivilDate(n + 1)) == MonthIndex(d) + (if d.day == MonthLength(d.year, d.month) then 1 else 0)
  {
    hide CivilDate, DayNumber, MonthLength;
    var d := CivilDate(n);
    DayAfterIsNext(d);
    CivilDateInverse(DayAfter(d));
  }

  function DayAfter(d: Date): (e: Date)
    requires ValidDate(d)
    ensures ValidDate(e)
  {
    if d.day < MonthLength(d.year, d.month) then d.(day := d.day + 1)
    else if d.month < 12 then Date(d.year, d.month + 1, 1)
    else Date(d.year + 1, 1, 1)
  }

  lemma DayAfterIsNext(d: Date)
    requires ValidDate(d)
    ensures DayNumber(DayAfter(d)) == DayNumber(d) + 1
  {
    hide YearStart, MonthLength;
    YearStartNext(d.year);
    MonthsFillYear(d.year);
    assert MonthStart(d.year, 13) == MonthStart(d.year, 12) + MonthLength(d.year, 12);
  }

  lemma MonthIndexMonotone(a: int, b: int)
    requires a <= b
    ensures MonthIndex(CivilDate(a)) <= MonthIndex(CivilDate(b))
  {
    DayNumberOrder(CivilDate(a), CivilDate(b));
  }
}
