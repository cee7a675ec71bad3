/// The proleptic Gregorian calendar of ECMAScript dates (section 21.4.1 of ECMA-262).
/// Days are counted from 1 January 1970.
module Calendar {
  import Arith

  predicate IsLeap(y: int) {
    y % 4 == 0 && (y % 100 != 0 || y % 400 == 0)
  }

  function DaysInYear(y: int): int {
    if IsLeap(y) then 366 else 365
  }

  /** The day number of 1 January of year `y`. */
  function DayFromYear(y: int): int
    decreases if y < 1970 then 1970 - y else y - 1970
  {
    if y == 1970 then 0
    else if y > 1970 then DayFromYear(y - 1) + DaysInYear(y - 1)
    else DayFromYear(y + 1) - DaysInYear(y)
  }

  lemma YearStep(y: int)
    ensures DayFromYear(y + 1) == DayFromYear(y) + DaysInYear(y)
  {
  }

  lemma FloorStep(x: int, d: int)
    requires d > 0
    ensures (x + 1) / d == x / d + if (x + 1) % d == 0 then 1 else 0
  {
    var q, r := x / d, x % d;
    assert x == q * d + r;
    if r + 1 < d {
      Arith.DivisionIs(x + 1, q, d, r + 1);
    } else {
      Arith.Distribute(q, 1, d);
      Arith.DivisionIs(x + 1, q + 1, d, 0);
    }
  }

  /** Counting multiples of `d`: `x` steps up exactly at the years `d` divides. */
  lemma MultipleStep(y: int, c: int, d: int)
    requires d > 0 && c % d == 0
    ensures (y + 1 - (c + 1)) / d == (y - (c + 1)) / d + if y % d == 0 then 1 else 0
  {
    FloorStep(y - (c + 1), d);
    Arith.AddMultiple(c / d, y - c, d);
    assert c == c / d * d;
  }

  lemma LeapCount(y: int)
    ensures (if IsLeap(y) then 1 else 0)
         == (if y % 4 == 0 then 1 else 0) - (if y % 100 == 0 then 1 else 0) + (if y % 400 == 0 then 1 else 0)
  {
    if y % 400 == 0 {
      assert y == 100 * (4 * (y / 400));
    }
    if y % 100 == 0 {
      assert y == 4 * (25 * (y / 100));
    }
  }

  /** ECMA-262's DayFromYear. */
  function ClosedForm(y: int): int {
    365 * (y - 1970) + (y - 1969) / 4 - (y - 1901) / 100 + (y - 1601) / 400
  }

  lemma ClosedFormStep(y: int)
    ensures ClosedForm(y + 1) == ClosedForm(y) + DaysInYear(y)
  {
    MultipleStep(y, 1968, 4);
    MultipleStep(y, 1900, 100);
    MultipleStep(y, 1600, 400);
    LeapCount(y);
  }

  lemma {:induction false} DayFromYearIs(y: int)
    ensures DayFromYear(y) == ClosedForm(y)
    decreases if y < 1970 then 1970 - y else y - 1970
  {
    if y > 1970 {
      DayFromYearIs(y - 1);
      ClosedFormStep(y - 1);
    } else if y < 1970 {
      DayFromYearIs(y + 1);
      ClosedFormStep(y);
    }
  }

  lemma {:induction false} YearsAscend(y: int, z: int)
    requires y <= z
    ensures DayFromYear(z) >= DayFromYear(y) + 365 * (z - y)
    ensures DayFromYear(z) <= DayFromYear(y) + 366 * (z - y)
    decreases z - y
  {
    if y < z {
      YearsAscend(y, z - 1);
      YearStep(z - 1);
    }
  }

  function YearUp(d: int, y: int): (r: int)
    requires DayFromYear(y) <= d
    ensures DayFromYear(r) <= d < DayFromYear(r + 1)
    decreases d - DayFromYear(y)
  {
    YearStep(y);
    if d < DayFromYear(y + 1) then y else YearUp(d, y + 1)
  }

  function YearDown(d: int, y: int): (r: int)
    requires d < DayFromYear(y)
    ensures DayFromYear(r) <= d < DayFromYear(r + 1)
    decreases DayFromYear(y) - d
  {
    YearStep(y - 1);
    if DayFromYear(y - 1) <= d then y - 1 else YearDown(d, y - 1)
  }

  /** The year a day lies in: the largest whose first day is not later. */
  function YearOf(d: int): (r: int)
    ensures DayFromYear(r) <= d < DayFromYear(r + 1)
  {
    if d < 0 then YearDown(d, 1970) else YearUp(d, 1970)
  }

  lemma YearIsUnique(d: int, y: int)
    requires DayFromYear(y) <= d < DayFromYear(y + 1)
    ensures YearOf(d) == y
  {
    var r := YearOf(d);
    if r < y {
      YearsAscend(r + 1, y);
    } else if y < r {
      YearsAscend(y + 1, r);
    }
  }

  function DaysInMonth(m: int, leap: bool): (n: int)
    requires 1 <= m <= 12
    ensures 28 <= n <= 31
  {
    if m == 2 then (if leap then 29 else 28)
    else if m == 4 || m == 6 || m == 9 || m == 11 then 30
    else 31
  }

  function DaysBeforeMonth(m: int, leap: bool): (n: int)
    requires 1 <= m <= 13
    ensures 0 <= n <= 366
  {
    if m == 1 then 0
    else if m == 2 then 31
    else (if leap then 1 else 0) + DaysBefore(m)
  }

  /** Days of an ordinary year before month `m`, from March on. */
  function DaysBefore(m: int): (n: int)
    requires 3 <= m <= 13
    ensures 59 <= n <= 365
  {
    [59, 90, 120, 151, 181, 212, 243, 273, 304, 334, 365][m - 3]
  }

  lemma MonthStep(m: int, leap: bool)
    requires 1 <= m <= 12
    ensures DaysBeforeMonth(m + 1, leap) == DaysBeforeMonth(m, leap) + DaysInMonth(m, leap)
  {
  }

  /** The month a day of the year lies in, searched from month `m`. */
  function MonthFrom(n: int, leap: bool, m: int): (r: int)
    requires 1 <= m <= 12 && DaysBeforeMonth(m, leap) <= n < DaysBeforeMonth(13, leap)
    ensures m <= r <= 12 && DaysBeforeMonth(r, leap) <= n < DaysBeforeMonth(r + 1, leap)
    decreases 12 - m
  {
    if n < DaysBeforeMonth(m + 1, leap) then m else MonthFrom(n, leap, m + 1)
  }

  datatype Date = Date(year: int, month: int, day: int)

  predicate ValidDate(d: Date) {
    1 <= d.month <= 12 && 1 <= d.day <= DaysInMonth(d.month, IsLeap(d.year))
  }

  function DayNumber(d: Date): int
    requires ValidDate(d)
  {
    DayFromYear(d.year) + DaysBeforeMonth(d.month, IsLeap(d.year)) + d.day - 1
  }

  function DateOf(day: int): (d: Date)
    ensures ValidDate(d)
  {
    var y := YearOf(day);
    YearStep(y);
    var n := day - DayFromYear(y);
    var m := MonthFrom(n, IsLeap(y), 1);
    MonthStep(m, IsLeap(y));
    Date(y, m, n - DaysBeforeMonth(m, IsLeap(y)) + 1)
  }

  lemma DateOfIsInverse(day: int)
    ensures DayNumber(DateOf(day)) == day
  {
  }

  /** Every valid date is the date of exactly one day. */
  lemma DayNumberIsInverse(d: Date)
    requires ValidDate(d)
    ensures DateOf(DayNumber(d)) == d
  {
    var day, leap := DayNumber(d), IsLeap(d.year);
    YearStep(d.year);
    MonthStep(d.month, leap);
    MonthsAscend(d.month + 1, 13, leap);
    YearIsUnique(day, d.year);
    var m := DateOf(day).month;
    if m < d.month {
      MonthsAscend(m + 1, d.month, leap);
    } else if d.month < m {
      MonthsAscend(d.month + 1, m, leap);
    }
  }

  lemma {:induction false} MonthsAscend(m: int, n: int, leap: bool)
    requires 1 <= m <= n <= 13
    ensures DaysBeforeMonth(m, leap) <= DaysBeforeMonth(n, leap)
    decreases n - m
  {
    if m < n {
      MonthsAscend(m, n - 1, leap);
      MonthStep(n - 1, leap);
    }
  }

  // ----- closed forms over year, month and day -----

  /** Years counted from March, so that a leap day comes last: January and February belong to the year before. */
  function MarchYear(d: Date): int {
    if d.month < 3 then d.year - 1 else d.year
  }

  /** March is 3 and February 14. */
  function MarchMonth(d: Date): int {
    if d.month < 3 then d.month + 12 else d.month
  }

  function LeapDaysThrough(y: int): int {
    y / 4 - y / 100 + y / 400
  }

  /** The day number by one formula: the months from March on follow a line with slope 153 / 5. */
  function ClosedDayNumber(d: Date): int {
    365 * MarchYear(d) + LeapDaysThrough(MarchYear(d)) + (153 * (MarchMonth(d) - 3) + 2) / 5 + d.day - 719_469
  }

  lemma ShiftedYears(y: int)
    ensures (y - 1968) / 4 == y / 4 - 492 && (y - 1900) / 100 == y / 100 - 19 && (y - 1600) / 400 == y / 400 - 4
  {
    Arith.AddMultiple(-492, y, 4);
    Arith.AddMultiple(-19, y, 100);
    Arith.AddMultiple(-4, y, 400);
  }

  lemma {:induction false} FirstOfNextYear(y: int)
    ensures DayFromYear(y + 1) == 365 * (y - 1969) + LeapDaysThrough(y) - 477
  {
    DayFromYearIs(y + 1);
    ShiftedYears(y);
  }

  /** Every valid date's day number, by the closed form. */
  lemma DayNumberIs(d: Date)
    requires ValidDate(d)
    ensures DayNumber(d) == ClosedDayNumber(d)
  {
    FirstOfNextYear(MarchYear(d));
    if d.month >= 3 {
      YearStep(d.year);
    }
  }

  /**
   * Zeller's congruence, with 0 for Sunday: the weekday of a civil date from its
   * year, month and day alone.
   */
  function CivilWeekDay(d: Date): int {
    (d.day + 13 * (MarchMonth(d) + 1) / 5 + MarchYear(d) + LeapDaysThrough(MarchYear(d)) + 6) % 7
  }

  /** 0 is Sunday; 1 January 1970 was a Thursday. */
  function WeekDay(day: int): (w: int)
    ensures 0 <= w < 7
  {
    (day + 4) % 7
  }

  lemma MonthsBySevens(m: int)
    requires 3 <= m <= 14
    ensures (153 * (m - 3) + 2) / 5 % 7 == (13 * (m + 1) / 5 + 4) % 7
  {
    if m < 6 {
      assert m == 3 || m == 4 || m == 5;
    } else if m < 9 {
      assert m == 6 || m == 7 || m == 8;
    } else if m < 12 {
      assert m == 9 || m == 10 || m == 11;
    } else {
      assert m == 12 || m == 13 || m == 14;
    }
  }

  lemma SameBySevens(number: int, day: int, y: int, leaps: int, a: int, b: int)
    requires number == 365 * y + leaps + a + day - 719_469 && a % 7 == (b + 4) % 7
    ensures (number + 4) % 7 == (day + b + y + leaps + 6) % 7
  {
    var p, q := a / 7, (b + 4) / 7;
    assert a == 7 * p + a % 7 && b + 4 == 7 * q + a % 7;
    assert number + 4 == (52 * y + p - q - 102_781) * 7 + (day + b + y + leaps + 6);
    Arith.AddMultiple(52 * y + p - q - 102_781, day + b + y + leaps + 6, 7);
  }

  /** The weekday of every valid date is the one Zeller's congruence gives it. */
  lemma WeekDayIsCivil(d: Date)
    requires ValidDate(d)
    ensures WeekDay(DayNumber(d)) == CivilWeekDay(d)
  {
    DayNumberIs(d);
    MonthsBySevens(MarchMonth(d));
    SameBySevens(DayNumber(d), d.day, MarchYear(d), LeapDaysThrough(MarchYear(d)),
      (153 * (MarchMonth(d) - 3) + 2) / 5, 13 * (MarchMonth(d) + 1) / 5);
  }

  lemma DateHasItsWeekDay(day: int)
    ensures WeekDay(day) == CivilWeekDay(DateOf(day))
  {
    DateOfIsInverse(day);
    WeekDayIsCivil(DateOf(day));
  }

  /** In any seven consecutive days, every weekday occurs. */
  lemma WeekDayOccurs(day: int, w: int) returns (d: int)
    requires 0 <= w < 7
    ensures day <= d < day + 7 && WeekDay(d) == w
  {
    d := day + (w - WeekDay(day)) % 7;
  }
}
