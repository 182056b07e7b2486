/**
  The proleptic Gregorian calendar as section 21.4.1 of ECMA-262 defines it: days are
  counted from 1 January 1970, months run from 0 in the UTC constructor and from 1 in
  rendered digits.
 */
module Calendar {

  /** Seconds in a day. */
  const DAY := 86400

  predicate Leap(y: int) {
    y % 4 == 0 && (y % 100 != 0 || y % 400 == 0)
  }

  /** Day number of 1 January of year y. */
  function DayFromYear(y: int): int {
    365 * (y - 1970) + (y - 1969) / 4 - (y - 1901) / 100 + (y - 1601) / 400
  }

  /** Days of a year that precede its month m (0 = January, 12 = the next year). */
  function DaysBefore(leap: bool, m: int): int
    requires 0 <= m <= 12
  {
    if m == 0 then 0
    else if m == 1 then 31
    else (if leap then 1 else 0) +
         if m == 2 then 59 else if m == 3 then 90 else if m == 4 then 120
         else if m == 5 then 151 else if m == 6 then 181 else if m == 7 then 212
         else if m == 8 then 243 else if m == 9 then 273 else if m == 10 then 304
         else if m == 11 then 334 else 365
  }

  function DaysInMonth(y: int, month: int): int
    requires 1 <= month <= 12
  {
    DaysBefore(Leap(y), month) - DaysBefore(Leap(y), month - 1)
  }

  /** MakeDay: month and date may lie outside their ranges and carry over. */
  function MakeDay(year: int, month: int, date: int): int {
    var y := year + month / 12;
    DayFromYear(y) + DaysBefore(Leap(y), month % 12) + date - 1
  }

  lemma MakeDayInYear(y: int, m: int, date: int)
    requires 0 <= m < 12
    ensures MakeDay(y, m, date) == DayFromYear(y) + DaysBefore(Leap(y), m) + date - 1
  {
    assert m / 12 == 0 && m % 12 == m;
  }

  /** Months carry into years, and days into months, as they do for the month after December. */
  lemma MakeDayCarries(y: int, m: int, date: int)
    ensures MakeDay(y, m + 12, date) == MakeDay(y + 1, m, date)
    ensures MakeDay(y, m, date + 1) == MakeDay(y, m, date) + 1
  {
    assert (m + 12) / 12 == m / 12 + 1 && (m + 12) % 12 == m % 12;
  }

  datatype Civil = Civil(year: int, month: int, day: int)

  predicate Valid(c: Civil) {
    1 <= c.month <= 12 && 1 <= c.day <= DaysInMonth(c.year, c.month)
  }

  function DayOf(c: Civil): int
    requires Valid(c)
  {
    MakeDay(c.year, c.month - 1, c.day)
  }

  predicate Before(a: Civil, b: Civil) {
    a.year < b.year || (a.year == b.year && (a.month < b.month || (a.month == b.month && a.day < b.day)))
  }

  /** Calendar order of two dates with a time of day: field by field. */
  predicate BeforeInTime(a: Civil, h: int, m: int, s: int, b: Civil, h': int, m': int, s': int) {
    || Before(a, b)
    || (a == b && (h < h' || (h == h' && (m < m' || (m == m' && s < s')))))
  }

  /** The year that contains day d, found by stepping from a guess. */
  function YearNear(d: int, guess: int): (y: int)
    ensures DayFromYear(y) <= d < DayFromYear(y + 1)
    decreases if d < DayFromYear(guess) then DayFromYear(guess) - d else d - DayFromYear(guess)
  {
    hide DayFromYear;
    YearGrows(guess);
    YearGrows(guess - 1);
    if d < DayFromYear(guess) then
      if d >= DayFromYear(guess - 1) then guess - 1 else YearNear(d, guess - 1)
    else if d >= DayFromYear(guess + 1) then
      YearNear(d, guess + 1)
    else
      guess
  }

  lemma YearGrows(y: int)
    ensures DayFromYear(y) < DayFromYear(y + 1)
  {
    YearLength(y);
  }

  function YearOfDay(d: int): (y: int)
    ensures DayFromYear(y) <= d < DayFromYear(y + 1)
  {
    YearNear(d, 1970)
  }

  /** The 1-based month that contains the given 0-based day of the year. */
  function MonthOfDay(leap: bool, dayOfYear: int): (month: int)
    requires 0 <= dayOfYear < DaysBefore(leap, 12)
    ensures 1 <= month <= 12
    ensures DaysBefore(leap, month - 1) <= dayOfYear < DaysBefore(leap, month)
  {
    MonthFrom(leap, dayOfYear, 1)
  }

  function MonthFrom(leap: bool, dayOfYear: int, first: int): (month: int)
    requires 1 <= first <= 12 && DaysBefore(leap, first - 1) <= dayOfYear < DaysBefore(leap, 12)
    ensures first <= month <= 12
    ensures DaysBefore(leap, month - 1) <= dayOfYear < DaysBefore(leap, month)
    decreases 12 - first
  {
    if dayOfYear < DaysBefore(leap, first) then first else MonthFrom(leap, dayOfYear, first + 1)
  }

  function CivilOf(d: int): (c: Civil) {
    var y := YearOfDay(d);
    YearLength(y);
    var month := MonthOfDay(Leap(y), d - DayFromYear(y));
    Civil(y, month, d - DayFromYear(y) - DaysBefore(Leap(y), month - 1) + 1)
  }

  /** Every day number renders to a real date, which counts back to it. */
  lemma CivilOfDay(d: int)
    ensures Valid(CivilOf(d)) && DayOf(CivilOf(d)) == d
    ensures CivilOf(d).year == YearOfDay(d)
  {
    hide Leap, DayFromYear, DaysBefore;
    CivilIsValid(CivilOf(d));
  }

  lemma CivilIsValid(c: Civil)
    requires 1 <= c.month <= 12
    requires 1 <= c.day <= DaysBefore(Leap(c.year), c.month) - DaysBefore(Leap(c.year), c.month - 1)
    ensures Valid(c)
    ensures DayOf(c) == DayFromYear(c.year) + DaysBefore(Leap(c.year), c.month - 1) + c.day - 1
  {
    hide Leap, DayFromYear, DaysBefore;
    MakeDayInYear(c.year, c.month - 1, c.day);
  }

  lemma StepOfQuotient(x: int, k: int)
    requires k == 4 || k == 100 || k == 400
    ensures (x + 1) / k - x / k == if (x + 1) % k == 0 then 1 else 0
  {
  }

  lemma YearLength(y: int)
    ensures DayFromYear(y + 1) - DayFromYear(y) == DaysBefore(Leap(y), 12)
  {
    StepOfQuotient(y - 1969, 4);
    StepOfQuotient(y - 1901, 100);
    StepOfQuotient(y - 1601, 400);
    ShiftedRemainders(y);
  }

  lemma ShiftedRemainders(y: int)
    ensures (y - 1968) % 4 == 0 <==> y % 4 == 0
    ensures (y - 1900) % 100 == 0 <==> y % 100 == 0
    ensures (y - 1600) % 400 == 0 <==> y % 400 == 0
    ensures y % 100 == 0 ==> y % 4 == 0
    ensures y % 400 == 0 ==> y % 100 == 0
  {
    assert (y - 1968) % 4 == 0 <==> y % 4 == 0;
    ShiftHundred(y);
    ShiftFourHundred(y);
  }

  lemma ShiftHundred(y: int)
    ensures (y - 1900) % 100 == y % 100
    ensures y % 100 == 0 ==> y % 4 == 0
  {
    var q := y / 100;
    assert y - 1900 == 100 * (q - 19) + y % 100;
    assert y % 100 == 0 ==> y == 4 * (25 * q);
  }

  lemma ShiftFourHundred(y: int)
    ensures (y - 1600) % 400 == y % 400
    ensures y % 400 == 0 ==> y % 100 == 0
  {
    var q := y / 400;
    assert y - 1600 == 400 * (q - 4) + y % 400;
    assert y % 400 == 0 ==> y == 100 * (4 * q);
  }

  lemma {:induction false} YearsIncrease(a: int, b: int)
    requires a <= b
    ensures DayFromYear(a) + 365 * (b - a) <= DayFromYear(b)
    decreases b - a
  {
    if a < b {
      YearLength(a);
      YearsIncrease(a + 1, b);
    }
  }

  lemma YearIsUnique(d: int, y: int)
    requires DayFromYear(y) <= d < DayFromYear(y + 1)
    ensures YearOfDay(d) == y
  {
    hide DayFromYear;
    var r := YearOfDay(d);
    if r < y {
      YearsIncrease(r + 1, y);
    } else if y < r {
      YearsIncrease(y + 1, r);
    }
  }

  /** Day numbers and calendar dates order the same way. */
  lemma OrderOfDays(a: Civil, b: Civil)
    requires Valid(a) && Valid(b)
    ensures DayOf(a) < DayOf(b) <==> Before(a, b)
    ensures DayOf(a) == DayOf(b) ==> a == b
  {
    hide Valid, DayOf;
    if Before(a, b) {
      BeforeIsLess(a, b);
    } else if Before(b, a) {
      BeforeIsLess(b, a);
    }
  }

  lemma BeforeIsLess(a: Civil, b: Civil)
    requires Valid(a) && Valid(b) && Before(a, b)
    ensures DayOf(a) < DayOf(b)
  {
    hide Leap, DayFromYear, DaysBefore;
    WithinYear(a);
    WithinYear(b);
    if a.year < b.year {
      YearsIncrease(a.year + 1, b.year);
    } else {
      MonthsIncrease(Leap(a.year), a.month, b.month - 1);
    }
  }

  /** A date lies in its own month of its own year. */
  lemma WithinYear(c: Civil)
    requires Valid(c)
    ensures DayOf(c) == DayFromYear(c.year) + DaysBefore(Leap(c.year), c.month - 1) + c.day - 1
    ensures DayFromYear(c.year) <= DayOf(c) < DayFromYear(c.year + 1)
    ensures DayOf(c) < DayFromYear(c.year) + DaysBefore(Leap(c.year), c.month)
  {
    YearLength(c.year);
    hide Leap, DayFromYear, DaysBefore;
    MakeDayInYear(c.year, c.month - 1, c.day);
    YearStart(Leap(c.year));
    MonthsIncrease(Leap(c.year), 0, c.month - 1);
    MonthsIncrease(Leap(c.year), c.month, 12);
  }

  lemma YearStart(leap: bool)
    ensures DaysBefore(leap, 0) == 0
  {
  }

  lemma MonthsIncrease(leap: bool, m: int, n: int)
    requires 0 <= m <= 12 && 0 <= n <= 12
    ensures m <= n ==> DaysBefore(leap, m) <= DaysBefore(leap, n)
  {
  }

  /** A real date survives the trip to a day number and back. */
  lemma CivilRoundTrip(c: Civil)
    requires Valid(c)
    ensures CivilOf(DayOf(c)) == c
  {
    hide Valid, DayOf;
    CivilOfDay(DayOf(c));
    OrderOfDays(CivilOf(DayOf(c)), c);
  }

  // ---- the calendar day by day ----

  /** The Gregorian month lengths. */
  lemma MonthLengths(y: int, month: int)
    requires 1 <= month <= 12
    ensures month in {1, 3, 5, 7, 8, 10, 12} ==> DaysInMonth(y, month) == 31
    ensures month in {4, 6, 9, 11} ==> DaysInMonth(y, month) == 30
    ensures month == 2 ==>
              DaysInMonth(y, month) == if (y % 4 == 0 && y % 100 != 0) || y % 400 == 0 then 29 else 28
  {
    FourHundredIsFour(y);
  }

  lemma FourHundredIsFour(y: int)
    ensures y % 400 == 0 ==> y % 4 == 0
  {
    assert y % 400 == 0 ==> y == 4 * (100 * (y / 400));
  }

  /** The date after a valid one. */
  function Tomorrow(c: Civil): Civil
    requires Valid(c)
  {
    if c.day < DaysInMonth(c.year, c.month) then Civil(c.year, c.month, c.day + 1)
    else if c.month < 12 then Civil(c.year, c.month + 1, 1)
    else Civil(c.year + 1, 1, 1)
  }

  /** Day numbers start at 1 January 1970, a Thursday, and go up by one with the date. */
  lemma DaysAreCounted(c: Civil)
    requires Valid(c)
    ensures Valid(Civil(1970, 1, 1)) && DayOf(Civil(1970, 1, 1)) == 0 && WeekDay(0) == 4
    ensures Valid(Tomorrow(c)) && DayOf(Tomorrow(c)) == DayOf(c) + 1
    ensures WeekDay(DayOf(c) + 1) == (WeekDay(DayOf(c)) + 1) % 7
  {
    hide *;
    FirstDay();
    TomorrowIsNext(c);
    SevenDays(DayOf(c));
  }

  lemma TomorrowIsNext(c: Civil)
    requires Valid(c)
    ensures Valid(Tomorrow(c)) && DayOf(Tomorrow(c)) == DayOf(c) + 1
  {
    hide *;
    TomorrowIsValid(c);
    TomorrowShape(c);
    YearLength(c.year);
    YearStart(Leap(c.year + 1));
    WithinYear(c);
    WithinYear(Tomorrow(c));
  }

  lemma TomorrowShape(c: Civil)
    requires Valid(c)
    ensures var length := DaysBefore(Leap(c.year), c.month) - DaysBefore(Leap(c.year), c.month - 1);
            || (c.day < length && Tomorrow(c) == Civil(c.year, c.month, c.day + 1))
            || (c.day == length && c.month < 12 && Tomorrow(c) == Civil(c.year, c.month + 1, 1))
            || (c.day == length && c.month == 12 && Tomorrow(c) == Civil(c.year + 1, 1, 1))
  {
    hide DaysBefore, Leap;
  }

  lemma FirstDay()
    ensures Valid(Civil(1970, 1, 1)) && DayOf(Civil(1970, 1, 1)) == 0 && WeekDay(0) == 4
  {
    hide DaysBefore, Leap, DayFromYear, MakeDay, DaysInMonth;
    MonthLengths(1970, 1);
    MakeDayInYear(1970, 0, 1);
    YearStart(Leap(1970));
    FirstYear();
  }

  lemma FirstYear()
    ensures DayFromYear(1970) == 0
  {
  }

  lemma SevenDays(d: int)
    ensures WeekDay(d + 1) == (WeekDay(d) + 1) % 7
  {
  }

  lemma TomorrowIsValid(c: Civil)
    requires Valid(c)
    ensures Valid(Tomorrow(c))
  {
    if c.month < 12 {
      MonthLengths(c.year, c.month + 1);
    }
  }

  /** 0 is Sunday. */
  function WeekDay(d: int): int {
    (d + 4) % 7
  }
}
