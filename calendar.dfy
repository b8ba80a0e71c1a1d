/** The proleptic Gregorian calendar in one time zone, with the day
    arithmetic that JavaScript's `Date#setDate` and `Date#setMonth` perform.
    A date is a (year, month, day) triple; `DayNumber` counts days from
    1970-01-01, the epoch of JavaScript time values. */
module Calendar {

  datatype Date = Date(year: int, month: int, day: int)

  predicate IsLeap(y: int)
  {
    (y % 4 == 0 && y % 100 != 0) || y % 400 == 0
  }

  function DaysInMonth(y: int, m: int): (n: int)
    requires 1 <= m <= 12
    ensures 28 <= n <= 31
    ensures n == 28 || n == 29 <==> m == 2
  {
    if m == 2 then (if IsLeap(y) then 29 else 28)
    else if m == 4 || m == 6 || m == 9 || m == 11 then 30
    else 31
  }

  predicate ValidDate(d: Date)
  {
    1 <= d.month <= 12 && 1 <= d.day <= DaysInMonth(d.year, d.month)
  }

  function YearLength(y: int): int
  {
    if IsLeap(y) then 366 else 365
  }

  /** Leap years among the years 1 .. y (counted as a signed total for y < 1). */
  function Leaps(y: int): int
  {
    y / 4 - y / 100 + y / 400
  }

  /** Days from 1970-01-01 to January 1 of year `y` (negative before 1970). */
  function DaysBeforeYear(y: int): int
  {
    365 * (y - 1970) + Leaps(y - 1) - Leaps(1969)
  }

  /** Days from January 1 to the first of month `m` of year `y`. */
  function DaysBeforeMonth(y: int, m: int): int
    requires 1 <= m <= 12
  {
    [0, 31, 59, 90, 120, 151, 181, 212, 243, 273, 304, 334][m - 1]
      + (if m > 2 && IsLeap(y) then 1 else 0)
  }

  /** Days since 1970-01-01: JavaScript's `Day(t)` of the date's midnight. */
  function DayNumber(d: Date): int
    requires 1 <= d.month <= 12
  {
    DaysBeforeYear(d.year) + DaysBeforeMonth(d.year, d.month) + d.day - 1
  }

  /** The first day of the month that follows the month of `d`. */
  function FirstOfNextMonth(d: Date): Date
  {
    if d.month == 12 then Date(d.year + 1, 1, 1) else Date(d.year, d.month + 1, 1)
  }

  lemma YearStep(y: int)
    ensures DaysBeforeYear(y + 1) == DaysBeforeYear(y) + YearLength(y)
  {
    LeapStep(y);
  }

  /** Year `y` adds one to the count of leap years exactly when it is one. */
  lemma LeapStep(y: int)
    ensures Leaps(y) - Leaps(y - 1) == if IsLeap(y) then 1 else 0
  {
    MultipleStep(y, 4);
    MultipleStep(y, 100);
    MultipleStep(y, 400);
    if y % 400 == 0 {
      DivOf(y, y / 400 * 4, 0, 100);
    }
    if y % 100 == 0 {
      DivOf(y, y / 100 * 25, 0, 4);
    }
  }

  /** The quotient by `k` grows by one from `y - 1` to `y` exactly when `k` divides `y`. */
  lemma MultipleStep(y: int, k: int)
    requires k == 4 || k == 100 || k == 400
    ensures y / k - (y - 1) / k == if y % k == 0 then 1 else 0
  {
    var q, r := (y - 1) / k, (y - 1) % k;
    if r == k - 1 {
      DivOf(y, q + 1, 0, k);
    } else {
      DivOf(y, q, r + 1, k);
    }
  }

  /** The quotient and remainder of `y` by `k` are the unique pair that spells `y`. */
  lemma DivOf(y: int, q: int, r: int, k: int)
    requires k == 4 || k == 100 || k == 400
    requires y == q * k + r && 0 <= r < k
    ensures y / k == q && y % k == r
  {
    if k == 4 {
      assert y == q * 4 + r;
    } else if k == 100 {
      assert y == q * 100 + r;
    } else {
      assert y == q * 400 + r;
    }
  }

  /** Consecutive months are `DaysInMonth` apart, across a year end too. */
  lemma {:induction false} MonthStep(d: Date)
    requires 1 <= d.month <= 12
    ensures DayNumber(FirstOfNextMonth(d)) == DayNumber(Date(d.year, d.month, 1)) + DaysInMonth(d.year, d.month)
  {
    if d.month == 12 {
      YearStep(d.year);
    }
  }

  lemma {:induction false} DaysBeforeYearMonotone(y1: int, y2: int)
    requires y1 <= y2
    ensures DaysBeforeYear(y1) + 365 * (y2 - y1) <= DaysBeforeYear(y2)
    decreases y2 - y1
  {
    if y1 < y2 {
      DaysBeforeYearMonotone(y1, y2 - 1);
      YearStep(y2 - 1);
    }
  }

  /** A valid date falls inside its own year. */
  lemma InsideYear(d: Date)
    requires ValidDate(d)
    ensures DaysBeforeYear(d.year) <= DayNumber(d) < DaysBeforeYear(d.year + 1)
  {
    YearStep(d.year);
  }

  /** Two valid dates less than a year apart lie in the same or in consecutive years. */
  lemma {:induction false} YearsApart(a: Date, b: Date)
    requires ValidDate(a) && ValidDate(b)
    requires DayNumber(a) <= DayNumber(b) <= DayNumber(a) + 365
    ensures a.year <= b.year <= a.year + 1
  {
    InsideYear(a);
    InsideYear(b);
    if b.year < a.year {
      DaysBeforeYearMonotone(b.year + 1, a.year);
      assert false;
    }
    if b.year > a.year + 1 {
      DaysBeforeYearMonotone(a.year + 1, b.year);
      assert false;
    }
  }

  /** The day after `d`: `setDate(getDate() + 1)`. */
  function NextDay(d: Date): (r: Date)
    requires ValidDate(d)
    ensures ValidDate(r) && d.year <= r.year <= d.year + 1
  {
    if d.day < DaysInMonth(d.year, d.month) then Date(d.year, d.month, d.day + 1)
    else FirstOfNextMonth(d)
  }

  /** `NextDay` is one day later. */
  lemma NextDayCount(d: Date)
    requires ValidDate(d)
    ensures DayNumber(NextDay(d)) == DayNumber(d) + 1
  {
    MonthStep(d);
  }

  /** `n` days after `d`: `setDate(getDate() + n)`. */
  function AddDays(d: Date, n: nat): (r: Date)
    requires ValidDate(d)
    ensures ValidDate(r)
    decreases n
  {
    if n == 0 then d else NextDay(AddDays(d, n - 1))
  }

  /** `AddDays(d, n)` is `n` days later. */
  lemma {:induction false} AddDaysCount(d: Date, n: nat)
    requires ValidDate(d)
    ensures DayNumber(AddDays(d, n)) == DayNumber(d) + n
    decreases n
  {
    if n > 0 {
      AddDaysCount(d, n - 1);
      DayAfterCount(d, AddDays(d, n - 1), n);
    }
  }

  lemma DayAfterCount(d: Date, e: Date, n: int)
    requires 1 <= d.month <= 12 && ValidDate(e) && DayNumber(e) == DayNumber(d) + n - 1
    ensures DayNumber(NextDay(e)) == DayNumber(d) + n
  {
    NextDayCount(e);
  }

  /** `setMonth(getMonth() + 1)`: the same day of the following month; a day
      that month lacks rolls over into the month after it (January 31 becomes
      March 2 or 3), because JavaScript's MakeDay adds the day of the month to
      the first day of the target month. */
  function AddMonth(d: Date): (r: Date)
    requires ValidDate(d)
    ensures ValidDate(r)
  {
    var first := FirstOfNextMonth(d);
    if d.day <= DaysInMonth(first.year, first.month) then Date(first.year, first.month, d.day)
    else
      var surplus := d.day - DaysInMonth(first.year, first.month);
      var after := FirstOfNextMonth(first);
      Date(after.year, after.month, surplus)
  }

  /** `AddMonth` counts the day of the month from the first of the next
      month, and so moves the date forward by at most 31 days. */
  lemma AddMonthCount(d: Date)
    requires ValidDate(d)
    ensures DayNumber(AddMonth(d)) == DayNumber(FirstOfNextMonth(d)) + d.day - 1
    ensures DayNumber(d) < DayNumber(AddMonth(d)) <= DayNumber(d) + 31
  {
    var first := FirstOfNextMonth(d);
    MonthStep(d);
    if d.day > DaysInMonth(first.year, first.month) {
      MonthStep(first);
    }
  }

  /** When the target month has the day, `AddMonth` keeps the day of the month. */
  lemma MonthlyKeepsDay(d: Date)
    requires ValidDate(d)
    requires d.day <= DaysInMonth(FirstOfNextMonth(d).year, FirstOfNextMonth(d).month)
    ensures AddMonth(d) == Date(FirstOfNextMonth(d).year, FirstOfNextMonth(d).month, d.day)
  {
  }

  /** When it lacks the day, the date lands in the month after the target
      month, on the day given by the surplus. */
  lemma MonthlyRollsOver(d: Date)
    requires ValidDate(d)
    requires d.day > DaysInMonth(FirstOfNextMonth(d).year, FirstOfNextMonth(d).month)
    ensures var first := FirstOfNextMonth(d);
      AddMonth(d) == Date(FirstOfNextMonth(first).year, FirstOfNextMonth(first).month,
                          d.day - DaysInMonth(first.year, first.month))
  {
  }

  /** January 31 advances to March 3 in a common year and to March 2 in a leap year. */
  lemma JanuaryThirtyFirst()
    ensures AddMonth(Date(2023, 1, 31)) == Date(2023, 3, 3)
    ensures AddMonth(Date(2024, 1, 31)) == Date(2024, 3, 2)
  {
  }
}
