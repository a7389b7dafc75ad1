/**
 * Proleptic-Gregorian civil dates and the calendar arithmetic of the four
 * date-fns functions the form imports: addDays, addWeeks, addMonths and
 * addYears. A date is a (year, month, day) triple with no time of day.
 * Days are counted by a day number (0001-01-01 is day 0); months by a month
 * index (12 * year + month - 1).
 */
module CivilCalendar {

  datatype Date = Date(year: int, month: int, day: int)

  predicate IsLeapYear(y: int) {
    y % 4 == 0 && (y % 100 != 0 || y % 400 == 0)
  }

  function DaysInYear(y: int): int {
    if IsLeapYear(y) then 366 else 365
  }

  function DaysInMonth(y: int, m: int): int
    requires 1 <= m <= 12
  {
    if m == 2 then (if IsLeapYear(y) then 29 else 28)
    else if m == 4 || m == 6 || m == 9 || m == 11 then 30
    else 31
  }

  /** A date that names a real day of the calendar. */
  predicate ValidDate(d: Date) {
    1 <= d.month <= 12 && 1 <= d.day <= DaysInMonth(d.year, d.month)
  }

  /** Lexicographic order on (year, month, day): `a` is an earlier day than `b`. */
  predicate Before(a: Date, b: Date) {
    a.year < b.year
    || (a.year == b.year && (a.month < b.month || (a.month == b.month && a.day < b.day)))
  }

  function Min(a: int, b: int): int {
    if a <= b then a else b
  }

  // ---------------------------------------------------------------------
  // Day numbers

  /** Number of days in the years 1 .. y-1 (negative for years before 1). */
  function DaysBeforeYear(y: int): int {
    var k := y - 1;
    365 * k + k / 4 - k / 100 + k / 400
  }

  /** Number of days of year y that precede the first of month m. */
  function DaysBeforeMonth(y: int, m: int): int
    requires 1 <= m <= 12
  {
    [0, 31, 59, 90, 120, 151, 181, 212, 243, 273, 304, 334][m - 1]
    + (if m > 2 && IsLeapYear(y) then 1 else 0)
  }

  function DayNumber(d: Date): int
    requires ValidDate(d)
  {
    DaysBeforeYear(d.year) + DaysBeforeMonth(d.year, d.month) + d.day - 1
  }

  lemma MonthStep(y: int, m: int)
    requires 1 <= m < 12
    ensures DaysBeforeMonth(y, m + 1) == DaysBeforeMonth(y, m) + DaysInMonth(y, m)
  {
  }

  lemma YearEnd(y: int)
    ensures DaysBeforeMonth(y, 12) + DaysInMonth(y, 12) == DaysInYear(y)
  {
  }

  /** The months of a year are laid end to end. */
  lemma {:induction false} MonthsGrow(y: int, m1: int, m2: int)
    requires 1 <= m1 < m2 <= 12
    ensures DaysBeforeMonth(y, m1) + DaysInMonth(y, m1) <= DaysBeforeMonth(y, m2)
    decreases m2 - m1
  {
    MonthStep(y, m2 - 1);
    if m1 < m2 - 1 {
      MonthsGrow(y, m1, m2 - 1);
    }
  }

  /** Every day of a month lies inside its year. */
  lemma MonthInsideYear(y: int, m: int)
    requires 1 <= m <= 12
    ensures 0 <= DaysBeforeMonth(y, m)
    ensures DaysBeforeMonth(y, m) + DaysInMonth(y, m) <= DaysInYear(y)
  {
    YearEnd(y);
    if m < 12 {
      MonthsGrow(y, m, 12);
    }
  }

  /** The years are laid end to end. */
  lemma YearStep(y: int)
    ensures DaysBeforeYear(y + 1) == DaysBeforeYear(y) + DaysInYear(y)
  {
    var k := y - 1;
    SuccessorDiv(k, 4);
    SuccessorDiv(k, 100);
    SuccessorDiv(k, 400);
    if y % 400 == 0 {
      DivMod(y, 100, 4 * (y / 400), 0);
    }
    if y % 100 == 0 {
      DivMod(y, 4, 25 * (y / 100), 0);
    }
  }

  lemma {:induction false} YearsGrow(y1: int, y2: int)
    requires y1 < y2
    ensures DaysBeforeYear(y1) + DaysInYear(y1) <= DaysBeforeYear(y2)
    decreases y2 - y1
  {
    YearStep(y1);
    if y1 + 1 < y2 {
      YearsGrow(y1 + 1, y2);
    }
  }

  /** The day number orders dates exactly as the calendar does. */
  lemma BeforeIffEarlierDayNumber(a: Date, b: Date)
    requires ValidDate(a) && ValidDate(b)
    ensures Before(a, b) <==> DayNumber(a) < DayNumber(b)
  {
    if Before(a, b) {
      EarlierDayNumber(a, b);
    } else if Before(b, a) {
      EarlierDayNumber(b, a);
    }
  }

  lemma EarlierDayNumber(a: Date, b: Date)
    requires ValidDate(a) && ValidDate(b) && Before(a, b)
    ensures DayNumber(a) < DayNumber(b)
  {
    MonthInsideYear(a.year, a.month);
    MonthInsideYear(b.year, b.month);
    if a.year < b.year {
      YearsGrow(a.year, b.year);
    } else if a.month < b.month {
      MonthsGrow(a.year, a.month, b.month);
    }
  }

  lemma DayNumberInjective(a: Date, b: Date)
    requires ValidDate(a) && ValidDate(b) && DayNumber(a) == DayNumber(b)
    ensures a == b
  {
    BeforeIffEarlierDayNumber(a, b);
    BeforeIffEarlierDayNumber(b, a);
  }

  /** Quotient and remainder are determined by x == m * q + r with 0 <= r < m. */
  lemma DivMod(x: int, m: int, q: int, r: int)
    requires 0 < m && 0 <= r < m && x == m * q + r
    ensures x / m == q && x % m == r
  {
    var q', r' := x / m, x % m;
    assert m * q' + r' == x;
    assert m * (q - q') == r' - r;
    if q > q' {
      MultiplyAtLeast(m, q - q');
    } else if q < q' {
      MultiplyAtLeast(m, q' - q);
    }
  }

  lemma MultiplyAtLeast(m: int, k: int)
    requires 0 < m && 1 <= k
    ensures m * k >= m
  {
  }

  /** Dividing k + 1 instead of k raises the quotient exactly when m divides k + 1. */
  lemma SuccessorDiv(k: int, m: int)
    requires 0 < m
    ensures (k + 1) / m == k / m + (if (k + 1) % m == 0 then 1 else 0)
  {
    var q, r := k / m, k % m;
    if r == m - 1 {
      DivMod(k + 1, m, q + 1, 0);
    } else {
      DivMod(k + 1, m, q, r + 1);
    }
  }

  /** Days in a block of a 400-year cycles, c centuries, b four-year groups and e years. */
  lemma CycleDays(a: int, c: int, b: int, e: int)
    requires 0 <= c <= 3 && 0 <= b <= 24 && 0 <= e <= 3
    ensures DaysBeforeYear(400 * a + 100 * c + 4 * b + e + 1)
            == 146097 * a + 36524 * c + 1461 * b + 365 * e
  {
    var k := 400 * a + 100 * c + 4 * b + e;
    DivMod(k, 4, 100 * a + 25 * c + b, e);
    DivMod(k, 100, 4 * a + c, 4 * b + e);
    DivMod(k, 400, a, 100 * c + 4 * b + e);
  }

  /** Which years of a 400-year cycle are leap years. */
  lemma CycleLeap(a: int, c: int, b: int, e: int)
    requires 0 <= c <= 3 && 0 <= b <= 24 && 0 <= e <= 3
    ensures IsLeapYear(400 * a + 100 * c + 4 * b + e + 1) <==> e == 3 && (b < 24 || c == 3)
  {
    var y := 400 * a + 100 * c + 4 * b + e + 1;
    if e < 3 {
      DivMod(y, 4, 100 * a + 25 * c + b, e + 1);
    } else {
      DivMod(y, 4, 100 * a + 25 * c + b + 1, 0);
      if b < 24 {
        DivMod(y, 100, 4 * a + c, 4 * b + 4);
      } else if c < 3 {
        DivMod(y, 100, 4 * a + c + 1, 0);
        DivMod(y, 400, a, 100 * c + 100);
      } else {
        DivMod(y, 100, 4 * a + 4, 0);
        DivMod(y, 400, a + 1, 0);
      }
    }
  }

  /** Splits a day number into a year and a zero-based day of that year. */
  function YearAndOrdinal(n: int): (r: (int, int))
    ensures 0 <= r.1 < DaysInYear(r.0)
    ensures DaysBeforeYear(r.0) + r.1 == n
  {
    var a := n / 146097;
    var r400 := n % 146097;
    var c := Min(r400 / 36524, 3);
    var r100 := r400 - 36524 * c;
    var b := r100 / 1461;
    var r4 := r100 % 1461;
    var e := Min(r4 / 365, 3);
    assert 0 <= c <= 3 && 0 <= b <= 24 && 0 <= e <= 3;
    CycleDays(a, c, b, e);
    CycleLeap(a, c, b, e);
    assert e == 3 && b == 24 && c < 3 ==> r4 < 1460;
    (400 * a + 100 * c + 4 * b + e + 1, r4 - 365 * e)
  }

  /**
   * The month of year y that holds zero-based day t of the year, searching
   * downward from month m.
   */
  function MonthOfOrdinal(y: int, t: int, m: int): (r: int)
    requires 1 <= m <= 12
    requires 0 <= t < DaysBeforeMonth(y, m) + DaysInMonth(y, m)
    ensures 1 <= r <= m
    ensures DaysBeforeMonth(y, r) <= t < DaysBeforeMonth(y, r) + DaysInMonth(y, r)
    decreases m
  {
    if m == 1 || DaysBeforeMonth(y, m) <= t then m
    else
      MonthStep(y, m - 1);
      MonthOfOrdinal(y, t, m - 1)
  }

  /** The date whose day number is n. */
  function FromDayNumber(n: int): (d: Date)
    ensures ValidDate(d)
    ensures DayNumber(d) == n
  {
    var yt := YearAndOrdinal(n);
    YearEnd(yt.0);
    var m := MonthOfOrdinal(yt.0, yt.1, 12);
    Date(yt.0, m, yt.1 - DaysBeforeMonth(yt.0, m) + 1)
  }

  lemma FromDayNumberOfDate(d: Date)
    requires ValidDate(d)
    ensures FromDayNumber(DayNumber(d)) == d
  {
    DayNumberInjective(FromDayNumber(DayNumber(d)), d);
  }

  // ---------------------------------------------------------------------
  // The date-fns adders

  /** addDays(d, n): the day n days after d (before it when n < 0). */
  function AddDays(d: Date, n: int): (r: Date)
    requires ValidDate(d)
    ensures ValidDate(r)
    ensures DayNumber(r) == DayNumber(d) + n
  {
    FromDayNumber(DayNumber(d) + n)
  }

  /** addWeeks(d, n) is addDays(d, 7 * n). */
  function AddWeeks(d: Date, n: int): (r: Date)
    requires ValidDate(d)
    ensures ValidDate(r)
    ensures DayNumber(r) == DayNumber(d) + 7 * n
  {
    AddDays(d, 7 * n)
  }

  function MonthIndex(d: Date): int {
    12 * d.year + d.month - 1
  }

  /**
   * addMonths(d, n): move the month n months on, keeping the day of the
   * month unless the target month is shorter, in which case its last day.
   */
  function AddMonths(d: Date, n: int): (r: Date)
    requires ValidDate(d)
    ensures ValidDate(r)
    ensures MonthIndex(r) == MonthIndex(d) + n
    ensures r.day == Min(d.day, DaysInMonth(r.year, r.month))
  {
    var total := MonthIndex(d) + n;
    var y := total / 12;
    var m := total % 12 + 1;
    Date(y, m, Min(d.day, DaysInMonth(y, m)))
  }

  /** addYears(d, n) is addMonths(d, 12 * n). */
  function AddYears(d: Date, n: int): (r: Date)
    requires ValidDate(d)
    ensures ValidDate(r)
    ensures r.year == d.year + n && r.month == d.month
    ensures r.day == Min(d.day, DaysInMonth(r.year, r.month))
  {
    AddMonths(d, 12 * n)
  }

  // ---------------------------------------------------------------------
  // Laws of the adders

  lemma AddDaysZero(d: Date)
    requires ValidDate(d)
    ensures AddDays(d, 0) == d
  {
    FromDayNumberOfDate(d);
  }

  /** Moving m days and then n days is moving m + n days. */
  lemma AddDaysCompose(d: Date, m: int, n: int)
    requires ValidDate(d)
    ensures AddDays(AddDays(d, m), n) == AddDays(d, m + n)
  {
    DayNumberInjective(AddDays(AddDays(d, m), n), AddDays(d, m + n));
  }

  /** The date n days after d is e exactly when e's day number is n more than d's. */
  lemma AddDaysLands(d: Date, n: int, e: Date)
    requires ValidDate(d) && ValidDate(e)
    ensures AddDays(d, n) == e <==> DayNumber(e) == DayNumber(d) + n
  {
    if DayNumber(e) == DayNumber(d) + n {
      DayNumberInjective(AddDays(d, n), e);
    }
  }

  /** A later month index is a later date, whatever the days of the month. */
  lemma LaterMonthIsLater(a: Date, b: Date)
    requires ValidDate(a) && ValidDate(b) && MonthIndex(a) < MonthIndex(b)
    ensures Before(a, b)
  {
  }

  /** addMonths with amount 0 gives back the same date. */
  lemma AddMonthsZero(d: Date)
    requires ValidDate(d)
    ensures AddMonths(d, 0) == d
  {
  }

  /** addYears moves 29 February to 28 February in a common year, and keeps every other date's month and day. */
  lemma AddYearsLeapDay(d: Date, n: int)
    requires ValidDate(d)
    ensures var r := AddYears(d, n);
      if d.month == 2 && d.day == 29 && !IsLeapYear(d.year + n)
      then r == Date(d.year + n, 2, 28)
      else r == Date(d.year + n, d.month, d.day)
  {
  }
}
