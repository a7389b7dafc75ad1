/**
 * The preview generator of the recurrence form: getRecurringDates turns a
 * start date, a recurrence type and an interval into the start date followed
 * by five successors. Successor i is the start moved on by i * interval
 * units (days, weeks, calendar months or calendar years) - always counted
 * from the start, never from the previous successor. A recurrence type the
 * switch does not know leaves the successor undefined (`None`).
 */
module RecurringDates {
  import opened Wrappers
  import opened CivilCalendar

  datatype RecurrenceType = Daily | Weekly | Monthly | Yearly

  /** The string the form's select submits for each recurrence type. */
  function TypeName(kind: RecurrenceType): string {
    match kind
    case Daily => "daily"
    case Weekly => "weekly"
    case Monthly => "monthly"
    case Yearly => "yearly"
  }

  /** The cases of the switch: a recognised string names exactly one type. */
  function ParseRecurrenceType(s: string): (r: Option<RecurrenceType>)
    ensures forall kind :: r == Some(kind) <==> s == TypeName(kind)
  {
    if s == "daily" then Some(Daily)
    else if s == "weekly" then Some(Weekly)
    else if s == "monthly" then Some(Monthly)
    else if s == "yearly" then Some(Yearly)
    else None
  }

  /** The date `amount` units of `kind` after `start`. */
  function Advance(start: Date, kind: RecurrenceType, amount: int): Date
    requires ValidDate(start)
  {
    match kind
    case Daily => AddDays(start, amount)
    case Weekly => AddWeeks(start, amount)
    case Monthly => AddMonths(start, amount)
    case Yearly => AddYears(start, amount)
  }

  /** What the switch leaves in newDate: undefined for a type it does not know. */
  function Occurrence(start: Date, recurrenceType: string, amount: int): Option<Date>
    requires ValidDate(start)
  {
    match ParseRecurrenceType(recurrenceType)
    case None => None
    case Some(kind) => Some(Advance(start, kind, amount))
  }

  /** The loop bound of getRecurringDates: five successors follow the start. */
  const Successors: nat := 5

  /** The preview list: the start, then the dates i * interval units after it. */
  function Schedule(start: Date, recurrenceType: string, interval: int): seq<Option<Date>>
    requires ValidDate(start)
  {
    seq(Successors + 1, i => if i == 0 then Some(start) else Occurrence(start, recurrenceType, i * interval))
  }

  /** The switch of getRecurringDates: newDate for one amount, left undefined for an unknown type. */
  method NewDate(startDate: Date, recurrenceType: string, amount: int) returns (newDate: Option<Date>)
    requires ValidDate(startDate)
    ensures newDate == Occurrence(startDate, recurrenceType, amount)
  {
    newDate := None;
    if recurrenceType == "daily" {
      newDate := Some(AddDays(startDate, amount));
    } else if recurrenceType == "weekly" {
      newDate := Some(AddWeeks(startDate, amount));
    } else if recurrenceType == "monthly" {
      newDate := Some(AddMonths(startDate, amount));
    } else if recurrenceType == "yearly" {
      newDate := Some(AddYears(startDate, amount));
    }
  }

  /** getRecurringDates: seed the list with the start, then push five successors. */
  method GetRecurringDates(startDate: Date, recurrenceType: string, interval: int)
    returns (dates: seq<Option<Date>>)
    requires ValidDate(startDate)
    ensures |dates| == Successors + 1
    ensures dates[0] == Some(startDate)
    ensures forall i :: 1 <= i < |dates| ==> dates[i] == Occurrence(startDate, recurrenceType, i * interval)
    ensures dates == Schedule(startDate, recurrenceType, interval)
  {
    dates := [Some(startDate)];
    for i := 1 to Successors + 1
      invariant |dates| == i
      invariant dates[0] == Some(startDate)
      invariant forall j :: 1 <= j < i ==> dates[j] == Occurrence(startDate, recurrenceType, j * interval)
    {
      var newDate := NewDate(startDate, recurrenceType, i * interval);
      dates := dates + [newDate];
    }
  }

  // ---------------------------------------------------------------------
  // Properties of the preview list

  predicate AllDefined(s: seq<Option<Date>>) {
    forall i :: 0 <= i < |s| ==> s[i].Some?
  }

  /** Every entry is defined and a real calendar day. */
  predicate AllValid(s: seq<Option<Date>>) {
    forall i :: 0 <= i < |s| ==> s[i].Some? && ValidDate(s[i].value)
  }

  predicate StrictlyIncreasing(s: seq<Option<Date>>) {
    AllDefined(s) && forall i, j :: 0 <= i < j < |s| ==> Before(s[i].value, s[j].value)
  }

  /** Daily: element i is exactly i * interval days after the start. */
  lemma DailySchedule(start: Date, interval: int)
    requires ValidDate(start)
    ensures var s := Schedule(start, "daily", interval);
      AllValid(s) && forall i :: 0 <= i < |s| ==> DayNumber(s[i].value) == DayNumber(start) + i * interval
  {
  }

  /** Weekly: element i is exactly 7 * i * interval days after the start. */
  lemma WeeklySchedule(start: Date, interval: int)
    requires ValidDate(start)
    ensures var s := Schedule(start, "weekly", interval);
      AllValid(s) && forall i :: 0 <= i < |s| ==> DayNumber(s[i].value) == DayNumber(start) + i * (7 * interval)
  {
    var s := Schedule(start, "weekly", interval);
    forall i | 0 <= i < |s|
      ensures s[i].Some? && ValidDate(s[i].value)
      ensures DayNumber(s[i].value) == DayNumber(start) + i * (7 * interval)
    {
      ScaleUnit(7, i, interval);
    }
  }

  /**
   * Monthly: element i falls in the month i * interval months after the
   * start's month, on the start's day of the month or that month's last day.
   */
  lemma MonthlySchedule(start: Date, interval: int)
    requires ValidDate(start)
    ensures var s := Schedule(start, "monthly", interval);
      AllValid(s)
      && forall i :: 0 <= i < |s| ==>
           MonthIndex(s[i].value) == MonthIndex(start) + i * interval
           && s[i].value.day == Min(start.day, DaysInMonth(s[i].value.year, s[i].value.month))
  {
  }

  /**
   * Yearly: element i falls in the start's month, i * interval years later
   * (12 * i * interval months), on the start's day or that month's last day.
   */
  lemma YearlySchedule(start: Date, interval: int)
    requires ValidDate(start)
    ensures var s := Schedule(start, "yearly", interval);
      AllValid(s)
      && forall i :: 0 <= i < |s| ==>
           MonthIndex(s[i].value) == MonthIndex(start) + i * (12 * interval)
           && s[i].value.year == start.year + i * interval
           && s[i].value.month == start.month
           && s[i].value.day == Min(start.day, DaysInMonth(s[i].value.year, s[i].value.month))
  {
    var s := Schedule(start, "yearly", interval);
    forall i | 0 <= i < |s|
      ensures s[i].Some? && ValidDate(s[i].value)
      ensures MonthIndex(s[i].value) == MonthIndex(start) + i * (12 * interval)
    {
      ScaleUnit(12, i, interval);
    }
  }

  lemma ScaleUnit(unit: int, i: int, n: int)
    ensures unit * (i * n) == i * (unit * n)
  {
  }

  /** A type outside the four cases: the start is still first, every successor is undefined. */
  lemma UnknownTypeSchedule(start: Date, recurrenceType: string, interval: int)
    requires ValidDate(start) && ParseRecurrenceType(recurrenceType).None?
    ensures var s := Schedule(start, recurrenceType, interval);
      |s| == Successors + 1 && s[0] == Some(start)
      && forall i :: 1 <= i < |s| ==> s[i] == None
  {
  }

  lemma ScaleStrict(i: int, j: int, n: int)
    requires i < j && 1 <= n
    ensures i * n < j * n
  {
    MultiplyAtLeast(n, j - i);
  }

  /** Dates whose day numbers grow by a positive step are strictly increasing. */
  lemma IncreasingByDays(s: seq<Option<Date>>, base: int, step: int)
    requires AllValid(s) && 1 <= step
    requires forall i :: 0 <= i < |s| ==> DayNumber(s[i].value) == base + i * step
    ensures StrictlyIncreasing(s)
  {
    forall i, j | 0 <= i < j < |s|
      ensures Before(s[i].value, s[j].value)
    {
      ScaleStrict(i, j, step);
      BeforeIffEarlierDayNumber(s[i].value, s[j].value);
    }
  }

  /** Dates whose month indexes grow by a positive step are strictly increasing. */
  lemma IncreasingByMonths(s: seq<Option<Date>>, base: int, step: int)
    requires AllValid(s) && 1 <= step
    requires forall i :: 0 <= i < |s| ==> MonthIndex(s[i].value) == base + i * step
    ensures StrictlyIncreasing(s)
  {
    forall i, j | 0 <= i < j < |s|
      ensures Before(s[i].value, s[j].value)
    {
      ScaleStrict(i, j, step);
      LaterMonthIsLater(s[i].value, s[j].value);
    }
  }

  /** With a known type and interval >= 1, the six dates are strictly increasing. */
  lemma ScheduleIncreasing(start: Date, recurrenceType: string, interval: int)
    requires ValidDate(start) && ParseRecurrenceType(recurrenceType).Some? && interval >= 1
    ensures StrictlyIncreasing(Schedule(start, recurrenceType, interval))
  {
    var s := Schedule(start, recurrenceType, interval);
    match ParseRecurrenceType(recurrenceType).value
    case Daily =>
      DailySchedule(start, interval);
      IncreasingByDays(s, DayNumber(start), interval);
    case Weekly =>
      WeeklySchedule(start, interval);
      IncreasingByDays(s, DayNumber(start), 7 * interval);
    case Monthly =>
      MonthlySchedule(start, interval);
      IncreasingByMonths(s, MonthIndex(start), interval);
    case Yearly =>
      YearlySchedule(start, interval);
      IncreasingByMonths(s, MonthIndex(start), 12 * interval);
  }

  /** For a known type, the preview is strictly increasing exactly when the interval is at least 1. */
  lemma ScheduleIncreasingIff(start: Date, recurrenceType: string, interval: int)
    requires ValidDate(start) && ParseRecurrenceType(recurrenceType).Some?
    ensures StrictlyIncreasing(Schedule(start, recurrenceType, interval)) <==> interval >= 1
  {
    if interval >= 1 {
      ScheduleIncreasing(start, recurrenceType, interval);
    } else {
      var s := Schedule(start, recurrenceType, interval);
      FirstStepNotLater(start, recurrenceType, interval);
      assert s[0].value == start && !Before(s[0].value, s[1].value);
    }
  }

  /** With an interval of 0 or less, the first successor does not come after the start. */
  lemma FirstStepNotLater(start: Date, recurrenceType: string, interval: int)
    requires ValidDate(start) && ParseRecurrenceType(recurrenceType).Some? && interval <= 0
    ensures var s := Schedule(start, recurrenceType, interval);
      s[1].Some? && !Before(start, s[1].value)
  {
    var s := Schedule(start, recurrenceType, interval);
    match ParseRecurrenceType(recurrenceType).value
    case Daily =>
      DailySchedule(start, interval);
      BeforeIffEarlierDayNumber(start, s[1].value);
    case Weekly =>
      WeeklySchedule(start, interval);
      BeforeIffEarlierDayNumber(start, s[1].value);
    case Monthly =>
      MonthlySchedule(start, interval);
      NotLaterMonth(start, s[1].value);
    case Yearly =>
      YearlySchedule(start, interval);
      NotLaterMonth(start, s[1].value);
  }

  /** A date in the same or an earlier month, with the day clamped from `a`, is not after `a`. */
  lemma NotLaterMonth(a: Date, b: Date)
    requires ValidDate(a) && ValidDate(b) && MonthIndex(b) <= MonthIndex(a)
    requires b.day == Min(a.day, DaysInMonth(b.year, b.month))
    ensures !Before(a, b)
  {
    if MonthIndex(b) < MonthIndex(a) {
      LaterMonthIsLater(b, a);
    }
  }

  /**
   * Without the schema's bound the preview can stall: with interval 0 every
   * element of a recognised type is the start date itself.
   */
  lemma ZeroIntervalRepeatsStart(start: Date, recurrenceType: string)
    requires ValidDate(start) && ParseRecurrenceType(recurrenceType).Some?
    ensures var s := Schedule(start, recurrenceType, 0);
      forall i :: 0 <= i < |s| ==> s[i] == Some(start)
  {
    var kind := ParseRecurrenceType(recurrenceType).value;
    AddDaysZero(start);
    AddMonthsZero(start);
    assert Advance(start, kind, 0) == start;
  }

  /**
   * For days and weeks, counting from the start agrees with stepping from the
   * previous element: element i is element i - 1 moved on by one interval.
   */
  lemma DayStepsChain(start: Date, recurrenceType: string, interval: int)
    requires ValidDate(start)
    requires recurrenceType == "daily" || recurrenceType == "weekly"
    ensures var s := Schedule(start, recurrenceType, interval);
      var step := if recurrenceType == "daily" then interval else 7 * interval;
      AllDefined(s) && forall i :: 1 <= i < |s| ==> s[i].value == AddDays(s[i - 1].value, step)
  {
    var s := Schedule(start, recurrenceType, interval);
    var step := if recurrenceType == "daily" then interval else 7 * interval;
    if recurrenceType == "daily" {
      DailySchedule(start, interval);
    } else {
      WeeklySchedule(start, interval);
    }
    forall i | 1 <= i < |s|
      ensures s[i].value == AddDays(s[i - 1].value, step)
    {
      MultiplyAdd(i - 1, step);
      DayNumberInjective(s[i].value, AddDays(s[i - 1].value, step));
    }
  }

  lemma MultiplyAdd(a: int, b: int)
    ensures a * b + b == (a + 1) * b
  {
  }

  /**
   * For months the two readings differ: monthly from 31 January 2024 gives
   * 29 February and then 31 March, while stepping one month from 29 February
   * would give 29 March.
   */
  lemma MonthlyCountsFromStart()
    ensures Schedule(Date(2024, 1, 31), "monthly", 1)
            == [Some(Date(2024, 1, 31)), Some(Date(2024, 2, 29)), Some(Date(2024, 3, 31)),
                Some(Date(2024, 4, 30)), Some(Date(2024, 5, 31)), Some(Date(2024, 6, 30))]
    ensures AddMonths(Date(2024, 2, 29), 1) == Date(2024, 3, 29)
  {
    var expected := [Date(2024, 1, 31), Date(2024, 2, 29), Date(2024, 3, 31),
                     Date(2024, 4, 30), Date(2024, 5, 31), Date(2024, 6, 30)];
    MonthStepsMatch(Date(2024, 1, 31), 1, expected);
  }

  /** A monthly preview is the list of dates in the right months with the clamped day. */
  lemma MonthStepsMatch(start: Date, interval: int, expected: seq<Date>)
    requires ValidDate(start)
    requires |expected| == Successors + 1
    requires forall k :: 0 <= k < |expected| ==>
      ValidDate(expected[k]) && MonthIndex(expected[k]) == MonthIndex(start) + k * interval
      && expected[k].day == Min(start.day, DaysInMonth(expected[k].year, expected[k].month))
    ensures Schedule(start, "monthly", interval) == seq(|expected|, k requires 0 <= k < |expected| => Some(expected[k]))
  {
    var s := Schedule(start, "monthly", interval);
    MonthlySchedule(start, interval);
    forall k | 0 <= k < |s|
      ensures s[k] == Some(expected[k])
    {
      SameMonthIndex(s[k].value, expected[k]);
    }
  }

  /** A month index names one month of one year. */
  lemma SameMonthIndex(a: Date, b: Date)
    requires 1 <= a.month <= 12 && 1 <= b.month <= 12 && MonthIndex(a) == MonthIndex(b)
    ensures a.year == b.year && a.month == b.month
  {
  }

  /** Daily from 15 January 2024, interval 1: the next five days. */
  lemma DailyExample()
    ensures Schedule(Date(2024, 1, 15), "daily", 1)
            == [Some(Date(2024, 1, 15)), Some(Date(2024, 1, 16)), Some(Date(2024, 1, 17)),
                Some(Date(2024, 1, 18)), Some(Date(2024, 1, 19)), Some(Date(2024, 1, 20))]
  {
    var expected := [Some(Date(2024, 1, 15)), Some(Date(2024, 1, 16)), Some(Date(2024, 1, 17)),
                     Some(Date(2024, 1, 18)), Some(Date(2024, 1, 19)), Some(Date(2024, 1, 20))];
    DayStepsMatch(Date(2024, 1, 15), "daily", 1, expected);
  }

  /** Weekly from 1 January 2024, interval 2: every other Monday. */
  lemma WeeklyExample()
    ensures Schedule(Date(2024, 1, 1), "weekly", 2)
            == [Some(Date(2024, 1, 1)), Some(Date(2024, 1, 15)), Some(Date(2024, 1, 29)),
                Some(Date(2024, 2, 12)), Some(Date(2024, 2, 26)), Some(Date(2024, 3, 11))]
  {
    var expected := [Some(Date(2024, 1, 1)), Some(Date(2024, 1, 15)), Some(Date(2024, 1, 29)),
                     Some(Date(2024, 2, 12)), Some(Date(2024, 2, 26)), Some(Date(2024, 3, 11))];
    DayStepsMatch(Date(2024, 1, 1), "weekly", 2, expected);
  }

  /** A daily or weekly preview is the list of dates whose day numbers it should have. */
  lemma DayStepsMatch(start: Date, recurrenceType: string, interval: int, expected: seq<Option<Date>>)
    requires ValidDate(start) && (recurrenceType == "daily" || recurrenceType == "weekly")
    requires |expected| == Successors + 1
    requires forall k :: 0 <= k < |expected| ==>
      expected[k].Some? && ValidDate(expected[k].value)
      && DayNumber(expected[k].value) == DayNumber(start) + k * (if recurrenceType == "daily" then interval else 7 * interval)
    ensures Schedule(start, recurrenceType, interval) == expected
  {
    var s := Schedule(start, recurrenceType, interval);
    DayNumberInjective(start, expected[0].value);
    DayStepMatches(start, recurrenceType, interval, 1, expected[1].value);
    DayStepMatches(start, recurrenceType, interval, 2, expected[2].value);
    DayStepMatches(start, recurrenceType, interval, 3, expected[3].value);
    DayStepMatches(start, recurrenceType, interval, 4, expected[4].value);
    DayStepMatches(start, recurrenceType, interval, 5, expected[5].value);
    SameSixEntries(s, expected);
  }

  /** One entry of a daily or weekly preview is the date with the day number it should have. */
  lemma DayStepMatches(start: Date, recurrenceType: string, interval: int, k: int, e: Date)
    requires ValidDate(start) && (recurrenceType == "daily" || recurrenceType == "weekly")
    requires 1 <= k <= Successors && ValidDate(e)
    requires DayNumber(e) == DayNumber(start) + k * (if recurrenceType == "daily" then interval else 7 * interval)
    ensures Schedule(start, recurrenceType, interval)[k] == Some(e)
  {
    var r := Schedule(start, recurrenceType, interval)[k].value;
    if recurrenceType == "weekly" {
      ScaleUnit(7, k, interval);
    }
    DayNumberInjective(r, e);
  }

  /** Two six-entry lists are equal when they agree entry by entry. */
  lemma SameSixEntries(a: seq<Option<Date>>, b: seq<Option<Date>>)
    requires |a| == |b| == 6
    requires a[0] == b[0] && a[1] == b[1] && a[2] == b[2] && a[3] == b[3] && a[4] == b[4] && a[5] == b[5]
    ensures a == b
  {
    forall k | 0 <= k < 6
      ensures a[k] == b[k]
    {
      assert k == 0 || k == 1 || k == 2 || k == 3 || k == 4 || k == 5;
    }
  }
}
