# Recurring-date preview and recurrence schema, in Dafny

The form component `DateTimePickerForm` collects a recurrence rule: a start
date, an optional end date, a recurrence type (daily, weekly, monthly or
yearly), an interval, and optional day-of-week and nth-day constraints. It
shows a preview of the start date and its next five occurrences. This project
models the two parts of that component that hold logic:

- `getRecurringDates`, the preview generator. It is modelled as the method
  `RecurringDates.GetRecurringDates`. The method seeds a list with the start
  date, runs a `for` loop over `i = 1..5` and pushes the start moved on by
  `i * interval` units on each turn. The `switch` that computes `newDate` is
  the method `RecurringDates.NewDate`, called from the loop body. The loop is proved against the
  specification function `RecurringDates.Schedule`, and the lemmas about the
  preview are proved about that function.
- the date-fns adders the generator calls (`addDays`, `addWeeks`, `addMonths`,
  `addYears`), in module `CivilCalendar`. Dates are proleptic-Gregorian civil
  dates `(year, month, day)`.
  - `addDays` goes through a day number (0001-01-01 is day 0). The day number
    is proved to be a bijection between valid dates and integers, and to order
    dates as the calendar does.
  - `addWeeks(n)` is `addDays(7 * n)`.
  - `addMonths` shifts the month index (`12 * year + month - 1`) and clamps
    the day of the month to the length of the target month.
  - `addYears(n)` is `addMonths(12 * n)`, as in date-fns.
- `recurrenceSchema`, the zod validator, in module `RecurrenceSchema`. It is
  modelled as a parse function from the submitted field values to a typed
  recurrence rule, with one function per field.

Three behaviours of the generator that a reader may not expect; the model keeps each as the code has it:

- Each successor is computed from the start date (`addX(startDate, i * interval)`),
  not from the previous element. For days and weeks the two readings agree
  (`DayStepsChain`). For months they do not: monthly from 31 January 2024
  gives 29 February and then 31 March (`MonthlyCountsFromStart`).
- The generator does not reject an unknown recurrence type. Its `switch` has
  no `default` case, so `newDate` stays `undefined` and is still pushed. The
  model pushes `None`.
- The generator does not reject an interval below 1. It takes any integer.
  Only the schema demands `interval >= 1`, and for a known type the preview
  is strictly increasing exactly when that bound holds (`ScheduleIncreasingIff`).

The form's preview (lines 167-176) calls the generator on the raw watched
field values on every render. The schema runs through the resolver on
submit (line 65) and, after a first submit, again on field changes; its
result never reaches the preview. `AcceptedRulePreview` is therefore about
the preview of a rule that passed the schema, not about every preview the
form shows: a cleared interval field, for example, reaches the generator as
it is and is not defaulted to 1.

## Model

| member | source | states |
|---|---|---|
| `RecurringDates.GetRecurringDates` | src/components/time-picker/date-time-picker-form.tsx:41-62 | the result has six entries; entry 0 is the start date unchanged; entry i (1..5) is the date i * interval units after the start, counted from the start, or None for an unknown type; the result is the preview `Schedule` |
| `RecurringDates.NewDate` | src/components/time-picker/date-time-picker-form.tsx:44-58 | `newDate` for one amount is the shared `Occurrence`: the adder of the named type applied to the start, or undefined for any other string |
| `RecurringDates.Schedule` | src/components/time-picker/date-time-picker-form.tsx:42-61 | no contract of its own: the preview list; `GetRecurringDates` is proved to return it, and `DailySchedule`, `WeeklySchedule`, `MonthlySchedule`, `YearlySchedule`, `UnknownTypeSchedule`, `ScheduleIncreasing` and `ScheduleIncreasingIff` state what it holds |
| `RecurringDates.Occurrence` | src/components/time-picker/date-time-picker-form.tsx:44-58 | no contract of its own: the value the switch leaves in `newDate`; `UnknownTypeSchedule` and the four per-type schedule lemmas state it for each case |
| `RecurringDates.Advance` | src/components/time-picker/date-time-picker-form.tsx:46-56 | no contract of its own: the adder each case label selects; the contracts of `AddDays`, `AddWeeks`, `AddMonths` and `AddYears` state what it returns |
| `RecurringDates.ParseRecurrenceType` | src/components/time-picker/date-time-picker-form.tsx:45-57 | the switch recognises a string exactly when it is the name of one of the four recurrence types, and then that type |
| `RecurringDates.DailySchedule` | src/components/time-picker/date-time-picker-form.tsx:46-47 | daily: every entry is defined, and entry i is exactly i * interval days after the start |
| `RecurringDates.WeeklySchedule` | src/components/time-picker/date-time-picker-form.tsx:49-50 | weekly: every entry is defined, and entry i is exactly 7 * i * interval days after the start |
| `RecurringDates.MonthlySchedule` | src/components/time-picker/date-time-picker-form.tsx:52-53 | monthly: entry i falls in the month i * interval months after the start's month, on the start's day of the month or the last day of that month if it is shorter |
| `RecurringDates.YearlySchedule` | src/components/time-picker/date-time-picker-form.tsx:55-56 | yearly: entry i falls 12 * i * interval months after the start, in the start's month and i * interval years later, with the day clamped to that month |
| `RecurringDates.UnknownTypeSchedule` | src/components/time-picker/date-time-picker-form.tsx:44-59 | for a type outside the four cases, entry 0 is still the start and entries 1..5 are all undefined |
| `RecurringDates.ScheduleIncreasing` | src/components/time-picker/date-time-picker-form.tsx:43-59 | for a known type and interval >= 1, all six dates are defined and strictly increasing in calendar order |
| `RecurringDates.ScheduleIncreasingIff` | src/components/time-picker/date-time-picker-form.tsx:43-59 | for a known type, the preview is strictly increasing if and only if interval >= 1; with interval <= 0 the first successor does not come after the start |
| `RecurringDates.ZeroIntervalRepeatsStart` | src/components/time-picker/date-time-picker-form.tsx:43-59 | with interval 0, every entry of a known type is the start date itself, so the bound interval >= 1 is needed for increase |
| `RecurringDates.DayStepsChain` | src/components/time-picker/date-time-picker-form.tsx:46-50 | for daily and weekly, counting from the start agrees with stepping one interval from the previous entry |
| `RecurringDates.MonthlyCountsFromStart` | src/components/time-picker/date-time-picker-form.tsx:52-53 | monthly from 31 January 2024 with interval 1 gives 31 Jan, 29 Feb, 31 Mar, 30 Apr, 31 May, 30 Jun, while one month after 29 February is 29 March, so monthly entries are not chained |
| `RecurringDates.DailyExample` | src/components/time-picker/date-time-picker-form.tsx:46-47 | daily from 15 January 2024 with interval 1 gives 15 to 20 January |
| `RecurringDates.WeeklyExample` | src/components/time-picker/date-time-picker-form.tsx:49-50 | weekly from 1 January 2024 with interval 2 gives 1, 15, 29 Jan, 12, 26 Feb and 11 Mar |
| `RecurringDates.DayStepsMatch` | src/components/time-picker/date-time-picker-form.tsx:46-50 | a daily or weekly preview equals the list of dates whose day numbers are the start's plus i * interval days (times 7 for weekly) |
| `RecurringDates.DayStepMatches` | src/components/time-picker/date-time-picker-form.tsx:46-50 | entry k (1..5) of a daily or weekly preview is the date whose day number is the start's plus k * interval days (times 7 for weekly) |
| `CivilCalendar.AddDays` | src/components/time-picker/date-time-picker-form.tsx:47 | addDays returns a valid date whose day number is the input's plus n |
| `CivilCalendar.AddWeeks` | src/components/time-picker/date-time-picker-form.tsx:50 | addWeeks returns a valid date whose day number is the input's plus 7 * n |
| `CivilCalendar.AddMonths` | src/components/time-picker/date-time-picker-form.tsx:53 | addMonths returns a valid date in the month n months after the input's month; its day is the input's day when that month has it, and otherwise that month's last day |
| `CivilCalendar.AddYears` | src/components/time-picker/date-time-picker-form.tsx:56 | addYears returns a valid date in the same month n years later, with the day clamped to that month's length |
| `CivilCalendar.AddDaysZero` | src/components/time-picker/date-time-picker-form.tsx:47 | adding 0 days gives back the same date |
| `CivilCalendar.AddDaysCompose` | src/components/time-picker/date-time-picker-form.tsx:47 | adding m days and then n days is adding m + n days |
| `CivilCalendar.AddDaysLands` | src/components/time-picker/date-time-picker-form.tsx:47 | the date n days after d is e if and only if e's day number is d's plus n |
| `CivilCalendar.AddMonthsZero` | src/components/time-picker/date-time-picker-form.tsx:53 | adding 0 months gives back the same date |
| `CivilCalendar.AddYearsLeapDay` | src/components/time-picker/date-time-picker-form.tsx:56 | addYears moves 29 February to 28 February in a common year and keeps the month and day of every other date |
| `CivilCalendar.DayNumber` | src/components/time-picker/date-time-picker-form.tsx:47 | no contract of its own: the day count behind addDays; `FromDayNumber`, `FromDayNumberOfDate`, `DayNumberInjective` and `BeforeIffEarlierDayNumber` state that it is an order-preserving bijection between valid dates and integers |
| `CivilCalendar.FromDayNumber` | src/components/time-picker/date-time-picker-form.tsx:47 | every integer is the day number of a valid date, and this function gives that date |
| `CivilCalendar.FromDayNumberOfDate` | src/components/time-picker/date-time-picker-form.tsx:47 | turning a valid date into its day number and back gives the same date |
| `CivilCalendar.DayNumberInjective` | src/components/time-picker/date-time-picker-form.tsx:47 | two valid dates with the same day number are the same date |
| `CivilCalendar.BeforeIffEarlierDayNumber` | src/components/time-picker/date-time-picker-form.tsx:47 | one valid date comes before another in calendar order if and only if its day number is smaller |
| `CivilCalendar.YearAndOrdinal` | src/components/time-picker/date-time-picker-form.tsx:47 | a day number splits into a year and a day of that year below the year's length, and the two add back up to the day number |
| `CivilCalendar.MonthOfOrdinal` | src/components/time-picker/date-time-picker-form.tsx:47 | the month it returns contains the given day of the year |
| `CivilCalendar.LaterMonthIsLater` | src/components/time-picker/date-time-picker-form.tsx:53 | a date in a later month comes later in calendar order, whatever the days of the month |
| `RecurrenceSchema.ParseRecurrence` | src/components/time-picker/date-time-picker-form.tsx:15-22 | an accepted rule has a valid start date and an interval of at least 1; `SchemaAcceptsIff` and `SchemaOutput` state exactly when it accepts and what it returns |
| `RecurrenceSchema.RequiredDate` | src/components/time-picker/date-time-picker-form.tsx:16 | accepts exactly a present, valid date, and returns it |
| `RecurrenceSchema.OptionalDate` | src/components/time-picker/date-time-picker-form.tsx:17 | accepts exactly an absent or valid date, and returns it unchanged |
| `RecurrenceSchema.RecurrenceTypeField` | src/components/time-picker/date-time-picker-form.tsx:18 | gives a recurrence type exactly when the field holds that type's name |
| `RecurrenceSchema.IntervalField` | src/components/time-picker/date-time-picker-form.tsx:19 | accepts exactly an absent interval or one of at least 1; an absent interval becomes 1 and a present one is kept |
| `RecurrenceSchema.DaysOfWeekField` | src/components/time-picker/date-time-picker-form.tsx:20 | accepts exactly an absent array or one whose every entry is a weekday name; absent stays absent, and a present array becomes its names as weekdays, same length and in order |
| `RecurrenceSchema.NthDayField` | src/components/time-picker/date-time-picker-form.tsx:21 | accepts exactly an absent value or one in 1..31, and returns it unchanged |
| `RecurrenceSchema.SchemaAcceptsIff` | src/components/time-picker/date-time-picker-form.tsx:15-22 | the schema accepts the form values if and only if the start date is present and valid, any end date is valid, the type is one of daily/weekly/monthly/yearly, any interval is at least 1, every day-of-week entry is one of Mon..Sun, and any nthDay is in 1..31 |
| `RecurrenceSchema.SchemaOutput` | src/components/time-picker/date-time-picker-form.tsx:15-22 | an accepted rule carries the submitted fields unchanged, except that an absent interval becomes 1; the interval is then at least 1 |
| `RecurrenceSchema.AcceptedRulePreview` | src/components/time-picker/date-time-picker-form.tsx:19 | a rule that passed the schema gives a preview of six defined, strictly increasing dates; the form's own preview is not gated by the schema |
| `RecurrenceSchema.ParseWeekday` | src/components/time-picker/date-time-picker-form.tsx:20 | a string is accepted exactly when it is the name of one weekday, and then that weekday |
| `RecurrenceSchema.ParseWeekdays` | src/components/time-picker/date-time-picker-form.tsx:20 | an array is accepted exactly when every entry is a weekday name, and then each entry becomes its weekday, in order |

## Left out

- Rendering is left out: the JSX, the `Popover`, `Calendar` and `Button` widgets, and class composition with `cn` (lines 64-185). They are presentation only.
- The react-hook-form wiring is left out: `useForm`, `register`, `watch`, `setValue`, `handleSubmit` and the `console.log` in `onSubmit` (lines 25-39). They bind framework state and do I/O. The generator and the schema take the field values as parameters instead.
- `format(date, 'PPP')` is left out. It is locale-dependent display formatting.
- Time of day, time zones and daylight-saving behaviour of JavaScript `Date` are left out. Dates are civil calendar dates. The range limit of `Date` (about 273,790 years either side of 1970) is not modelled: years are unbounded integers.
- `RecurringDates.GetRecurringDates`: `interval` is an integer. JavaScript's coercion of a string interval in `i * interval` is not modelled; an input field registered without `valueAsNumber` delivers a string.
- `RecurrenceSchema.SchemaAcceptsIff`: numbers are integers. zod's `z.number()` also accepts fractions and rejects `NaN`; neither is modelled. Values of the wrong JavaScript type (for example a string where zod expects a number) are not modelled either: each field is either absent or holds a value of its type.
- Errors for an interval below 1 or an unknown recurrence type are not modelled, because the generator raises none: an unknown type gives `None` entries, and an interval below 1 is used as given.
- The day-of-week and nth-day inputs (lines 138-161) are never used by `getRecurringDates`. Only their bounds in the schema are modelled.
- The end date is only validated as a date. Nothing in the code compares it with the start date or stops the preview at it, and the model does not either.
