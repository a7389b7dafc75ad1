/**
 * recurrenceSchema, the validator the form's resolver applies on submit.
 * Each field of the submitted values is either absent (`None`) or holds a
 * value of the field's type; parsing succeeds with the typed recurrence
 * rule (the interval defaulted to 1 when absent) or fails (`None`).
 */
module RecurrenceSchema {
  import opened Wrappers
  import opened CivilCalendar
  import opened RecurringDates

  datatype Weekday = Mon | Tue | Wed | Thu | Fri | Sat | Sun

  /** The raw values the form submits. */
  datatype FormValues = FormValues(
    startDate: Option<Date>,
    endDate: Option<Date>,
    recurrenceType: Option<string>,
    interval: Option<int>,
    daysOfWeek: Option<seq<string>>,
    nthDay: Option<int>)

  /** A recurrence rule that passed the schema. */
  datatype Recurrence = Recurrence(
    startDate: Date,
    endDate: Option<Date>,
    recurrenceType: RecurrenceType,
    interval: int,
    daysOfWeek: Option<seq<Weekday>>,
    nthDay: Option<int>)

  function WeekdayName(w: Weekday): string {
    match w
    case Mon => "Mon"
    case Tue => "Tue"
    case Wed => "Wed"
    case Thu => "Thu"
    case Fri => "Fri"
    case Sat => "Sat"
    case Sun => "Sun"
  }

  /** The day-of-week enum: a recognised string names exactly one weekday. */
  function ParseWeekday(s: string): (r: Option<Weekday>)
    ensures forall w :: r == Some(w) <==> s == WeekdayName(w)
  {
    if s == "Mon" then Some(Mon)
    else if s == "Tue" then Some(Tue)
    else if s == "Wed" then Some(Wed)
    else if s == "Thu" then Some(Thu)
    else if s == "Fri" then Some(Fri)
    else if s == "Sat" then Some(Sat)
    else if s == "Sun" then Some(Sun)
    else None
  }

  /** An array of day-of-week names: accepted when every entry is one, element by element. */
  function ParseWeekdays(names: seq<string>): (r: Option<seq<Weekday>>)
    ensures r.Some? <==> forall i :: 0 <= i < |names| ==> ParseWeekday(names[i]).Some?
    ensures r.Some? ==> |r.value| == |names|
                        && forall i :: 0 <= i < |names| ==> ParseWeekday(names[i]) == Some(r.value[i])
  {
    if names == [] then Some([])
    else
      var first :- ParseWeekday(names[0]);
      var rest :- ParseWeekdays(names[1..]);
      Some([first] + rest)
  }

  // ---------------------------------------------------------------------
  // The fields of the schema

  /** z.date(): a date must be present and be a real calendar day. */
  function RequiredDate(v: Option<Date>): (r: Option<Date>)
    ensures r.Some? <==> v.Some? && ValidDate(v.value)
    ensures r.Some? ==> r == v
  {
    match v
    case Some(d) => if ValidDate(d) then Some(d) else None
    case None => None
  }

  /** z.date().optional(): absent is accepted as absent. */
  function OptionalDate(v: Option<Date>): (r: Option<Option<Date>>)
    ensures r.Some? <==> v.None? || ValidDate(v.value)
    ensures r.Some? ==> r.value == v
  {
    match v
    case None => Some(None)
    case Some(d) => if ValidDate(d) then Some(Some(d)) else None
  }

  /** z.enum(['daily', 'weekly', 'monthly', 'yearly']): required. */
  function RecurrenceTypeField(v: Option<string>): (r: Option<RecurrenceType>)
    ensures forall kind :: r == Some(kind) <==> v == Some(TypeName(kind))
  {
    match v
    case Some(s) => ParseRecurrenceType(s)
    case None => None
  }

  /** z.number().min(1).default(1): absent becomes 1, a present number must be at least 1. */
  function IntervalField(v: Option<int>): (r: Option<int>)
    ensures r.Some? <==> v.None? || v.value >= 1
    ensures r.Some? ==> r.value >= 1 && (v.None? ==> r.value == 1) && (v.Some? ==> r == v)
  {
    var n := match v case Some(x) => x case None => 1;
    if n >= 1 then Some(n) else None
  }

  /** z.array(z.enum([...weekdays])).optional(). */
  function DaysOfWeekField(v: Option<seq<string>>): (r: Option<Option<seq<Weekday>>>)
    ensures r.Some? <==> v.None? || forall i :: 0 <= i < |v.value| ==> ParseWeekday(v.value[i]).Some?
    ensures r.Some? ==> (r.value.None? <==> v.None?)
    ensures r.Some? && v.Some? ==>
      r.value.Some? && |r.value.value| == |v.value|
      && forall i :: 0 <= i < |v.value| ==> WeekdayName(r.value.value[i]) == v.value[i]
  {
    match v
    case None => Some(None)
    case Some(names) =>
      var days :- ParseWeekdays(names);
      Some(Some(days))
  }

  /** z.number().min(1).max(31).optional(). */
  function NthDayField(v: Option<int>): (r: Option<Option<int>>)
    ensures r.Some? <==> v.None? || 1 <= v.value <= 31
    ensures r.Some? ==> r.value == v
  {
    match v
    case None => Some(None)
    case Some(n) => if 1 <= n <= 31 then Some(Some(n)) else None
  }

  /**
   * recurrenceSchema: every field must pass for the whole record to pass.
   * An accepted rule always has a real start date and an interval of at least 1.
   */
  function ParseRecurrence(f: FormValues): (r: Option<Recurrence>)
    ensures r.Some? ==> ValidDate(r.value.startDate) && r.value.interval >= 1
  {
    var startDate :- RequiredDate(f.startDate);
    var endDate :- OptionalDate(f.endDate);
    var kind :- RecurrenceTypeField(f.recurrenceType);
    var interval :- IntervalField(f.interval);
    var daysOfWeek :- DaysOfWeekField(f.daysOfWeek);
    var nthDay :- NthDayField(f.nthDay);
    Some(Recurrence(startDate, endDate, kind, interval, daysOfWeek, nthDay))
  }

  // ---------------------------------------------------------------------
  // What the schema accepts and what it produces

  /** The schema accepts the submitted values exactly when all six field conditions hold. */
  lemma SchemaAcceptsIff(f: FormValues)
    ensures ParseRecurrence(f).Some? <==>
      (f.startDate.Some? && ValidDate(f.startDate.value))
      && (f.endDate.None? || ValidDate(f.endDate.value))
      && (f.recurrenceType.Some? && f.recurrenceType.value in {"daily", "weekly", "monthly", "yearly"})
      && (f.interval.None? || f.interval.value >= 1)
      && (f.daysOfWeek.None?
          || forall i :: 0 <= i < |f.daysOfWeek.value| ==>
               f.daysOfWeek.value[i] in {"Mon", "Tue", "Wed", "Thu", "Fri", "Sat", "Sun"})
      && (f.nthDay.None? || 1 <= f.nthDay.value <= 31)
  {
  }

  /** An accepted rule carries the submitted values, with the interval defaulted to 1 and at least 1. */
  lemma SchemaOutput(f: FormValues, r: Recurrence)
    requires ParseRecurrence(f) == Some(r)
    ensures f.startDate == Some(r.startDate) && r.endDate == f.endDate && r.nthDay == f.nthDay
    ensures f.recurrenceType == Some(TypeName(r.recurrenceType))
    ensures r.interval == (if f.interval.None? then 1 else f.interval.value) && r.interval >= 1
    ensures r.daysOfWeek.None? <==> f.daysOfWeek.None?
    ensures r.daysOfWeek.Some? ==>
      |r.daysOfWeek.value| == |f.daysOfWeek.value|
      && forall i :: 0 <= i < |r.daysOfWeek.value| ==> WeekdayName(r.daysOfWeek.value[i]) == f.daysOfWeek.value[i]
  {
  }

  /** The preview of an accepted rule lists six defined, strictly increasing dates. */
  lemma AcceptedRulePreview(f: FormValues, r: Recurrence)
    requires ParseRecurrence(f) == Some(r)
    ensures ValidDate(r.startDate)
    ensures StrictlyIncreasing(Schedule(r.startDate, TypeName(r.recurrenceType), r.interval))
  {
    SchemaOutput(f, r);
    ScheduleIncreasing(r.startDate, TypeName(r.recurrenceType), r.interval);
  }
}
