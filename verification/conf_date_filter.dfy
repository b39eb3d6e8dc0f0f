/** One date constraint of a search (conf/date_filter.go): its validation,
    with the first failing rule deciding the error, and its rendering to a
    fragment of the ticketing API's query text. */
module ConfDateFilter {
  import opened Results
  import opened Strings
  import opened CalendarDates

  datatype DateAttribute = Created | Updated | Solved | DueDate {
    function Name(): string {
      match this
      case Created => "created"
      case Updated => "updated"
      case Solved => "solved"
      case DueDate => "due_date"
    }
  }

  /** The attribute a configured string names, if any. */
  function ParseDateAttribute(s: string): (r: Option<DateAttribute>)
    ensures r.Some? ==> r.value.Name() == s
    ensures r.None? ==> forall a: DateAttribute :: a.Name() != s
  {
    if s == "created" then Some(Created)
    else if s == "updated" then Some(Updated)
    else if s == "solved" then Some(Solved)
    else if s == "due_date" then Some(DueDate)
    else None
  }

  datatype CalendarUnit = Minute | Hour | Day | Month | Year {
    function Name(): string {
      match this
      case Minute => "minute"
      case Hour => "hour"
      case Day => "day"
      case Month => "month"
      case Year => "year"
    }
  }

  /** The unit a configured string names, if any. */
  function ParseCalendarUnit(s: string): (r: Option<CalendarUnit>)
    ensures r.Some? ==> r.value.Name() == s
    ensures r.None? ==> forall u: CalendarUnit :: u.Name() != s
  {
    if s == "minute" then Some(Minute)
    else if s == "hour" then Some(Hour)
    else if s == "day" then Some(Day)
    else if s == "month" then Some(Month)
    else if s == "year" then Some(Year)
    else None
  }

  const ValidAttributes: seq<DateAttribute> := [Created, Updated, Solved, DueDate]

  /** The relative units this validator accepts; minute and hour are not among them. */
  const ValidCalendarUnits: seq<CalendarUnit> := [Day, Month, Year]

  /** The characters a custom expression may start with. */
  const ValidDateOperators: seq<char> := ['>', ':', '<']

  /** A date constraint as configured: an attribute and either a relative
      range (`past` units back from today) or a raw `custom` expression. An
      empty string or a zero `past` means the field was left out. */
  datatype DateFilter = DateFilter(attribute: string, unit: string, custom: string, past: int)

  datatype DateFilterError =
    | InvalidAttribute
    | ConflictingInputs
    | MissingDateInput
    | MissingPast
    | InvalidUnit(allowed: seq<CalendarUnit>)
    | InvalidCustomOperator
  {
    /** The exact error text the validator reports. */
    function Message(): string {
      match this
      case InvalidAttribute =>
        "Attribute is required one of " + Bracketed(Names(ValidAttributes, (a: DateAttribute) => a.Name()))
      case ConflictingInputs =>
        "Can't use both the unit, past and custom either unit & past or custom on its own"
      case MissingDateInput => "Date range or custom input is required"
      case MissingPast =>
        "Past is required to determine how many units to go into the past from today"
      case InvalidUnit(allowed) => "Unit is required one of " + Bracketed(Names(allowed, (u: CalendarUnit) => u.Name()))
      case InvalidCustomOperator => "Custom input requires the operator one of [< : >]"
    }
  }

  /** A missing attribute means `created`; nothing else is touched. */
  function DefaultAttribute(df: DateFilter): (r: DateFilter)
    ensures df.attribute == "" ==> r.attribute == Created.Name()
    ensures df.attribute != "" ==> r.attribute == df.attribute
    ensures r.unit == df.unit && r.custom == df.custom && r.past == df.past
  {
    if df.attribute == "" then df.(attribute := Created.Name()) else df
  }

  predicate AttributeValid(df: DateFilter) {
    ParseDateAttribute(df.attribute).Some?
  }

  predicate UnitValid(unit: string, allowed: seq<CalendarUnit>) {
    ParseCalendarUnit(unit).Some? && ParseCalendarUnit(unit).value in allowed
  }

  /** A custom expression must begin with one of the date operators. */
  predicate CustomValid(custom: string) {
    |custom| > 0 && custom[0] in ValidDateOperators
  }

  /** The shape a date constraint must have: a known attribute and exactly
      one of a custom expression or a relative range (a known unit with a
      nonzero `past`), never both and never neither. */
  predicate WellFormed(df: DateFilter, allowed: seq<CalendarUnit>) {
    && AttributeValid(df)
    && (|| (df.custom != "" && CustomValid(df.custom) && df.unit == "" && df.past == 0)
        || (df.custom == "" && UnitValid(df.unit, allowed) && df.past != 0))
  }

  /** DateFilter.Validate with the set of accepted relative units as a
      parameter. The filter comes back with its attribute defaulted; the
      first rule that fails, in the source's order, decides the error. */
  function ValidateWithUnits(df: DateFilter, allowed: seq<CalendarUnit>): (r: (DateFilter, Option<DateFilterError>))
    ensures r.0 == DefaultAttribute(df)
    ensures var d := r.0;
      var c := d.custom != "";
      var u := d.unit != "";
      var p := d.past != 0;
      && (r.1 == Some(InvalidAttribute) <==> !AttributeValid(d))
      && (r.1 == Some(ConflictingInputs) <==> AttributeValid(d) && c && u && p)
      && (r.1 == Some(MissingDateInput) <==> AttributeValid(d) && !c && !u && !p)
      && (r.1 == Some(MissingPast) <==> AttributeValid(d) && u && !p)
      && (r.1 == Some(InvalidUnit(allowed)) <==>
            AttributeValid(d) && p && !UnitValid(d.unit, allowed) && !(c && u))
      && (r.1 == Some(InvalidCustomOperator) <==>
            AttributeValid(d) && c && !u && !p && !CustomValid(d.custom))
    ensures r.1.None? <==> WellFormed(r.0, allowed)
  {
    var d := DefaultAttribute(df);
    if !AttributeValid(d) then (d, Some(InvalidAttribute))
    else if d.custom != "" && d.unit != "" && d.past != 0 then (d, Some(ConflictingInputs))
    else if d.custom == "" && d.unit == "" && d.past == 0 then (d, Some(MissingDateInput))
    else if d.unit != "" && d.past == 0 then (d, Some(MissingPast))
    else if !UnitValid(d.unit, allowed) && d.past != 0 then (d, Some(InvalidUnit(allowed)))
    else if d.custom != "" && !CustomValid(d.custom) then (d, Some(InvalidCustomOperator))
    else (d, None)
  }

  /** DateFilter.Validate of conf/date_filter.go: relative ranges in days,
      months or years only. */
  function Validate(df: DateFilter): (r: (DateFilter, Option<DateFilterError>))
    ensures r.0 == DefaultAttribute(df)
    ensures r.1.None? <==> WellFormed(r.0, ValidCalendarUnits)
    ensures AttributeValid(r.0) && df.past != 0 && df.unit in {"minute", "hour"} && df.custom == ""
            ==> r.1 == Some(InvalidUnit(ValidCalendarUnits))
  {
    ValidateWithUnits(df, ValidCalendarUnits)
  }

  /** getDateAPIFormat's date arithmetic: `past` days, months or years
      before `ref`; any other unit, minute and hour included, leaves the
      reference date as it is. */
  function ShiftDate(ref: Date, unit: string, past: int, addDate: AddDate): (r: Date)
    ensures ParseCalendarUnit(unit) == Some(Day) ==> r == addDate(ref, 0, 0, -past)
    ensures ParseCalendarUnit(unit) == Some(Month) ==> r == addDate(ref, 0, -past, 0)
    ensures ParseCalendarUnit(unit) == Some(Year) ==> r == addDate(ref, -past, 0, 0)
    ensures !UnitValid(unit, ValidCalendarUnits) ==> r == ref
  {
    match ParseCalendarUnit(unit)
    case Some(Day) => addDate(ref, 0, 0, -past)
    case Some(Month) => addDate(ref, 0, -past, 0)
    case Some(Year) => addDate(ref, -past, 0, 0)
    case _ => ref
  }

  /** DateFilter.BuildQuery: the attribute (defaulted), then the custom
      expression verbatim; without one, `>` (never `>=`) and a date that
      reads back as the shifted reference date. */
  function BuildQuery(df: DateFilter, now: Date, addDate: AddDate): (r: string)
    ensures DefaultAttribute(df).attribute <= r
    ensures df.custom != "" ==> r == DefaultAttribute(df).attribute + df.custom
    ensures df.custom == "" ==>
      var attr := DefaultAttribute(df).attribute;
      && |r| == |attr| + 11
      && r[|attr|] == '>'
      && ParseDate(r[|attr| + 1..]) == Some(ShiftDate(now, df.unit, df.past, addDate))
  {
    var attr := DefaultAttribute(df).attribute;
    if df.custom != "" then attr + df.custom
    else
      var d := ShiftDate(now, df.unit, df.past, addDate);
      var r := attr + ">" + FormatDate(d);
      assert r[|attr| + 1..] == FormatDate(d);
      FormatDateRoundTrip(d);
      r
  }

  function DateFragments(ds: seq<DateFilter>, now: Date, addDate: AddDate): (r: seq<string>)
    ensures |r| == |ds|
    ensures forall i :: 0 <= i < |ds| ==> r[i] == BuildQuery(ds[i], now, addDate)
  {
    if |ds| == 0 then [] else [BuildQuery(ds[0], now, addDate)] + DateFragments(ds[1..], now, addDate)
  }

  /** DateFilters.BuildQuery: each filter's fragment, in order, with one
      space between consecutive fragments. */
  function DateRangeQuery(ds: seq<DateFilter>, now: Date, addDate: AddDate): (r: string)
    ensures |ds| == 0 ==> r == ""
    ensures |ds| > 0 ==> BuildQuery(ds[0], now, addDate) <= r
  {
    Join(" ", DateFragments(ds, now, addDate))
  }

  /** The rendering of a range is built from its pieces: a single filter
      renders as its own fragment, and two ranges put side by side render
      as the two texts with one space between them. */
  lemma DateRangeQueryAppend(a: seq<DateFilter>, b: seq<DateFilter>, now: Date, addDate: AddDate)
    ensures |a| == 1 ==> DateRangeQuery(a, now, addDate) == BuildQuery(a[0], now, addDate)
    ensures |a| > 0 && |b| > 0 ==>
      DateRangeQuery(a + b, now, addDate) == DateRangeQuery(a, now, addDate) + " " + DateRangeQuery(b, now, addDate)
  {
    if |a| > 0 && |b| > 0 {
      assert DateFragments(a + b, now, addDate) == DateFragments(a, now, addDate) + DateFragments(b, now, addDate);
      JoinAppend(" ", DateFragments(a, now, addDate), DateFragments(b, now, addDate));
    }
  }

  /** When no fragment contains a space, splitting the rendered range at
      spaces gives back exactly the fragments in input order: they are
      separated by single spaces, with none leading or trailing. */
  lemma DateRangeQuerySplits(ds: seq<DateFilter>, now: Date, addDate: AddDate)
    requires |ds| > 0
    requires forall i :: 0 <= i < |ds| ==> ' ' !in BuildQuery(ds[i], now, addDate)
    ensures Split(DateRangeQuery(ds, now, addDate), ' ') == DateFragments(ds, now, addDate)
  {
    SplitJoin(DateFragments(ds, now, addDate), ' ');
  }
}
