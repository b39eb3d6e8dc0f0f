/** Options of a detailed-metrics report (conf/metrics.go): which ticket
    metric to read, business or calendar minutes, and the buckets the
    tickets are counted into. */
module ConfMetrics {
  import opened Results
  import opened Strings
  import opened ConfDateFilter

  datatype MetricAttribute =
    | ReplyTime
    | FirstResolutionTime
    | FullResolutionTime
    | AgentWaitTime
    | RequesterWaitTime
    | OnHoldTime
  {
    function Name(): string {
      match this
      case ReplyTime => "reply_time"
      case FirstResolutionTime => "first_resolution_time"
      case FullResolutionTime => "full_resolution_time"
      case AgentWaitTime => "agent_wait_time"
      case RequesterWaitTime => "requester_wait_time"
      case OnHoldTime => "on_hold_time"
    }
  }

  /** The metric attribute a configured string names, if any. */
  function ParseMetricAttribute(s: string): (r: Option<MetricAttribute>)
    ensures r.Some? ==> r.value.Name() == s
    ensures r.None? ==> forall a: MetricAttribute :: a.Name() != s
  {
    if s == "reply_time" then Some(ReplyTime)
    else if s == "first_resolution_time" then Some(FirstResolutionTime)
    else if s == "full_resolution_time" then Some(FullResolutionTime)
    else if s == "agent_wait_time" then Some(AgentWaitTime)
    else if s == "requester_wait_time" then Some(RequesterWaitTime)
    else if s == "on_hold_time" then Some(OnHoldTime)
    else None
  }

  /** Which of a metric's two minute counts a report reads. */
  datatype MetricSubMetric = Business | Calendar {
    function Name(): string {
      match this
      case Business => "business"
      case Calendar => "calendar"
    }
  }

  function ParseMetricSubMetric(s: string): (r: Option<MetricSubMetric>)
    ensures r.Some? ==> r.value.Name() == s
    ensures r.None? ==> forall u: MetricSubMetric :: u.Name() != s
  {
    if s == "business" then Some(Business)
    else if s == "calendar" then Some(Calendar)
    else None
  }

  const ValidMetricAttributes: seq<MetricAttribute> :=
    [ReplyTime, FirstResolutionTime, FullResolutionTime, AgentWaitTime, RequesterWaitTime, OnHoldTime]

  const ValidMetricUnits: seq<MetricSubMetric> := [Business, Calendar]

  /** One bucket: tickets whose metric lies from `from` (inclusive) to `to`
      (exclusive), both counted in `unit`. */
  datatype MetricGroup = MetricGroup(unit: string, from: int, to: int)

  /** The metric options of a report. `grouping` is `None` when the list
      was left out altogether, which Go tells apart from an empty list. */
  datatype MetricOption = MetricOption(attribute: string, unit: string, grouping: Option<seq<MetricGroup>>) {
    /** The buckets in declaration order; a missing list has none. */
    function Groups(): seq<MetricGroup> {
      if grouping.Some? then grouping.value else []
    }
  }

  datatype MetricError =
    | EmptyMetricOptions
    | InvalidMetricAttribute
    | InvalidMetricUnit
    | EmptyGrouping
    | InvalidGroupUnit
    | FromGreaterThanTo
    | FromEqualToTo
  {
    /** The exact error text conf/metrics.go reports. */
    function Message(): string {
      match this
      case EmptyMetricOptions =>
        "The metric options must be present to be valid for a metric report"
      case InvalidMetricAttribute =>
        "The metric attribute is not valid must be one of " + Bracketed(Names(ValidMetricAttributes, (a: MetricAttribute) => a.Name()))
      case InvalidMetricUnit =>
        "The metric unit is not valid must be one of " + Bracketed(Names(ValidMetricUnits, (u: MetricSubMetric) => u.Name()))
      case EmptyGrouping => "The metric grouping is required when using detailed_metric report"
      case InvalidGroupUnit => "The metric group unit is invalid must be one of [minute hour]"
      case FromGreaterThanTo => "The metric group 'from' value must not be greater than the 'to' value"
      case FromEqualToTo => "The metric group 'from' value must not be equal to the 'to' value"
    }
  }

  /** Units a bucket may be expressed in. */
  predicate GroupUnitValid(unit: string) {
    ParseCalendarUnit(unit) == Some(Minute) || ParseCalendarUnit(unit) == Some(Hour)
  }

  /** getUnitInMinutes: a count of minutes or hours as minutes; -1 marks
      any other unit. */
  function UnitInMinutes(unit: string, v: int): (r: int)
    ensures !GroupUnitValid(unit) ==> r == -1
    ensures ParseCalendarUnit(unit) == Some(Minute) ==> r == v
    ensures ParseCalendarUnit(unit) == Some(Hour) ==> r == 60 * v
  {
    match ParseCalendarUnit(unit)
    case Some(Minute) => v
    case Some(Hour) => v * 60
    case _ => -1
  }

  /** A bucket's start in minutes; -1 when its unit is not minute or hour. */
  function FromInMinutes(g: MetricGroup): (r: int)
    ensures !GroupUnitValid(g.unit) ==> r == -1
    ensures ParseCalendarUnit(g.unit) == Some(Minute) ==> r == g.from
    ensures ParseCalendarUnit(g.unit) == Some(Hour) ==> r == 60 * g.from
  {
    UnitInMinutes(g.unit, g.from)
  }

  /** A bucket's end in minutes; -1 when its unit is not minute or hour. */
  function ToInMinutes(g: MetricGroup): (r: int)
    ensures !GroupUnitValid(g.unit) ==> r == -1
    ensures ParseCalendarUnit(g.unit) == Some(Minute) ==> r == g.to
    ensures ParseCalendarUnit(g.unit) == Some(Hour) ==> r == 60 * g.to
  {
    UnitInMinutes(g.unit, g.to)
  }

  /** For a bucket unit, the conversion is strictly increasing and the
      count is read back exactly by dividing by the unit's length. */
  lemma UnitInMinutesFaithful(unit: string, a: int, b: int)
    requires GroupUnitValid(unit)
    ensures a < b <==> UnitInMinutes(unit, a) < UnitInMinutes(unit, b)
    ensures var len := if ParseCalendarUnit(unit) == Some(Hour) then 60 else 1;
            UnitInMinutes(unit, a) / len == a && UnitInMinutes(unit, a) % len == 0
  {
  }

  /** The conversions conf/metrics_test.go lists. */
  lemma UnitInMinutesExamples()
    ensures UnitInMinutes("hour", 1) == 60
    ensures UnitInMinutes("hour", 0) == 0
    ensures UnitInMinutes("minute", 3) == 3
    ensures UnitInMinutes("day", 1) == -1
    ensures UnitInMinutes("year", 1) == -1
  {
  }

  /** The zero value of MetricOption: nothing configured, and no grouping
      list at all. */
  predicate IsZero(m: MetricOption) {
    m.attribute == "" && m.unit == "" && m.grouping.None?
  }

  /** MetricOption.Valid: the all-zero option first, then the attribute,
      then the unit. */
  function Valid(m: MetricOption): (r: Option<MetricError>)
    ensures r == Some(EmptyMetricOptions) <==> IsZero(m)
    ensures r == Some(InvalidMetricAttribute) <==> !IsZero(m) && ParseMetricAttribute(m.attribute).None?
    ensures r == Some(InvalidMetricUnit) <==>
              ParseMetricAttribute(m.attribute).Some? && ParseMetricSubMetric(m.unit).None?
    ensures r.None? <==> ParseMetricAttribute(m.attribute).Some? && ParseMetricSubMetric(m.unit).Some?
  {
    if IsZero(m) then Some(EmptyMetricOptions)
    else if ParseMetricAttribute(m.attribute).None? then Some(InvalidMetricAttribute)
    else if ParseMetricSubMetric(m.unit).None? then Some(InvalidMetricUnit)
    else None
  }

  /** Valid never inspects the buckets themselves: only whether a list is
      present can matter, and only when nothing else is set. */
  lemma ValidIgnoresGrouping(m: MetricOption, grouping: Option<seq<MetricGroup>>)
    requires m.attribute != "" || m.unit != "" || (m.grouping.Some? && grouping.Some?)
    ensures Valid(m) == Valid(m.(grouping := grouping))
  {
  }

  /** Every one of the twelve attribute and unit combinations is accepted. */
  lemma ValidCombinations(a: MetricAttribute, u: MetricSubMetric, grouping: Option<seq<MetricGroup>>)
    ensures Valid(MetricOption(a.Name(), u.Name(), grouping)) == None
  {
    assert ParseMetricAttribute(a.Name()) == Some(a);
    assert ParseMetricSubMetric(u.Name()) == Some(u);
  }

  /** The outcomes conf/metrics_test.go lists for Valid; an empty but present
      grouping list already makes an option non-zero. */
  lemma ValidExamples()
    ensures Valid(MetricOption("", "", None)) == Some(EmptyMetricOptions)
    ensures Valid(MetricOption("", "", Some([]))) == Some(InvalidMetricAttribute)
    ensures Valid(MetricOption("Test", "", None)) == Some(InvalidMetricAttribute)
    ensures Valid(MetricOption("reply_time", "Test", None)) == Some(InvalidMetricUnit)
  {
  }

  /** MetricGroup.valid: the unit first, then the two range errors. */
  function GroupValid(g: MetricGroup): (r: Option<MetricError>)
    ensures r == Some(InvalidGroupUnit) <==> !GroupUnitValid(g.unit)
    ensures r == Some(FromGreaterThanTo) <==> GroupUnitValid(g.unit) && g.from > g.to
    ensures r == Some(FromEqualToTo) <==> GroupUnitValid(g.unit) && g.from == g.to
    ensures r.None? <==> GroupUnitValid(g.unit) && g.from < g.to
  {
    if !GroupUnitValid(g.unit) then Some(InvalidGroupUnit)
    else if g.from > g.to then Some(FromGreaterThanTo)
    else if g.from == g.to then Some(FromEqualToTo)
    else None
  }

  /** A bucket that validates is a non-empty half-open range of minutes. */
  lemma ValidGroupIsNonEmptyRange(g: MetricGroup)
    requires GroupValid(g).None?
    ensures FromInMinutes(g) < ToInMinutes(g)
  {
    UnitInMinutesFaithful(g.unit, g.from, g.to);
  }

  /** The error of the first invalid bucket, in declaration order. */
  function FirstGroupError(gs: seq<MetricGroup>): (r: Option<MetricError>)
    ensures r.None? <==> forall i :: 0 <= i < |gs| ==> GroupValid(gs[i]).None?
    ensures r.Some? ==>
      exists i :: && 0 <= i < |gs|
                  && GroupValid(gs[i]) == r
                  && forall j :: 0 <= j < i ==> GroupValid(gs[j]).None?
  {
    if |gs| == 0 then None
    else if GroupValid(gs[0]).Some? then GroupValid(gs[0])
    else
      var rest := FirstGroupError(gs[1..]);
      assert forall i :: 1 <= i < |gs| ==> gs[i] == gs[1..][i - 1];
      rest
  }

  /** MetricOption.GroupingValid: at least one bucket, and every bucket
      valid; the first invalid bucket decides the error. */
  function GroupingValid(m: MetricOption): (r: Option<MetricError>)
    ensures |m.Groups()| == 0 ==> r == Some(EmptyGrouping)
    ensures r.None? <==> |m.Groups()| > 0 && forall i :: 0 <= i < |m.Groups()| ==> GroupValid(m.Groups()[i]).None?
    ensures |m.Groups()| > 0 && r.Some? ==>
      exists i :: && 0 <= i < |m.Groups()|
                  && GroupValid(m.Groups()[i]) == r
                  && forall j :: 0 <= j < i ==> GroupValid(m.Groups()[j]).None?
  {
    if |m.Groups()| == 0 then Some(EmptyGrouping) else FirstGroupError(m.Groups())
  }

  /** The outcomes conf/metrics_test.go lists for GroupingValid. */
  lemma GroupingValidExamples()
    ensures GroupingValid(MetricOption("", "", Some([]))) == Some(EmptyGrouping)
    ensures GroupingValid(MetricOption("", "", Some([MetricGroup("tst", 0, 1)]))) == Some(InvalidGroupUnit)
    ensures GroupingValid(MetricOption("", "", Some([MetricGroup("day", 1, 3)]))) == Some(InvalidGroupUnit)
    ensures GroupingValid(MetricOption("", "", Some([MetricGroup("minute", 1, 0)]))) == Some(FromGreaterThanTo)
    ensures GroupingValid(MetricOption("", "", Some([MetricGroup("minute", 3, 3)]))) == Some(FromEqualToTo)
    ensures GroupingValid(MetricOption("", "", Some([MetricGroup("minute", 2, 3), MetricGroup("day", 0, 0)])))
            == Some(InvalidGroupUnit)
    ensures GroupingValid(MetricOption("", "", Some([MetricGroup("hour", 0, 1)]))) == None
  {
    var two := [MetricGroup("minute", 2, 3), MetricGroup("day", 0, 0)];
    assert GroupValid(two[0]).None?;
    assert two[1..] == [MetricGroup("day", 0, 0)];
  }

  /** The "<from>-<to>" part of a bucket's label. */
  function RangeLabel(g: MetricGroup): string {
    IntToString(g.from) + "-" + IntToString(g.to)
  }

  /** The unit part of a bucket's label, plural when `to` exceeds one. */
  function UnitLabel(g: MetricGroup): string {
    g.unit + (if g.to > 1 then "s" else "")
  }

  /** MetricGroup.DisplayName, as conf/metrics_test.go pins it down: the
      range, a space, then the unit. */
  function DisplayName(g: MetricGroup): (r: string)
    ensures RangeLabel(g) + " " <= r
  {
    RangeLabel(g) + " " + UnitLabel(g)
  }

  /** The label names the unit in the plural exactly when `to` is above one. */
  lemma DisplayNamePlural(g: MetricGroup)
    requires GroupUnitValid(g.unit)
    ensures var r := DisplayName(g);
      r[|r| - 1] == 's' <==> g.to > 1
  {
    var r := DisplayName(g);
    if g.to <= 1 {
      assert r[|r| - 1] == g.unit[|g.unit| - 1];
    }
  }

  /** Reading a label back: splitting at the space gives the range and the
      unit, and splitting the range at the dash gives back both bounds. */
  lemma DisplayNameReadsBack(g: MetricGroup)
    requires g.from >= 0 && g.to >= 0
    requires ' ' !in g.unit
    ensures var parts := Split(DisplayName(g), ' ');
      && parts == [RangeLabel(g), UnitLabel(g)]
      && var bounds := Split(parts[0], '-');
      && |bounds| == 2
      && IsDecimal(bounds[0]) && ParseInt(bounds[0]) == g.from
      && IsDecimal(bounds[1]) && ParseInt(bounds[1]) == g.to
  {
    var from, to := IntToString(g.from), IntToString(g.to);
    assert ' ' !in UnitLabel(g);
    SplitPrefix(RangeLabel(g), ' ', UnitLabel(g));
    SplitNoSeparator(UnitLabel(g), ' ');
    assert DisplayName(g) == RangeLabel(g) + [' '] + UnitLabel(g);
    assert AllDigits(from) && AllDigits(to);
    assert '-' !in from && '-' !in to;
    SplitPrefix(from, '-', to);
    SplitNoSeparator(to, '-');
    assert RangeLabel(g) == from + ['-'] + to;
    ParseIntToString(g.from);
    ParseIntToString(g.to);
  }

  /** The decimal renderings the label examples use. */
  lemma LabelNumerals()
    ensures IntToString(0) == "0" && IntToString(1) == "1" && IntToString(2) == "2"
    ensures IntToString(5) == "5" && IntToString(60) == "60" && IntToString(120) == "120"
  {
    assert DigitChar(0) == '0' && DigitChar(1) == '1' && DigitChar(2) == '2';
    assert DigitChar(5) == '5' && DigitChar(6) == '6';
    assert NatToString(60) == NatToString(6) + [DigitChar(0)] == "60";
    assert NatToString(12) == NatToString(1) + [DigitChar(2)] == "12";
    assert NatToString(120) == NatToString(12) + [DigitChar(0)] == "120";
  }

  /** The labels conf/metrics_test.go lists. */
  lemma DisplayNameExamples()
    ensures DisplayName(MetricGroup("hour", 0, 1)) == "0-1 hour"
    ensures DisplayName(MetricGroup("hour", 1, 2)) == "1-2 hours"
    ensures DisplayName(MetricGroup("hour", 1, 5)) == "1-5 hours"
    ensures DisplayName(MetricGroup("minute", 0, 1)) == "0-1 minute"
    ensures DisplayName(MetricGroup("minute", 0, 2)) == "0-2 minutes"
    ensures DisplayName(MetricGroup("minute", 60, 120)) == "60-120 minutes"
  {
    HourLabels();
    MinuteLabels();
  }

  lemma HourLabels()
    ensures DisplayName(MetricGroup("hour", 0, 1)) == "0-1 hour"
    ensures DisplayName(MetricGroup("hour", 1, 2)) == "1-2 hours"
    ensures DisplayName(MetricGroup("hour", 1, 5)) == "1-5 hours"
  {
    LabelNumerals();
  }

  lemma MinuteLabels()
    ensures DisplayName(MetricGroup("minute", 0, 1)) == "0-1 minute"
    ensures DisplayName(MetricGroup("minute", 0, 2)) == "0-2 minutes"
    ensures DisplayName(MetricGroup("minute", 60, 120)) == "60-120 minutes"
  {
    LabelNumerals();
  }
}
