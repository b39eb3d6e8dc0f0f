/** The earlier date-constraint validator (models/date_filter.go). It
    checks the same rules in the same order as the conf variant, but its
    relative ranges may also be counted in minutes or hours. */
module ModelsDateFilter {
  import opened Results
  import ConfDateFilter

  type DateFilter = ConfDateFilter.DateFilter
  type DateFilterError = ConfDateFilter.DateFilterError

  /** Every calendar unit is accepted for a relative range here. */
  const ModelsCalendarUnits: seq<ConfDateFilter.CalendarUnit> :=
    [ConfDateFilter.Minute, ConfDateFilter.Hour, ConfDateFilter.Day, ConfDateFilter.Month, ConfDateFilter.Year]

  /** A unit string names one of the five calendar units. */
  predicate KnownUnit(unit: string) {
    ConfDateFilter.ParseCalendarUnit(unit).Some?
  }

  /** DateFilter.Validate of models/date_filter.go. */
  function Validate(df: DateFilter): (r: (DateFilter, Option<DateFilterError>))
    ensures r.0 == ConfDateFilter.DefaultAttribute(df)
    ensures r.1.None? <==> ConfDateFilter.WellFormed(r.0, ModelsCalendarUnits)
    ensures r.1 == Some(ConfDateFilter.InvalidUnit(ModelsCalendarUnits)) <==>
              ConfDateFilter.AttributeValid(r.0) && df.past != 0 && !KnownUnit(df.unit)
              && !(df.custom != "" && df.unit != "")
    ensures ConfDateFilter.AttributeValid(r.0) && df.past != 0 && df.unit in {"minute", "hour"} && df.custom == ""
            ==> r.1 == None
  {
    ConfDateFilter.ValidateWithUnits(df, ModelsCalendarUnits)
  }

  /** The two validators disagree on acceptance exactly for a relative
      range in minutes or hours; whatever the conf variant accepts this
      one accepts too, and every error other than the unit error (whose
      text lists the accepted units) is the same in both. */
  lemma VariantsDifferOnlyOnShortUnits(df: DateFilter)
    ensures var c := ConfDateFilter.Validate(df).1;
      var m := Validate(df).1;
      && (c.None? ==> m.None?)
      && (c.None? != m.None? <==>
            && ConfDateFilter.AttributeValid(ConfDateFilter.DefaultAttribute(df))
            && df.custom == "" && df.past != 0 && df.unit in {"minute", "hour"})
      && (c.Some? && !c.value.InvalidUnit? ==> m == c)
  {
  }
}
