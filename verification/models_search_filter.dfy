/** The earlier search-constraint validator (models/search_filter.go): the
    same checks and messages as the conf variant, with the five-unit date
    validator. It has no query builder. */
module ModelsSearchFilter {
  import opened Results
  import ConfDateFilter
  import ConfSearchFilter
  import ModelsDateFilter

  type SearchFilter = ConfSearchFilter.SearchFilter
  type SearchFilterError = ConfSearchFilter.SearchFilterError

  /** SearchFilter.Validate of models/search_filter.go: the type becomes
      "ticket"; the first failing date constraint decides the error; else
      every key/value problem is reported in one text. */
  function Validate(sf: SearchFilter, valueOrder: seq<string>, valuesOrder: seq<string>)
    : (r: (SearchFilter, Option<SearchFilterError>))
    requires ConfSearchFilter.IsEnumeration(valueOrder, sf.value.Keys)
    requires ConfSearchFilter.IsEnumeration(valuesOrder, sf.values.Keys)
    ensures r.0.searchType == ConfSearchFilter.DefaultType
    ensures r.0.dateRange == sf.dateRange && r.0.value == sf.value && r.0.values == sf.values
    ensures (exists i :: 0 <= i < |sf.dateRange| && ModelsDateFilter.Validate(sf.dateRange[i]).1.Some?)
            ==> r.1.Some? && r.1.value.DateRangeInvalid?
    ensures ConfSearchFilter.FirstDateError(sf.dateRange, ModelsDateFilter.ModelsCalendarUnits).Some? ==>
              r.1 == Some(ConfSearchFilter.DateRangeInvalid(
                ConfSearchFilter.FirstDateError(sf.dateRange, ModelsDateFilter.ModelsCalendarUnits).value))
    ensures ConfSearchFilter.FirstDateError(sf.dateRange, ModelsDateFilter.ModelsCalendarUnits).None? ==>
              r.1 == ConfSearchFilter.KeyValuesOutcome(sf, valueOrder, valuesOrder)
    ensures r.1.None? <==>
              (forall i :: 0 <= i < |sf.dateRange| ==> ModelsDateFilter.Validate(sf.dateRange[i]).1.None?)
              && ConfSearchFilter.EntriesValid(sf.value, sf.values)
  {
    ConfSearchFilter.ValidateWithUnits(sf, ModelsDateFilter.ModelsCalendarUnits, valueOrder, valuesOrder)
  }

  /** The key/value checks are the conf variant's: the two validators can
      only disagree through a date constraint. */
  lemma SameKeyValueChecks(sf: SearchFilter, valueOrder: seq<string>, valuesOrder: seq<string>)
    requires ConfSearchFilter.IsEnumeration(valueOrder, sf.value.Keys)
    requires ConfSearchFilter.IsEnumeration(valuesOrder, sf.values.Keys)
    requires forall i :: 0 <= i < |sf.dateRange| ==> ConfDateFilter.Validate(sf.dateRange[i]).1.None?
    ensures Validate(sf, valueOrder, valuesOrder) == ConfSearchFilter.Validate(sf, valueOrder, valuesOrder)
  {
    forall i | 0 <= i < |sf.dateRange|
      ensures ConfDateFilter.ValidateWithUnits(sf.dateRange[i], ModelsDateFilter.ModelsCalendarUnits).1.None?
    {
      ModelsDateFilter.VariantsDifferOnlyOnShortUnits(sf.dateRange[i]);
    }
    assert ConfSearchFilter.FirstDateError(sf.dateRange, ModelsDateFilter.ModelsCalendarUnits).None?;
    assert ConfSearchFilter.FirstDateError(sf.dateRange, ConfDateFilter.ValidCalendarUnits).None?;
  }
}
