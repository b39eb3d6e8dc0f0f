/** Report computation (zendesk/reports.go): every configured report is
    dispatched by name, and a ticket-count or detailed-metrics dataset is
    computed from the search and metric responses. The responses, the
    reference date and the metric selector come from the environment. */
module ZendeskReports {
  import opened Results
  import opened CalendarDates
  import opened ConfSearchFilter
  import opened ConfMetrics
  import opened ConfConfig
  import opened ZendeskClient

  const TicketCountsReport: string := "ticket_counts"
  const DetailedMetricsReport: string := "detailed_metrics"

  /** What a report run sees of the outside world: the reference date and
      date arithmetic, the responses to every search text, the responses to
      the show-many request for a list of tickets, and the per-attribute
      metric of a ticket. */
  datatype Env = Env(
    now: Date,
    addDate: AddDate,
    search: string -> Transcript,
    metricPages: seq<Ticket> -> Transcript,
    subTimeMetric: (Ticket, MetricAttribute) -> SubTimeMetric)

  /** Every request sequence the API can answer ends within its transcript. */
  ghost predicate Answers(env: Env) {
    && (forall q :: Terminated(env.search(q)))
    && (forall ts :: Terminated(env.metricPages(ts)))
  }

  datatype CountRow = CountRow(groupedBy: string, ticketCount: int)

  datatype MetricRow = MetricRow(grouping: string, count: int)

  /** The dataset a report pushes: its id, and for ticket counts the label
      of the grouping column. */
  datatype Dataset =
    | CountDataset(id: string, groupedByName: string, countRows: seq<CountRow>)
    | MetricDataset(id: string, metricRows: seq<MetricRow>)

  /** The filter of one group's search: the grouping key holds exactly the
      one value; every other part of the filter is unchanged. */
  function WithGroupValue(f: SearchFilter, key: string, v: string): (r: SearchFilter)
    ensures r.values.Keys == f.values.Keys + {key}
    ensures r.values[key] == [v]
    ensures forall k :: k in f.values && k != key ==> r.values[k] == f.values[k]
    ensures r.searchType == f.searchType && r.dateRange == f.dateRange && r.value == f.value
  {
    f.(values := f.values[key := [v]])
  }

  /** The ticket count of a non-paginated search: the first page's count
      as the server reports it. */
  function SearchCount(q: string, env: Env): (r: Result<int, string>)
    ensures r.Success? <==> env.search(q)[0].Success?
    ensures r.Success? ==> r.value == env.search(q)[0].value.count
  {
    match env.search(q)[0]
    case Success(page) => Success(page.count)
    case Failure(e) => Failure(e)
  }

  function GroupQuery(f: SearchFilter, key: string, v: string, env: Env): string {
    BuildQuery(WithGroupValue(f, key, v), env.now, env.addDate)
  }

  /** The count of one group's search: the filter narrowed to the value. */
  function GroupCount(f: SearchFilter, key: string, v: string, env: Env): Result<int, string>
  {
    SearchCount(GroupQuery(f, key, v, env), env)
  }

  /** Counts the values one by one, without the environment. */
  function CountEach(vs: seq<string>, counts: seq<Result<int, string>>): (r: Result<seq<CountRow>, string>)
    requires |counts| == |vs|
    ensures r.Success? <==> forall i :: 0 <= i < |vs| ==> counts[i].Success?
    ensures r.Success? ==> |r.value| == |vs|
    ensures r.Success? ==> forall i :: 0 <= i < |vs| ==> r.value[i] == CountRow(vs[i], counts[i].value)
    ensures r.Failure? ==>
      exists i :: 0 <= i < |vs| && counts[i] == Failure(r.error) && forall j :: 0 <= j < i ==> counts[j].Success?
  {
    if |vs| == 0 then Success([])
    else if counts[0].Failure? then Failure(counts[0].error)
    else
      var rest := CountEach(vs[1..], counts[1..]);
      assert forall i :: 1 <= i < |vs| ==> vs[i] == vs[1..][i - 1] && counts[i] == counts[1..][i - 1];
      if rest.Failure? then
        var i :| 0 <= i < |vs| - 1 && counts[1..][i] == Failure(rest.error)
                 && forall j :: 0 <= j < i ==> counts[1..][j].Success?;
        assert counts[i + 1] == Failure(rest.error) && forall j :: 0 <= j < i + 1 ==> counts[j].Success?;
        Failure(rest.error)
      else
        var rows := [CountRow(vs[0], counts[0].value)] + rest.value;
        assert forall i :: 1 <= i < |vs| ==> rows[i] == rest.value[i - 1];
        Success(rows)
  }

  function GroupCounts(f: SearchFilter, key: string, vs: seq<string>, env: Env): (r: seq<Result<int, string>>)
    ensures |r| == |vs|
    ensures forall i :: 0 <= i < |vs| ==> r[i] == GroupCount(f, key, vs[i], env)
  {
    seq(|vs|, i requires 0 <= i < |vs| => GroupCount(f, key, vs[i], env))
  }

  /** One search per group value, in order; the first failing search ends
      the report. */
  function CountGroups(f: SearchFilter, key: string, vs: seq<string>, env: Env): (r: Result<seq<CountRow>, string>)
    ensures r.Success? <==> forall i :: 0 <= i < |vs| ==> GroupCount(f, key, vs[i], env).Success?
    ensures r.Success? ==> |r.value| == |vs|
    ensures r.Success? ==> forall i :: 0 <= i < |vs| ==>
      r.value[i] == CountRow(vs[i], GroupCount(f, key, vs[i], env).value)
    ensures r.Failure? ==>
      exists i :: && 0 <= i < |vs| && GroupCount(f, key, vs[i], env) == Failure(r.error)
                  && forall j :: 0 <= j < i ==> GroupCount(f, key, vs[j], env).Success?
  {
    CountEach(vs, GroupCounts(f, key, vs, env))
  }

  function NoGroupValues(key: string): string {
    "Group by values key '" + key + "' returned no values to group by"
  }

  /** The values a report is grouped by; a missing key has none. */
  function GroupValues(rep: Report): seq<string> {
    if rep.groupBy.key in rep.filter.values then rep.filter.values[rep.groupBy.key] else []
  }

  /** The grouped branch of ticketCount: one row per value of the key, in
      the order the filter lists them, each counted with the key narrowed to
      that value; the first failed search is the outcome. */
  function KeyedTicketCount(rep: Report, env: Env): (r: Result<Dataset, string>)
    requires rep.groupBy.key != ""
    ensures r.Success? <==> forall i :: 0 <= i < |GroupValues(rep)| ==>
              GroupCount(rep.filter, rep.groupBy.key, GroupValues(rep)[i], env).Success?
    ensures r.Failure? ==>
      exists i :: && 0 <= i < |GroupValues(rep)|
                  && GroupCount(rep.filter, rep.groupBy.key, GroupValues(rep)[i], env) == Failure(r.error)
                  && forall j :: 0 <= j < i ==> GroupCount(rep.filter, rep.groupBy.key, GroupValues(rep)[j], env).Success?
    ensures r.Success? ==>
      && r.value.CountDataset? && r.value.id == rep.dataSet
      && r.value.groupedByName == rep.groupBy.DisplayName()
      && |r.value.countRows| == |GroupValues(rep)|
      && forall i :: 0 <= i < |GroupValues(rep)| ==>
           r.value.countRows[i] ==
             CountRow(GroupValues(rep)[i], GroupCount(rep.filter, rep.groupBy.key, GroupValues(rep)[i], env).value)
  {
    match CountGroups(rep.filter, rep.groupBy.key, GroupValues(rep), env)
    case Failure(e) => Failure(e)
    case Success(rows) => Success(CountDataset(rep.dataSet, rep.groupBy.DisplayName(), rows))
  }

  /** ticketCount: with a group-by key, the grouped counts, refused when the
      filter lists no value for the key; without one, a single row "All"
      counting the whole filter. */
  function TicketCount(rep: Report, env: Env): (r: Result<Dataset, string>)
    ensures rep.groupBy.key != "" && |GroupValues(rep)| == 0 ==> r == Failure(NoGroupValues(rep.groupBy.key))
    ensures rep.groupBy.key != "" && |GroupValues(rep)| > 0 ==> r == KeyedTicketCount(rep, env)
    ensures rep.groupBy.key == "" ==>
      match SearchCount(BuildQuery(rep.filter, env.now, env.addDate), env)
      case Failure(e) => r == Failure(e)
      case Success(n) => r == Success(CountDataset(rep.dataSet, "All", [CountRow("All", n)]))
  {
    var key := rep.groupBy.key;
    if key != "" then
      if |GroupValues(rep)| == 0 then Failure(NoGroupValues(key))
      else KeyedTicketCount(rep, env)
    else
      var named := rep.groupBy.(name := "All");
      match SearchCount(BuildQuery(rep.filter, env.now, env.addDate), env)
      case Failure(e) => Failure(e)
      case Success(n) => Success(CountDataset(rep.dataSet, named.DisplayName(), [CountRow(named.name, n)]))
  }

  /** The minutes a ticket is bucketed by: the selected metric's business
      or calendar count. */
  function SelectedMinutes(t: Ticket, attr: MetricAttribute, unit: MetricSubMetric, env: Env): int {
    match unit
    case Business => env.subTimeMetric(t, attr).business
    case Calendar => env.subTimeMetric(t, attr).calendar
  }

  function Minutes(ts: seq<Ticket>, attr: MetricAttribute, unit: MetricSubMetric, env: Env): (r: seq<int>)
    ensures |r| == |ts|
    ensures forall i :: 0 <= i < |ts| ==> r[i] == SelectedMinutes(ts[i], attr, unit, env)
  {
    if |ts| == 0 then [] else [SelectedMinutes(ts[0], attr, unit, env)] + Minutes(ts[1..], attr, unit, env)
  }

  /** How many of the minute counts lie in the half-open range [lo, hi). */
  function CountInRange(ms: seq<int>, lo: int, hi: int): (r: nat)
    ensures r <= |ms|
    ensures hi <= lo ==> r == 0
  {
    if |ms| == 0 then 0
    else CountInRange(ms[..|ms| - 1], lo, hi) + (if lo <= ms[|ms| - 1] < hi then 1 else 0)
  }

  /** The positions whose count lies in [lo, hi): an independent statement
      of what a bucket counts. */
  function Matching(ms: seq<int>, lo: int, hi: int): set<nat> {
    set i: nat | i < |ms| && lo <= ms[i] < hi
  }

  /** The counting fold counts exactly the matching positions. */
  lemma {:induction false} CountInRangeIsMatching(ms: seq<int>, lo: int, hi: int)
    ensures CountInRange(ms, lo, hi) == |Matching(ms, lo, hi)|
    decreases |ms|
  {
    if |ms| > 0 {
      var n := |ms| - 1;
      CountInRangeIsMatching(ms[..n], lo, hi);
      MatchingSnoc(ms, lo, hi);
    }
  }

  /** The last position is matched or not on its own; the others match as
      they did without it. */
  lemma MatchingSnoc(ms: seq<int>, lo: int, hi: int)
    requires |ms| > 0
    ensures var n := |ms| - 1;
      |Matching(ms, lo, hi)| == |Matching(ms[..n], lo, hi)| + (if lo <= ms[n] < hi then 1 else 0)
  {
    var n := |ms| - 1;
    var init := ms[..n];
    var before := Matching(init, lo, hi);
    var last: set<nat> := if lo <= ms[n] < hi then {n} else {};
    var all := Matching(ms, lo, hi);
    forall i: nat | i in all
      ensures i in before + last
    {
      if i < n {
        assert ms[i] == init[i];
      }
    }
    forall i: nat | i in before + last
      ensures i in all
    {
      if i < n {
        assert ms[i] == init[i];
      }
    }
    assert all == before + last;
    assert n !in before;
    assert before !! last;
  }

  lemma {:induction false} CountInRangeAppend(a: seq<int>, b: seq<int>, lo: int, hi: int)
    ensures CountInRange(a + b, lo, hi) == CountInRange(a, lo, hi) + CountInRange(b, lo, hi)
    decreases |b|
  {
    if |b| == 0 {
      assert a + b == a;
    } else {
      var n := |b| - 1;
      assert (a + b)[..|a + b| - 1] == a + b[..n];
      CountInRangeAppend(a, b[..n], lo, hi);
    }
  }

  /** Adjacent buckets share no ticket and miss none: counting [lo, mid)
      and [mid, hi) separately gives the count of [lo, hi). */
  lemma {:induction false} CountInRangeSplit(ms: seq<int>, lo: int, mid: int, hi: int)
    requires lo <= mid <= hi
    ensures CountInRange(ms, lo, hi) == CountInRange(ms, lo, mid) + CountInRange(ms, mid, hi)
    decreases |ms|
  {
    if |ms| > 0 {
      CountInRangeSplit(ms[..|ms| - 1], lo, mid, hi);
    }
  }

  /** A ticket exactly at a bucket's start is counted in it and one exactly
      at its end is not. */
  lemma BucketIsHalfOpen(g: MetricGroup)
    requires GroupValid(g).None?
    ensures CountInRange([FromInMinutes(g)], FromInMinutes(g), ToInMinutes(g)) == 1
    ensures CountInRange([ToInMinutes(g)], FromInMinutes(g), ToInMinutes(g)) == 0
  {
    ValidGroupIsNonEmptyRange(g);
    assert [FromInMinutes(g)][..0] == [];
    assert [ToInMinutes(g)][..0] == [];
  }

  /** One row per bucket, in declaration order, labelled with the bucket's
      display name and holding the number of tickets inside it. */
  function MetricRows(gs: seq<MetricGroup>, ms: seq<int>): (r: seq<MetricRow>)
    ensures |r| == |gs|
    ensures forall i :: 0 <= i < |gs| ==>
      r[i] == MetricRow(DisplayName(gs[i]), CountInRange(ms, FromInMinutes(gs[i]), ToInMinutes(gs[i])))
  {
    if |gs| == 0 then []
    else
      var row := MetricRow(DisplayName(gs[0]), CountInRange(ms, FromInMinutes(gs[0]), ToInMinutes(gs[0])));
      [row] + MetricRows(gs[1..], ms)
  }

  /** Every valid bucket is a non-empty range whose count is the number of
      matching tickets. */
  lemma BucketsCountMatching(gs: seq<MetricGroup>, ms: seq<int>)
    requires forall i :: 0 <= i < |gs| ==> GroupValid(gs[i]).None?
    ensures forall i :: 0 <= i < |gs| ==>
      && FromInMinutes(gs[i]) < ToInMinutes(gs[i])
      && CountInRange(ms, FromInMinutes(gs[i]), ToInMinutes(gs[i])) == |Matching(ms, FromInMinutes(gs[i]), ToInMinutes(gs[i]))|
  {
    forall i | 0 <= i < |gs|
      ensures FromInMinutes(gs[i]) < ToInMinutes(gs[i])
      ensures CountInRange(ms, FromInMinutes(gs[i]), ToInMinutes(gs[i]))
              == |Matching(ms, FromInMinutes(gs[i]), ToInMinutes(gs[i]))|
    {
      ValidGroupIsNonEmptyRange(gs[i]);
      CountInRangeIsMatching(ms, FromInMinutes(gs[i]), ToInMinutes(gs[i]));
    }
  }

  /** Row i names bucket i and counts the metric values that fall in it,
      and every bucket is a non-empty range. */
  predicate RowsCountBuckets(rows: seq<MetricRow>, gs: seq<MetricGroup>, ms: seq<int>) {
    && |rows| == |gs|
    && forall i :: 0 <= i < |rows| ==>
         && rows[i].grouping == DisplayName(gs[i])
         && rows[i].count == |Matching(ms, FromInMinutes(gs[i]), ToInMinutes(gs[i]))|
         && FromInMinutes(gs[i]) < ToInMinutes(gs[i])
  }

  /** The rows built for valid buckets count the tickets in each bucket. */
  lemma RowsCountMatching(gs: seq<MetricGroup>, ms: seq<int>)
    requires forall i :: 0 <= i < |gs| ==> GroupValid(gs[i]).None?
    ensures RowsCountBuckets(MetricRows(gs, ms), gs, ms)
  {
    BucketsCountMatching(gs, ms);
  }

  /** The tickets, with their metric sets, that a detailed-metrics report
      fetches for its filter: every page of the search, then every page of
      the show-many request for the ids found. */
  function MetricsFetched(rep: Report, env: Env): (r: PageResponse)
    requires Answers(env)
    ensures r.Success? ==> r.value.count == |r.value.tickets|
  {
    var q := BuildQuery(rep.filter, env.now, env.addDate);
    assert Terminated(env.search(q));
    MetricsOutcome(true, env.search(q), env.metricPages)
  }

  /** detailedMetrics: the options are validated (the option itself, then
      its buckets) before anything is fetched; then the tickets found by
      the filter are counted into each bucket: row i holds the number of
      tickets whose selected minutes lie in [from, to) of bucket i. */
  function DetailedMetrics(rep: Report, env: Env): (r: Result<Dataset, string>)
    requires Answers(env)
    ensures Valid(rep.metricOptions).Some? ==> r == Failure(Valid(rep.metricOptions).value.Message())
    ensures Valid(rep.metricOptions).None? && GroupingValid(rep.metricOptions).Some? ==>
              r == Failure(GroupingValid(rep.metricOptions).value.Message())
    ensures (Valid(rep.metricOptions).None? && GroupingValid(rep.metricOptions).None? &&
             MetricsFetched(rep, env).Failure?) ==> r == Failure(MetricsFetched(rep, env).error)
    ensures (Valid(rep.metricOptions).None? && GroupingValid(rep.metricOptions).None? &&
             MetricsFetched(rep, env).Success?) ==> r.Success?
    ensures r.Success? ==>
      && Valid(rep.metricOptions).None? && GroupingValid(rep.metricOptions).None?
      && MetricsFetched(rep, env).Success?
      && r.value.MetricDataset? && r.value.id == rep.dataSet
      && RowsCountBuckets(r.value.metricRows, rep.metricOptions.Groups(),
                          Minutes(MetricsFetched(rep, env).value.tickets,
                                  ParseMetricAttribute(rep.metricOptions.attribute).value,
                                  ParseMetricSubMetric(rep.metricOptions.unit).value, env))
  {
    var m := rep.metricOptions;
    match Valid(m)
    case Some(e) => Failure(e.Message())
    case None =>
      match GroupingValid(m)
      case Some(e) => Failure(e.Message())
      case None =>
        match MetricsFetched(rep, env)
        case Failure(e) => Failure(e)
        case Success(page) =>
          var attr := ParseMetricAttribute(m.attribute).value;
          var unit := ParseMetricSubMetric(m.unit).value;
          var gs := m.Groups();
          var ms := Minutes(page.tickets, attr, unit, env);
          RowsCountMatching(gs, ms);
          Success(MetricDataset(rep.dataSet, MetricRows(gs, ms)))
  }

  function NotFound(name: string): string {
    "Report name " + name + " was not found"
  }

  /** HandleReports' choice of computation by report name. */
  function Dispatch(rep: Report, env: Env): (r: Result<Dataset, string>)
    requires Answers(env)
    ensures rep.name == TicketCountsReport ==> r == TicketCount(rep, env)
    ensures rep.name == DetailedMetricsReport ==> r == DetailedMetrics(rep, env)
    ensures rep.name !in {TicketCountsReport, DetailedMetricsReport} ==> r == Failure(NotFound(rep.name))
  {
    if rep.name == TicketCountsReport then TicketCount(rep, env)
    else if rep.name == DetailedMetricsReport then DetailedMetrics(rep, env)
    else Failure(NotFound(rep.name))
  }

  /** HandleReports: every report is computed, in order; a failed report
      is reported and the next one is computed all the same. */
  function HandleReports(reports: seq<Report>, env: Env): (r: seq<Result<Dataset, string>>)
    requires Answers(env)
    ensures |r| == |reports|
    ensures forall i :: 0 <= i < |reports| ==> r[i] == Dispatch(reports[i], env)
  {
    if |reports| == 0 then [] else [Dispatch(reports[0], env)] + HandleReports(reports[1..], env)
  }

  /** A report's outcome does not depend on the reports around it. */
  lemma HandleReportsAppend(a: seq<Report>, b: seq<Report>, env: Env)
    requires Answers(env)
    ensures HandleReports(a + b, env) == HandleReports(a, env) + HandleReports(b, env)
  {
    var l, rr := HandleReports(a + b, env), HandleReports(a, env) + HandleReports(b, env);
    assert |l| == |rr|;
    forall i | 0 <= i < |l|
      ensures l[i] == rr[i]
    {
      if i < |a| {
        assert (a + b)[i] == a[i];
      } else {
        assert (a + b)[i] == b[i - |a|];
      }
    }
  }
}
