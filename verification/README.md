# zendesk_dataset in Dafny

A model of the core of `zendesk_dataset`. That program reads a list of
reports from a configuration file, asks the Zendesk ticketing API for
matching tickets, and pushes the resulting datasets to Geckoboard.

The model covers three parts:

- **The search-query language.** Date constraints (`conf/date_filter.go`)
  and key/value search filters (`conf/search_filter.go`) are validated, with
  the source's exact error order and texts. They are then compiled into one
  deterministic query string: keys sorted, values with spaces quoted, no
  trailing space. The earlier validators in `models/` are modelled as the
  same rules with a five-unit date check, and the two variants are related
  by lemmas.
- **Report aggregation.** This covers metric-option and bucket validation
  and the unit-to-minutes conversion (`conf/metrics.go`). It also covers the
  report dispatcher, the group-by fan-out of ticket counts, and the
  half-open bucket histogram of detailed metrics (`zendesk/reports.go`).
- **The pure parts of the API client** (`zendesk/client.go`): URL building,
  the choice of credentials, page accumulation, and the comma-joined ticket
  ids.

## How the model is built

- Every validator is a pure function returning the (possibly defaulted)
  record together with an `Option` of an error datatype. Each error has a
  `Message()` giving the source's exact text.
- Units and attributes stay strings in the records, because the
  configuration may hold anything. Closed datatypes (`CalendarUnit`,
  `DateAttribute`, `MetricAttribute`, `MetricSubMetric`) and their `Parse`
  functions say which strings are known.
- Both date validators share one definition,
  `ConfDateFilter.ValidateWithUnits`, parameterised by the accepted
  relative units. The same holds for the two search-filter validators.
- Go's map iteration order is unspecified. `keyValuesValid` therefore takes
  the two iteration orders as inputs, each required to enumerate the map's
  keys. The multiset of messages is proved independent of the orders.
- `sort.Strings` is modelled by `Ordering.SortedKeys`, which sorts in
  lexicographic order on characters. On Unicode scalar values this agrees
  with Go's bytewise order on UTF-8.
- The clock is a parameter: the reference date `now`. Go's `time.AddDate`
  is also a parameter (`AddDate`). `Format("2006-01-02")` is modelled, with
  a parse-back round trip.
- An HTTP exchange is a transcript: the non-empty sequence of page
  responses the server would give, in request order. `Terminated` states that following
  next-page links stops within the transcript.
- A report run sees an `Env`, which holds:
  - the reference date;
  - the date arithmetic;
  - the transcript for each search text;
  - the transcript of the show-many request for each list of tickets;
  - the metric selector `subTimeMetric`.

## Model

| member | source | states |
|---|---|---|
| CalendarDates.FormatDateRoundTrip | conf/date_filter.go:27 | a date printed in the "2006-01-02" layout parses back to the same date |
| ConfDateFilter.ParseDateAttribute | conf/date_filter.go:22-30 | a string is accepted exactly when it is the name of one of the four date attributes, and the result has that name |
| ConfDateFilter.ParseCalendarUnit | conf/date_filter.go:16-20 | a string is accepted exactly when it names one of the five calendar units |
| ConfDateFilter.DefaultAttribute | conf/date_filter.go:83-87 | an empty attribute becomes "created", a non-empty one is kept, and no other field changes |
| ConfDateFilter.ValidateWithUnits | conf/date_filter.go:43-71 | each error occurs exactly when its rule is the first to fail, in the order attribute, conflict, missing input, missing past, unit, custom operator; no error exactly when the filter is well formed; the attribute comes back defaulted |
| ConfDateFilter.Validate | conf/date_filter.go:31-81 | acceptance is well-formedness over the units day, month and year; a nonzero past in minutes or hours with no custom text is the unit error |
| ConfDateFilter.ShiftDate | conf/date_filter.go:109-122 | day, month and year subtract `past` of that unit through AddDate; any other unit, minute and hour included, returns the reference date unchanged |
| ConfDateFilter.BuildQuery | conf/date_filter.go:124-145 | the fragment is the defaulted attribute followed by the custom text verbatim; otherwise it is the attribute, then `>` (never `>=`), then ten characters that parse back as the shifted date |
| ConfDateFilter.DateRangeQuery | conf/date_filter.go:147-158 | an empty list renders as ""; otherwise the output starts with the first filter's fragment |
| ConfDateFilter.DateRangeQueryAppend | conf/date_filter.go:147-158 | for every list of filters: one filter renders as its own fragment, and two non-empty ranges side by side render as the two texts with one space between them |
| ConfDateFilter.DateRangeQuerySplits | conf/date_filter.go:147-158 | splitting the range text at spaces gives back exactly the fragments in input order, so they are single-space separated with nothing leading or trailing |
| ConfSearchFilter.KeyHasOperator | conf/search_filter.go:88-98 | true exactly when the key's last character is `>`, `:` or `<`; keys ending in `=` are rejected |
| ConfSearchFilter.OperatorMatch | conf/search_filter.go:19 | a one-character string equals one of the five listed operators exactly when it is one of the three one-character ones |
| ConfSearchFilter.KeyMessages | conf/search_filter.go:52-58 | an empty key gives exactly the missing-key text with the printed value; a non-empty key without a final operator gives exactly the missing-operator text with the key and the operator list; no message exactly when the key is non-empty and ends in an operator |
| ConfSearchFilter.ValueEntryMessages | conf/search_filter.go:51-63 | the key's messages (the value printed in the missing-key text) come first, then at most one more; the missing-value text for the key appears exactly when the value is empty; no message exactly when the entry is valid |
| ConfSearchFilter.ValuesEntryMessages | conf/search_filter.go:65-77 | the key's messages (the list printed in brackets) come first, then at most one more; the missing-values text for the key appears exactly when the list is empty; no message exactly when the entry is valid |
| ConfSearchFilter.KeyValuesValid | conf/search_filter.go:48-86 | no error exactly when every entry of both maps is valid; an error text is the single-value messages, then the multi-value messages, concatenated and right-trimmed of newlines, so it is non-empty and does not end in a newline |
| ConfSearchFilter.MessagesCollected | conf/search_filter.go:48-77 | every message of every entry of both maps is among the collected messages, and every collected message is a message of some entry |
| ConfSearchFilter.NoMessagesIffValid | conf/search_filter.go:48-77 | for any iteration orders, no message is collected exactly when every entry is valid |
| ConfSearchFilter.MessagesIndependentOfOrder | conf/search_filter.go:51-77 | any two map iteration orders collect the same multiset of messages |
| ConfSearchFilter.FirstDateError | conf/search_filter.go:31-35 | the error is that of the first failing date constraint in list order; none exactly when all pass |
| ConfSearchFilter.ValidateWithUnits | conf/search_filter.go:28-42 | the type is forced to "ticket" and nothing else changes; the first failing date constraint's error wins over key/value problems; otherwise the error is exactly keyValuesValid's text, if any; the result is valid exactly when every date constraint and every entry is valid |
| ConfSearchFilter.Validate | conf/search_filter.go:28-46 | the type becomes "ticket" even when it held another value; acceptance is well-formedness of every defaulted date constraint over day, month and year, plus validity of every entry; the error is the first failing date constraint's, otherwise exactly keyValuesValid's text |
| ConfSearchFilter.Quote | conf/search_filter.go:131-137 | a value containing a space is wrapped in double quotes; any other value is emitted verbatim |
| ConfSearchFilter.QuoteRoundTrip | conf/search_filter.go:131-137 | a reader that strips the quotes from exactly the values containing a space gets every value back |
| ConfSearchFilter.KeyValuesOutcome | conf/search_filter.go:37-39 | the key/value error is exactly the text keyValuesValid returns, and there is none exactly when every entry is valid |
| ConfSearchFilter.ValuesFragments | conf/search_filter.go:157-169 | one fragment per value, in list order, each the key followed by the quoted value |
| ConfSearchFilter.SingleValueFragments | conf/search_filter.go:120-139 | one fragment per key in the given order, each the key followed by its quoted value |
| ConfSearchFilter.MultiValueGroups | conf/search_filter.go:143-169 | one group of fragments per key in the given order |
| ConfSearchFilter.BuildQuery | conf/search_filter.go:101-118 | the query starts with "type:" and the type, defaulted only when empty, so that "user" is kept; it never ends in a space |
| ConfSearchFilter.ValuesTextJoin | conf/search_filter.go:143-175 | buildValues writes each key's values space-separated, with one space between keys |
| ConfSearchFilter.PrefixIsLeadingFragments | conf/search_filter.go:108-115 | the type, the date range (only when non-empty) and the single values are each written with one space after them |
| ConfSearchFilter.RawQueryShape | conf/search_filter.go:101-175 | before trimming, the buffer is the leading fragments space-joined, a space, then the multi-value fragments space-joined |
| ConfSearchFilter.BuildQueryIsJoinedFragments | conf/search_filter.go:101-175 | when every list is non-empty, the query is the right-trimmed space-join of the fragments in this order: type; dates in list order; single values by ascending key; multi-values by ascending key, each in list order |
| Ordering.SortedKeys | conf/search_filter.go:122-127 | the map's keys, each exactly once, strictly ascending |
| ConfMetrics.ParseMetricAttribute | conf/metrics.go:35-43 | a string is accepted exactly when it names one of the six metric attributes |
| ConfMetrics.ParseMetricSubMetric | conf/metrics.go:45 | a string is accepted exactly when it is "business" or "calendar" |
| ConfMetrics.UnitInMinutes | conf/metrics.go:83-92 | minute maps v to v, hour maps v to 60·v, and any other unit gives -1 |
| ConfMetrics.UnitInMinutesFaithful | conf/metrics.go:71-92 | for minute and hour, the conversion is strictly increasing and dividing by the unit's length gives the count back |
| ConfMetrics.UnitInMinutesExamples | conf/metrics_test.go:5-25 | the five conversions the tests list |
| ConfMetrics.Valid | conf/metrics.go:94-125 | the all-zero option (nil grouping) is the empty-options error, checked first; then an unknown attribute, then an unknown unit; no error exactly when both are known |
| ConfMetrics.ValidIgnoresGrouping | conf/metrics.go:94-125 | the grouping's contents never change the outcome; only its presence matters, and only for an otherwise empty option |
| ConfMetrics.ValidCombinations | conf/metrics.go:103-124 | all twelve attribute and unit combinations are accepted |
| ConfMetrics.ValidExamples | conf/metrics_test.go:27-54 | the error cases the tests list; an empty but present grouping list makes the option non-zero |
| ConfMetrics.GroupValid | conf/metrics.go:144-160 | the unit is checked first (minute or hour); then from > to and from == to give distinct errors; valid exactly when the unit is known and from < to |
| ConfMetrics.FromInMinutes | conf/metrics.go:71-75 | a bucket's start in minutes: from for minute, 60·from for hour, -1 for any other unit |
| ConfMetrics.ToInMinutes | conf/metrics.go:77-81 | a bucket's end in minutes: to for minute, 60·to for hour, -1 for any other unit |
| ConfMetrics.ValidGroupIsNonEmptyRange | conf/metrics.go:73-92 | a valid bucket has FromInMinutes < ToInMinutes |
| ConfMetrics.FirstGroupError | conf/metrics.go:135-141 | the error of the first invalid bucket in declaration order; none exactly when every bucket is valid |
| ConfMetrics.GroupingValid | conf/metrics.go:130-142 | an empty list is the empty-grouping error; otherwise the first invalid bucket decides; no error exactly when the list is non-empty and every bucket is valid |
| ConfMetrics.GroupingValidExamples | conf/metrics_test.go:56-82 | the outcomes the tests list |
| ConfMetrics.DisplayName | conf/metrics_test.go:84-104 | the label begins with "<from>-<to> " |
| ConfMetrics.DisplayNamePlural | conf/metrics_test.go:84-104 | the unit is written in the plural exactly when `to` exceeds one |
| ConfMetrics.DisplayNameReadsBack | conf/metrics_test.go:84-104 | splitting the label at the space and the range at the dash gives back from, to and the unit label |
| ConfMetrics.DisplayNameExamples | conf/metrics_test.go:89-94 | the six labels the tests list |
| ConfConfig.GroupBy.DisplayName | conf/config.go:49-57 | a non-empty name is returned as is; with no name, the key; the result is non-empty exactly when the name or the key is |
| ModelsDateFilter.Validate | models/date_filter.go:40-69 | the same rules in the same order as the conf variant, but minute and hour are accepted units; the unit error occurs exactly when past is nonzero, the unit is unknown and no conflict comes first |
| ModelsDateFilter.VariantsDifferOnlyOnShortUnits | models/date_filter.go:29-69 | whatever conf/date_filter.go accepts this variant accepts too; the two disagree exactly on a relative range in minutes or hours; every error other than the unit error is the same |
| ModelsSearchFilter.Validate | models/search_filter.go:26-84 | the type becomes "ticket"; the first failing date constraint (five units) gives its date error; otherwise the error is exactly keyValuesValid's text; valid exactly when every date constraint and every entry is valid |
| ModelsSearchFilter.SameKeyValueChecks | models/search_filter.go:46-96 | when conf/date_filter.go accepts every date constraint, both search-filter validators give the same outcome |
| ZendeskClient.BuildURL | zendesk/client.go:48-57 | an empty endpoint is refused with "Endpoint is required to build url"; otherwise the scheme is https, the host "<subdomain>.zendesk.com" and the path the endpoint under "/api/v2"; the query part is kept as the unparsed search text and extra parameters |
| ZendeskClient.RequestCredentials | zendesk/client.go:80-94 | (email, password) when a password is set; otherwise (email + "/token", api key) |
| ZendeskClient.CredentialsNameTheAccount | zendesk/client.go:87-91 | the user name always starts with the e-mail, and equals it exactly when a password is used |
| ZendeskClient.FirstFinal | zendesk/client.go:109-134 | the position of the first response that stops the page loop |
| ZendeskClient.Accumulated | zendesk/client.go:109-136 | the first error met, or every page's tickets with a count equal to the number collected |
| ZendeskClient.AccumulatedCons | zendesk/client.go:128-131 | following a link puts that page's tickets in front of what the remaining pages yield |
| ZendeskClient.SearchTickets | zendesk/client.go:100-137 | without pagination, the first response unchanged, including the server's count, after one request; with pagination, the accumulated pages after one request per page up to the last |
| ZendeskClient.FollowPages | zendesk/client.go:109-136 | the page loop returns the accumulated result and sends one request per page up to the first final one |
| ZendeskClient.JoinIds | zendesk/client.go:152-158 | empty exactly when there are no tickets; otherwise it starts with the first id |
| ZendeskClient.JoinIdsReadsBack | zendesk/client.go:152-158 | splitting the joined ids at commas gives exactly the ticket ids in ticket order, so there is no trailing comma |
| ZendeskClient.MetricsQuery | zendesk/client.go:160-166 | the show-many endpoint with `include=metric_sets` and the joined ids |
| ZendeskClient.MetricsOutcome | zendesk/client.go:144-197 | a successful outcome's count is the number of tickets it holds |
| ZendeskClient.TicketMetrics | zendesk/client.go:144-198 | the search's error; or the accumulated show-many pages for the tickets found, after sending exactly their joined ids |
| ZendeskReports.WithGroupValue | zendesk/reports.go:64-67 | the grouping key holds exactly the one value; every other entry and field is unchanged |
| ZendeskReports.SearchCount | zendesk/reports.go:69-74 | a non-paginated search's count is the first page's count as the server reports it |
| ZendeskReports.CountEach | zendesk/reports.go:66-75 | one row per value in order when every count succeeds; otherwise the error of the first failed count, all earlier ones having succeeded |
| ZendeskReports.CountGroups | zendesk/reports.go:66-75 | success exactly when every group's search succeeds; then row i is value i with its group's count; otherwise the error of the first failing group search |
| ZendeskReports.KeyedTicketCount | zendesk/reports.go:58-95 | one row per value of the key in list order, each counted with the key narrowed to that value, labelled with the group-by display name; otherwise the error of the first failing group search |
| ZendeskReports.TicketCount | zendesk/reports.go:48-96 | a key with no values is an error before any search; a key with values gives the grouped counts; no key gives the single row ("All", count) under the name "All" |
| ZendeskReports.Minutes | zendesk/reports.go:125-133 | each ticket's business or calendar minutes of the selected metric, in ticket order |
| ZendeskReports.CountInRange | zendesk/reports.go:125-138 | the count never exceeds the number of tickets and is zero for an empty range |
| ZendeskReports.CountInRangeIsMatching | zendesk/reports.go:135-137 | the count is exactly the number of positions whose minutes m satisfy from ≤ m < to |
| ZendeskReports.CountInRangeAppend | zendesk/reports.go:125-138 | counting over two lists of tickets adds up |
| ZendeskReports.CountInRangeSplit | zendesk/reports.go:135 | adjacent half-open buckets neither share nor miss a ticket |
| ZendeskReports.BucketIsHalfOpen | zendesk/reports.go:135 | a ticket exactly at a valid bucket's start is counted, and one exactly at its end is not |
| ZendeskReports.MetricRows | zendesk/reports.go:121-142 | one row per bucket in order, labelled with its display name and holding its count |
| ZendeskReports.MetricsFetched | zendesk/reports.go:112-118 | a successful fetch's count is the number of tickets it holds |
| ZendeskReports.DetailedMetrics | zendesk/reports.go:98-153 | Valid's error, then GroupingValid's error, both before any fetch; then the fetch's error; valid options with a successful fetch always succeed, with one row per bucket, row i named by bucket i and counting exactly the tickets whose selected minutes lie in [from, to) |
| ZendeskReports.Dispatch | zendesk/reports.go:30-37 | "ticket_counts" and "detailed_metrics" go to their computations; any other name is "Report name … was not found" |
| ZendeskReports.HandleReports | zendesk/reports.go:28-45 | every report is computed in list order, and a failed one does not stop the rest |
| ZendeskReports.HandleReportsAppend | zendesk/reports.go:28-45 | a report's outcome does not depend on the reports around it |

## Left out

- Configuration loading (`LoadConfig` in `conf/config.go` and `models/config.go`) and `main.go`: file I/O and JSON decoding.
- HTTP execution, JSON decoding errors, and `http.NewRequest`. Each exchange appears only as a page response (success or error text) in a transcript.
- ZendeskClient.BuildURL: `url.ParseQuery("query=" + Params)` (`zendesk/client.go:59-66`) is not modelled. It fails on a malformed `%` escape or a `;`, and it decodes `+` and `%XX` and splits at `&` before `q.Encode()` re-encodes. The model keeps the search text and the extra parameters unparsed, so a URL the source refuses is a success here, and the query text sent is not stated.
- `pushToGeckoboard` (`zendesk/reports.go:155-173`) and `geckoboard/dataset.go`: dataset creation and upload over HTTP. A report's result is the dataset it would push; an upload error is not modelled.
- `zendesk/auth.go`: an older duplicate of the credential choice, which the model has once, in `zendesk/client.go`.
- Logging in `HandleReports`, including the "completed successfully" line printed even after a failure.
- The global `timeNow`: the reference date is a parameter.
- Go's `time.AddDate` normalisation (for example, May 31 minus one month) and time zones: the date arithmetic is a parameter. Dates are limited to four-digit years, where the "2006-01-02" layout pads to four digits.
- ConfMetrics.UnitInMinutes: the multiplication by 60 does not wrap at 64 bits as Go's `int` would; the model uses unbounded integers.
- ConfDateFilter.ShiftDate: the negation of `past` does not wrap at `math.MinInt64` as Go's `df.Past * -1` would; the model uses unbounded integers.
- ConfSearchFilter.KeyValuesValid: the order of the messages within each map follows the given iteration orders, because Go leaves that order unspecified. Which messages appear is fixed (MessagesCollected), and how many times each appears does not depend on the orders (MessagesIndependentOfOrder).
- ConfDateFilter.BuildQuery: `conf/search_filter_test.go:152` expects `created>=`, but `conf/date_filter.go:140` writes `>`; the model follows the code.
- ZendeskReports.TicketCount: the source deletes and rewrites the shared `Values` map of the configured report, so the last group's one-value list stays in the configuration after the report. Here each group's filter is a fresh value and the configuration is unchanged.
- ConfConfig.Report: the `conf/config.go` at hand has no `MetricOptions` field, although `zendesk/reports.go` reads it. The model adds it.
- ZendeskClient.Ticket: `subTimeMetric` is not part of this model. The per-attribute metric selector is a parameter, and `MetricSet` keeps only the two fields `zendesk/api.go` shows.
- ConfMetrics.DisplayName: the implementation is not part of this model. The label is specified from `conf/metrics_test.go:84-104`, and its read-back lemma needs non-negative bounds, since a negative bound would put a second dash in the label.
- ConfSearchFilter.BuildQueryIsJoinedFragments: stated for filters whose multi-value lists are all non-empty, as validation demands. An empty list makes the source write an extra space between keys, which only RawQuery describes.
- ZendeskReports.Answers: the paginated reports (detailed metrics) assume every search and show-many transcript ends within itself, because a server that never ends a page chain makes the source loop forever.
