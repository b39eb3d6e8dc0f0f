/** The configuration records (conf/config.go): credentials for the
    ticketing API, where to push datasets, and the list of reports. */
module ConfConfig {
  import opened ConfSearchFilter
  import opened ConfMetrics

  /** Where and with which key datasets are pushed. */
  datatype Geckoboard = Geckoboard(apiKey: string, url: string)

  /** Credentials of the ticketing API account: a password or an API token. */
  datatype Auth = Auth(email: string, password: string, apiKey: string, subdomain: string)

  /** How a ticket-count report is split: `key` names a multi-value search
      constraint whose values become the rows; `name` labels the column. */
  datatype GroupBy = GroupBy(key: string, name: string) {
    /** GroupBy.DisplayName: the configured name, falling back to the key
        when no name was given. */
    function DisplayName(): (r: string)
      ensures name != "" ==> r == name
      ensures name == "" ==> r == key
      ensures r != "" <==> name != "" || key != ""
    {
      if name == "" && key != "" then key else name
    }
  }

  /** One dashboard dataset: `name` selects how it is computed. The metric
      options are read by the detailed-metrics report. */
  datatype Report = Report(
    name: string,
    dataSet: string,
    groupBy: GroupBy,
    filter: SearchFilter,
    metricOptions: MetricOption)

  datatype Zendesk = Zendesk(auth: Auth, reports: seq<Report>)

  datatype Config = Config(geckoboard: Geckoboard, zendesk: Zendesk)
}
