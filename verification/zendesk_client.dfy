/** The pure parts of the ticketing-API client (zendesk/client.go): where a
    request goes, which credentials it carries, how result pages are
    followed and accumulated, and how ticket ids are passed on. Each HTTP
    exchange is an input: a transcript of page responses in request order. */
module ZendeskClient {
  import opened Results
  import opened Strings
  import opened ConfConfig

  const Scheme: string := "https"
  const BasePath: string := "/api/v2"
  const SearchPath: string := "/search.json"
  const TicketsPath: string := "/tickets/show_many.json"

  /** The endpoint below the API's base path, the search text, and the
      extra parameters that are not part of the search text. */
  datatype Query = Query(endpoint: string, params: string, extraParams: map<string, string>)

  /** A request target before query encoding. */
  datatype Url = Url(scheme: string, host: string, path: string, search: string, extraParams: map<string, string>)

  /** Client.buildURL: the account's host and the endpoint under the base
      path; an empty endpoint is refused. */
  function BuildURL(auth: Auth, q: Query): (r: Result<Url, string>)
    ensures q.endpoint == "" <==> r == Failure("Endpoint is required to build url")
    ensures r.Success? ==>
      && r.value.scheme == Scheme
      && r.value.host == auth.subdomain + ".zendesk.com"
      && BasePath <= r.value.path
      && r.value.path[|BasePath|..] == q.endpoint
      && r.value.search == q.params
      && r.value.extraParams == q.extraParams
  {
    if q.endpoint == "" then Failure("Endpoint is required to build url")
    else Success(Url(Scheme, auth.subdomain + ".zendesk.com", BasePath + q.endpoint, q.params, q.extraParams))
  }

  /** The user name and secret of HTTP basic authentication. */
  datatype Credentials = Credentials(user: string, secret: string)

  /** Client.buildRequest's choice: the password when one is configured,
      otherwise the API token under the user name "<email>/token". */
  function RequestCredentials(auth: Auth): (r: Credentials)
    ensures auth.password != "" ==> r == Credentials(auth.email, auth.password)
    ensures auth.password == "" ==> r.secret == auth.apiKey
    ensures auth.password == "" ==> |r.user| == |auth.email| + 6
    ensures auth.password == "" ==> r.user[..|auth.email|] == auth.email && r.user[|auth.email|..] == "/token"
  {
    if auth.password != "" then Credentials(auth.email, auth.password)
    else Credentials(auth.email + "/token", auth.apiKey)
  }

  /** The e-mail address is always recovered from the user name, whichever
      secret is sent. */
  lemma CredentialsNameTheAccount(auth: Auth)
    ensures var c := RequestCredentials(auth);
      auth.email <= c.user
      && (c.secret == auth.password || c.secret == auth.apiKey)
      && (c.user == auth.email <==> auth.password != "")
  {
    var c := RequestCredentials(auth);
    if auth.password == "" {
      assert |c.user| != |auth.email|;
    }
  }

  /** The two of a metric's minute counts. */
  datatype SubTimeMetric = SubTimeMetric(business: int, calendar: int)

  /** The metric set the API sideloads with a ticket. */
  datatype MetricSet = MetricSet(replyTime: SubTimeMetric, fullResolutionTime: SubTimeMetric)

  datatype Ticket = Ticket(id: int, tags: seq<string>, metrics: MetricSet)

  /** One decoded response page: its tickets, the server's count, and the
      address of the next page ("" on the last page). */
  datatype TicketPage = TicketPage(tickets: seq<Ticket>, count: int, nextPage: string)

  /** The outcome of one request: a decoded page, or the error of building,
      sending or decoding it. */
  type PageResponse = Result<TicketPage, string>

  /** The responses to a request and to every next-page request after it;
      the first request is always answered, if only by an error. */
  type Transcript = pages: seq<PageResponse> | |pages| > 0 witness [Failure("no response")]

  /** The response ends the page loop: an error, or a page with no successor. */
  predicate Final(p: PageResponse) {
    p.Failure? || p.value.nextPage == ""
  }

  /** Following next-page links through the transcript stops within it. */
  predicate Terminated(pages: seq<PageResponse>) {
    exists n :: 0 <= n < |pages| && Final(pages[n])
  }

  /** The position of the first response that ends the page loop. */
  function FirstFinal(pages: seq<PageResponse>): (n: nat)
    requires Terminated(pages)
    ensures n < |pages| && Final(pages[n])
    ensures forall i :: 0 <= i < n ==> !Final(pages[i])
    decreases |pages|
  {
    if Final(pages[0]) then 0
    else
      assert Terminated(pages[1..]) by {
        var n :| 0 <= n < |pages| && Final(pages[n]);
        assert pages[1..][n - 1] == pages[n];
      }
      var k := FirstFinal(pages[1..]);
      assert forall i :: 1 <= i <= k ==> pages[i] == pages[1..][i - 1];
      1 + k
  }

  /** The tickets of the first `n` pages, in page order. */
  function TicketsOf(pages: seq<PageResponse>, n: nat): (r: seq<Ticket>)
    requires n <= |pages|
    requires forall i :: 0 <= i < n ==> pages[i].Success?
    ensures n == 0 ==> r == []
  {
    if n == 0 then [] else TicketsOf(pages, n - 1) + pages[n - 1].value.tickets
  }

  /** What following every next-page link yields: the first error met, or
      every ticket of every page up to the last, with the count of tickets
      collected rather than any count a server reported. */
  function Accumulated(pages: seq<PageResponse>): (r: PageResponse)
    requires Terminated(pages)
    ensures r.Failure? <==> pages[FirstFinal(pages)].Failure?
    ensures r.Failure? ==> r == pages[FirstFinal(pages)]
    ensures r.Success? ==> r.value.count == |r.value.tickets| && r.value.nextPage == ""
  {
    var n := FirstFinal(pages);
    match pages[n]
    case Failure(e) => Failure(e)
    case Success(last) =>
      var ts := TicketsOf(pages, n) + last.tickets;
      Success(TicketPage(ts, |ts|, ""))
  }

  lemma {:induction false} TicketsOfCons(p: TicketPage, rest: seq<PageResponse>, n: nat)
    requires n <= |rest|
    requires forall i :: 0 <= i < n ==> rest[i].Success?
    ensures forall i :: 0 <= i < n + 1 ==> ([Success(p)] + rest)[i].Success?
    ensures TicketsOf([Success(p)] + rest, n + 1) == p.tickets + TicketsOf(rest, n)
  {
    var pages := [Success(p)] + rest;
    forall i | 1 <= i < n + 1
      ensures pages[i].Success?
    {
      assert pages[i] == rest[i - 1];
    }
    if n == 0 {
      assert TicketsOf(pages, 1) == TicketsOf(pages, 0) + pages[0].value.tickets;
    } else {
      TicketsOfCons(p, rest, n - 1);
      assert pages[n] == rest[n - 1];
      var before := TicketsOf(rest, n - 1);
      assert TicketsOf(pages, n + 1) == (p.tickets + before) + rest[n - 1].value.tickets;
      assert TicketsOf(rest, n) == before + rest[n - 1].value.tickets;
    }
  }

  /** Following a link from a page puts that page's tickets in front of
      everything the remaining pages yield; an error further on loses them. */
  lemma AccumulatedCons(p: TicketPage, rest: seq<PageResponse>)
    requires p.nextPage != "" && Terminated(rest)
    ensures Terminated([Success(p)] + rest)
    ensures Accumulated([Success(p)] + rest) ==
      match Accumulated(rest)
      case Failure(e) => Failure(e)
      case Success(q) => Success(TicketPage(p.tickets + q.tickets, |p.tickets| + |q.tickets|, ""))
  {
    var pages := [Success(p)] + rest;
    var n :| 0 <= n < |rest| && Final(rest[n]);
    assert pages[n + 1] == rest[n];
    var k := FirstFinal(rest);
    assert FirstFinal(pages) == k + 1 by {
      assert forall i :: 1 <= i < |pages| ==> pages[i] == rest[i - 1];
      assert Final(pages[k + 1]);
    }
    if rest[k].Success? {
      TicketsOfCons(p, rest, k);
      var last := rest[k].value;
      assert pages[k + 1].value == last;
      var q := TicketsOf(rest, k) + last.tickets;
      assert Accumulated(rest) == Success(TicketPage(q, |q|, ""));
      assert TicketsOf(pages, k + 1) + last.tickets == p.tickets + q;
    }
  }

  /** Client.SearchTickets over a transcript of responses. Without
      pagination the first response is the answer, whatever it says about
      further pages. With pagination the next-page links are followed until
      one is empty, and the tickets of all pages are returned together.
      `requests` is the number of requests sent. */
  method SearchTickets(paginate: bool, pages: seq<PageResponse>) returns (r: PageResponse, requests: nat)
    requires |pages| > 0
    requires paginate ==> Terminated(pages)
    ensures !paginate ==> r == pages[0] && requests == 1
    ensures paginate ==> r == Accumulated(pages)
    ensures paginate ==> requests == FirstFinal(pages) + 1
  {
    if !paginate {
      return pages[0], 1;
    }
    r, requests := FollowPages(pages);
  }

  /** The page loop: request, decode, collect, continue with the next link. */
  method FollowPages(pages: seq<PageResponse>) returns (r: PageResponse, requests: nat)
    requires Terminated(pages)
    ensures r == Accumulated(pages)
    ensures requests == FirstFinal(pages) + 1
  {
    ghost var stop := FirstFinal(pages);
    var tickets: seq<Ticket> := [];
    var i := 0;
    while true
      invariant 0 <= i <= stop
      invariant forall j :: 0 <= j < i ==> pages[j].Success?
      invariant tickets == TicketsOf(pages, i)
      decreases stop - i
    {
      match pages[i]
      case Failure(e) =>
        return Failure(e), i + 1;
      case Success(page) =>
        tickets := tickets + page.tickets;
        if page.nextPage == "" {
          return Success(TicketPage(tickets, |tickets|, "")), i + 1;
        }
        i := i + 1;
    }
  }

  /** The ids of the found tickets as one parameter: in ticket order,
      comma-separated, with no trailing comma. */
  function JoinIds(tickets: seq<Ticket>): (r: string)
    ensures |tickets| == 0 <==> r == ""
    ensures |tickets| > 0 ==> IntToString(tickets[0].id) <= r
  {
    Join(",", IdStrings(tickets))
  }

  function IdStrings(tickets: seq<Ticket>): (r: seq<string>)
    ensures |r| == |tickets|
    ensures forall i :: 0 <= i < |tickets| ==> r[i] == IntToString(tickets[i].id)
  {
    if |tickets| == 0 then [] else [IntToString(tickets[0].id)] + IdStrings(tickets[1..])
  }

  /** The joined parameter reads back as exactly the ticket ids, in order. */
  lemma JoinIdsReadsBack(tickets: seq<Ticket>)
    requires |tickets| > 0
    ensures var parts := Split(JoinIds(tickets), ',');
      && |parts| == |tickets|
      && forall i :: 0 <= i < |tickets| ==> IsDecimal(parts[i]) && ParseInt(parts[i]) == tickets[i].id
  {
    var ids := IdStrings(tickets);
    SplitJoin(ids, ',');
    forall i | 0 <= i < |tickets|
      ensures IsDecimal(ids[i]) && ParseInt(ids[i]) == tickets[i].id
    {
      ParseIntToString(tickets[i].id);
    }
  }

  /** The query TicketMetrics sends after the search: the show-many
      endpoint, the found ids, and the metric sets sideloaded. */
  function MetricsQuery(found: seq<Ticket>): (q: Query)
    ensures q.endpoint == TicketsPath && q.params == ""
    ensures q.extraParams.Keys == {"include", "ids"}
    ensures q.extraParams["include"] == "metric_sets" && q.extraParams["ids"] == JoinIds(found)
  {
    Query(TicketsPath, "", map["include" := "metric_sets", "ids" := JoinIds(found)])
  }

  /** What TicketMetrics yields: the search's error, or the accumulated
      metric pages fetched for the ids the search found. */
  function MetricsOutcome(
    paginate: bool, searchPages: seq<PageResponse>,
    metricPages: seq<Ticket> -> Transcript): (r: PageResponse)
    requires |searchPages| > 0
    requires paginate ==> Terminated(searchPages)
    requires forall found :: Terminated(metricPages(found))
    ensures r.Success? ==> r.value.count == |r.value.tickets|
  {
    var search := if paginate then Accumulated(searchPages) else searchPages[0];
    match search
    case Failure(e) => Failure(e)
    case Success(found) => Accumulated(metricPages(found.tickets))
  }

  /** Client.TicketMetrics: a search, then the show-many request for the ids
      found (`metricPages` gives the responses for those tickets), always
      followed page by page. `idsParam` is the ids parameter sent, when the
      search succeeded. */
  method TicketMetrics(
    paginate: bool, searchPages: seq<PageResponse>,
    metricPages: seq<Ticket> -> Transcript) returns (r: PageResponse, idsParam: Option<string>)
    requires |searchPages| > 0
    requires paginate ==> Terminated(searchPages)
    requires forall found :: Terminated(metricPages(found))
    ensures r == MetricsOutcome(paginate, searchPages, metricPages)
    ensures r.Success? ==> r.value.count == |r.value.tickets|
    ensures idsParam.Some? <==> (if paginate then Accumulated(searchPages) else searchPages[0]).Success?
    ensures idsParam.Some? ==>
      idsParam.value == JoinIds((if paginate then Accumulated(searchPages) else searchPages[0]).value.tickets)
  {
    var search, searchRequests := SearchTickets(paginate, searchPages);
    if search.Failure? {
      return Failure(search.error), None;
    }
    var q := MetricsQuery(search.value.tickets);
    var pages := metricPages(search.value.tickets);
    var metricRequests;
    r, metricRequests := FollowPages(pages);
    idsParam := Some(q.extraParams["ids"]);
  }
}
