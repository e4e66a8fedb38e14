/** `_iter_worklogs`: fetch one issue's worklogs page by page. The remote
    service is an oracle from (issue key, `startAt`) to what one request
    returns; `_jira_get_json` is reduced to its three outcomes. */
module Paginator {
  import opened Types
  import opened Worklogs

  /** The result of one GET of `/rest/api/{version}/issue/{key}/worklog`. */
  datatype Response =
    | Page(worklogs: seq<Worklog>, total: Option<int>)   // a JSON body; `total` may be absent
    | HttpError(status: int)                              // `HTTPError`, raised as `JiraApiError`
    | NetworkError                                        // `URLError`, raised as `RuntimeError`

  /** What a failed request raises. */
  datatype FetchError = ApiError(status: int) | TransportError

  /** `data.get("total", 0)`. */
  function TotalOf(r: Response): int
    requires r.Page?
  {
    match r.total
    case Some(t) => t
    case None => 0
  }

  /** Every `total` the service reports is at most `b`. */
  ghost predicate Bounded(respond: (string, nat) -> Response, b: nat)
  {
    forall key: string, offset: nat {:trigger respond(key, offset)} ::
      respond(key, offset).Page? ==> TotalOf(respond(key, offset)) <= b
  }

  /** The remote service: a fixed table from (issue key, `startAt`) to the
      response, and a bound on the totals it reports. */
  datatype Server = Server(respond: (string, nat) -> Response, ghost maxTotal: nat)

  /** A server whose reported totals stay within its bound. Against a
      service that keeps reporting ever larger totals beside non-empty pages
      the source loops for ever, which a terminating model cannot express. */
  type Service = s: Server | Bounded(s.respond, s.maxTotal)
    witness Server((key: string, offset: nat) => NetworkError, 0)

  /** What consuming the generator to its end yields: the records in order,
      how many requests were made, and the error that ended it, if any. */
  datatype Drained = Drained(records: seq<Worklog>, calls: nat, error: Option<FetchError>)

  /** `prefix` records and `calls` requests before the rest `d`. */
  function After(prefix: seq<Worklog>, calls: nat, d: Drained): Drained
  {
    Drained(prefix + d.records, calls + d.calls, d.error)
  }

  /** The generator for `key` resumed at offset `startAt`: fetch, emit the
      page, advance by the page's length, stop at `total` or on an empty page;
      a failed request raises after the earlier pages were emitted. */
  function Walk(svc: Service, key: string, startAt: nat): (d: Drained)
    ensures d.calls >= 1
    decreases svc.maxTotal - startAt
  {
    match svc.respond(key, startAt)
    case HttpError(status) => Drained([], 1, Some(ApiError(status)))
    case NetworkError => Drained([], 1, Some(TransportError))
    case Page(worklogs, _) =>
      var next := startAt + |worklogs|;
      if next >= TotalOf(svc.respond(key, startAt)) || |worklogs| == 0 then Drained(worklogs, 1, None)
      else After(worklogs, 1, Walk(svc, key, next))
  }

  /** `_iter_worklogs(...)` consumed to its end (or to the request that
      raised). The loop keeps `startAt` equal to the number of records
      yielded so far. */
  method IterWorklogs(svc: Service, key: string)
    returns (yielded: seq<Worklog>, calls: nat, failure: Option<FetchError>)
    ensures Drained(yielded, calls, failure) == Walk(svc, key, 0)
  {
    var startAt: nat := 0;
    yielded, calls, failure := [], 0, None;
    while true
      invariant startAt == |yielded|
      invariant startAt == 0 || startAt < svc.maxTotal
      invariant Walk(svc, key, 0) == After(yielded, calls, Walk(svc, key, startAt))
      decreases svc.maxTotal - startAt
    {
      var response := svc.respond(key, startAt);
      ghost var rest := Walk(svc, key, startAt);
      calls := calls + 1;
      match response
      case HttpError(status) =>
        failure := Some(ApiError(status));
        return;
      case NetworkError =>
        failure := Some(TransportError);
        return;
      case Page(worklogs, _) =>
        var before := yielded;
        yielded := yielded + worklogs;
        startAt := startAt + |worklogs|;
        if startAt >= TotalOf(response) || |worklogs| == 0 {
          return;
        }
        assert rest == After(worklogs, 1, Walk(svc, key, startAt));
        AfterAfter(before, calls - 1, worklogs, Walk(svc, key, startAt));
    }
  }

  lemma AfterAfter(prefix: seq<Worklog>, calls: nat, page: seq<Worklog>, d: Drained)
    ensures After(prefix, calls, After(page, 1, d)) == After(prefix + page, calls + 1, d)
  {
    assert prefix + (page + d.records) == (prefix + page) + d.records;
  }

  /** The records are the concatenation of the fetched pages, so never more
      than `total` allows past the last page; with every reported total at
      most `t`, at most max(1, t - startAt) requests are made. */
  lemma {:induction false} WalkCallsBounded(svc: Service, key: string, startAt: nat, t: int)
    requires forall offset: nat :: svc.respond(key, offset).Page? ==> TotalOf(svc.respond(key, offset)) <= t
    ensures Walk(svc, key, startAt).calls <= if t - startAt > 1 then t - startAt else 1
    decreases svc.maxTotal - startAt
  {
    match svc.respond(key, startAt)
    case HttpError(_) =>
    case NetworkError =>
    case Page(worklogs, _) =>
      var next := startAt + |worklogs|;
      if !(next >= TotalOf(svc.respond(key, startAt)) || |worklogs| == 0) {
        WalkCallsBounded(svc, key, next, t);
      }
  }

  /** A response without `total` ends the walk after that one request. */
  lemma MissingTotalStops(svc: Service, key: string, startAt: nat)
    requires svc.respond(key, startAt).Page? && svc.respond(key, startAt).total.None?
    ensures Walk(svc, key, startAt) == Drained(svc.respond(key, startAt).worklogs, 1, None)
  {
  }

  /** An empty page ends the walk even when `total` claims more records. */
  lemma EmptyPageStops(svc: Service, key: string, startAt: nat)
    requires svc.respond(key, startAt).Page? && svc.respond(key, startAt).worklogs == []
    ensures Walk(svc, key, startAt) == Drained([], 1, None)
  {
  }

  /** A failure on the first request yields no records. */
  lemma FirstRequestFails(svc: Service, key: string)
    requires !svc.respond(key, 0).Page?
    ensures Walk(svc, key, 0).records == [] && Walk(svc, key, 0).error.Some?
  {
  }

  /** Pages [w1, w2] and [w3], each reporting total 3, give [w1, w2, w3] in
      two requests. */
  lemma TwoPageExample(w1: Worklog, w2: Worklog, w3: Worklog)
    ensures
      var respond := (key: string, offset: nat) =>
        if offset == 0 then Page([w1, w2], Some(3))
        else if offset == 2 then Page([w3], Some(3))
        else Page([], Some(3));
      Bounded(respond, 3) && Walk(Server(respond, 3), "PROJ-1", 0) == Drained([w1, w2, w3], 2, None)
  {
    var respond := (key: string, offset: nat) =>
      if offset == 0 then Page([w1, w2], Some(3))
      else if offset == 2 then Page([w3], Some(3))
      else Page([], Some(3));
    assert Bounded(respond, 3);
    var svc: Service := Server(respond, 3);
    assert Walk(svc, "PROJ-1", 2) == Drained([w3], 1, None);
  }
}
