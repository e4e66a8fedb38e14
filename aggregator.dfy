/** `fetch_time_entries`: walk the issue keys in the given order, keep each
    record that belongs to the worklog user and falls in the date range, and
    turn it into a row. A 404 skips the rest of that issue; any other failed
    request aborts the whole call. */
module Aggregator {
  import opened Types
  import opened Dates
  import opened Worklogs
  import opened Paginator
  import opened Config

  /** One output tuple without its floating-point hours column:
      (issue key, seconds, author name, worklog date). */
  datatype Row = Row(issueKey: string, timeSpentSeconds: int, authorName: string, worklogDate: Option<Date>)

  /** The returned rows, and the keys skipped with a "not found" warning. */
  datatype Export = Export(rows: seq<Row>, skipped: seq<string>)

  /** Both filters of the inner loop. */
  predicate Accepts(user: string, w: Worklog, start: Option<Date>, end: Option<Date>)
  {
    MatchesUser(w, user) && WithinDateRange(ParseStarted(w.started), start, end)
  }

  /** The row appended for an accepted record. */
  function ToRow(key: string, w: Worklog): (r: Row)
    ensures r.issueKey == key && r.worklogDate == ParseStarted(w.started)
    ensures r.authorName == ExtractAuthorName(w) && r.timeSpentSeconds == SecondsOf(w)
    ensures w.timeSpentSeconds.None? ==> r.timeSpentSeconds == 0
    ensures w.timeSpentSeconds.Some? ==> r.timeSpentSeconds == w.timeSpentSeconds.value
  {
    Row(key, SecondsOf(w), ExtractAuthorName(w), ParseStarted(w.started))
  }

  /** The rows one issue's records contribute, in API order. */
  function Select(user: string, key: string, ws: seq<Worklog>, start: Option<Date>, end: Option<Date>): (rows: seq<Row>)
    ensures |rows| <= |ws|
    decreases |ws|
  {
    if ws == [] then []
    else
      var last := ws[|ws| - 1];
      Select(user, key, ws[..|ws| - 1], start, end) + (if Accepts(user, last, start, end) then [ToRow(key, last)] else [])
  }

  /** Only a `JiraApiError` with status 404 is recovered from. */
  predicate IsNotFound(e: FetchError)
  {
    e.ApiError? && e.status == 404
  }

  /** What one issue key contributes on its own. */
  function IssueExport(svc: Service, user: string, key: string, start: Option<Date>, end: Option<Date>): Result<Export, FetchError>
  {
    var d := Walk(svc, key, 0);
    var rows := Select(user, key, d.records, start, end);
    match d.error
    case None => Ok(Export(rows, []))
    case Some(e) => if IsNotFound(e) then Ok(Export(rows, [key])) else Err(e)
  }

  function Combine(a: Export, b: Export): Export
  {
    Export(a.rows + b.rows, a.skipped + b.skipped)
  }

  /** The first error wins; otherwise the exports are concatenated. */
  function Chain(a: Result<Export, FetchError>, b: Result<Export, FetchError>): Result<Export, FetchError>
  {
    match a
    case Err(e) => Err(e)
    case Ok(x) =>
      match b
      case Err(e) => Err(e)
      case Ok(y) => Ok(Combine(x, y))
  }

  /** The result of `fetch_time_entries` for `keys`, issue by issue. */
  function FetchSpec(svc: Service, user: string, keys: seq<string>, start: Option<Date>, end: Option<Date>): Result<Export, FetchError>
    decreases |keys|
  {
    if keys == [] then Ok(Export([], []))
    else Chain(FetchSpec(svc, user, keys[..|keys| - 1], start, end),
               IssueExport(svc, user, keys[|keys| - 1], start, end))
  }

  /** The inner loop of `fetch_time_entries` over one issue's records: skip a
      record of another user, skip one outside the range, append the rest. */
  method AppendIssueRows(rows: seq<Row>, user: string, key: string, worklogs: seq<Worklog>,
                         start: Option<Date>, end: Option<Date>)
    returns (entries: seq<Row>)
    ensures entries == rows + Select(user, key, worklogs, start, end)
  {
    entries := rows;
    for j := 0 to |worklogs|
      invariant entries == rows + Select(user, key, worklogs[..j], start, end)
    {
      var worklog := worklogs[j];
      assert worklogs[..j + 1][..j] == worklogs[..j];
      if !MatchesUser(worklog, user) {
        continue;
      }
      var startedDate := ParseStarted(worklog.started);
      if !WithinDateRange(startedDate, start, end) {
        continue;
      }
      entries := entries + [Row(key, SecondsOf(worklog), ExtractAuthorName(worklog), startedDate)];
    }
    assert worklogs[..|worklogs|] == worklogs;
  }

  /** `fetch_time_entries`: each issue's generator is consumed record by
      record; a request that raises ends that issue's loop with the rows
      already appended kept. */
  method FetchTimeEntries(svc: Service, config: JiraConfig, issueKeys: seq<string>,
                          start: Option<Date>, end: Option<Date>)
    returns (result: Result<Export, FetchError>)
    ensures result == FetchSpec(svc, config.worklogUser, issueKeys, start, end)
  {
    var rows: seq<Row> := [];
    var skipped: seq<string> := [];
    ghost var user := config.worklogUser;
    for i := 0 to |issueKeys|
      invariant FetchSpec(svc, user, issueKeys[..i], start, end) == Ok(Export(rows, skipped))
    {
      var key := issueKeys[i];
      assert issueKeys[..i + 1][..i] == issueKeys[..i];
      ghost var spec := IssueExport(svc, user, key, start, end);
      assert FetchSpec(svc, user, issueKeys[..i + 1], start, end) == Chain(Ok(Export(rows, skipped)), spec);
      var worklogs, _, failure := IterWorklogs(svc, key);
      ghost var before := rows;
      rows := AppendIssueRows(rows, config.worklogUser, key, worklogs, start, end);
      ghost var selected := Select(user, key, worklogs, start, end);
      match failure
      case None =>
        assert spec == Ok(Export(selected, []));
        assert skipped + [] == skipped;
      case Some(e) =>
        if IsNotFound(e) {
          assert spec == Ok(Export(selected, [key]));
          assert Chain(Ok(Export(before, skipped)), spec) == Ok(Export(rows, skipped + [key]));
          skipped := skipped + [key];   // "Warning: issue ... not found (HTTP 404). Skipping."
        } else {
          assert spec == Err(e);
          assert issueKeys[..i + 1] + issueKeys[i + 1..] == issueKeys;
          FetchAppend(svc, user, issueKeys[..i + 1], issueKeys[i + 1..], start, end);
          return Err(e);
        }
    }
    assert issueKeys[..|issueKeys|] == issueKeys;
    return Ok(Export(rows, skipped));
  }

  // ---- the rows of one issue ----

  /** Filtering distributes over concatenation: rows keep the API order. */
  lemma {:induction false} SelectAppend(user: string, key: string, a: seq<Worklog>, b: seq<Worklog>,
                                        start: Option<Date>, end: Option<Date>)
    ensures Select(user, key, a + b, start, end) == Select(user, key, a, start, end) + Select(user, key, b, start, end)
    decreases |b|
  {
    if b != [] {
      assert (a + b)[..|a + b| - 1] == a + b[..|b| - 1];
      SelectAppend(user, key, a, b[..|b| - 1], start, end);
    } else {
      assert a + b == a;
    }
  }

  /** A single record gives its row exactly when it passes both filters. */
  lemma SelectSingle(user: string, key: string, w: Worklog, start: Option<Date>, end: Option<Date>)
    ensures Select(user, key, [w], start, end) == if Accepts(user, w, start, end) then [ToRow(key, w)] else []
  {
    assert [w][..0] == [];
  }

  /** Every row comes from a record of the issue that passed both filters. */
  lemma {:induction false} SelectSound(user: string, key: string, ws: seq<Worklog>,
                                       start: Option<Date>, end: Option<Date>, r: Row)
    requires r in Select(user, key, ws, start, end)
    ensures exists w :: w in ws && Accepts(user, w, start, end) && r == ToRow(key, w)
    decreases |ws|
  {
    var init := ws[..|ws| - 1];
    if r in Select(user, key, init, start, end) {
      SelectSound(user, key, init, start, end, r);
      var w :| w in init && Accepts(user, w, start, end) && r == ToRow(key, w);
      assert w in ws;
    } else {
      assert ws[|ws| - 1] in ws;
    }
  }

  /** Every record that passes both filters gives a row. */
  lemma {:induction false} SelectComplete(user: string, key: string, ws: seq<Worklog>,
                                          start: Option<Date>, end: Option<Date>, w: Worklog)
    requires w in ws && Accepts(user, w, start, end)
    ensures ToRow(key, w) in Select(user, key, ws, start, end)
    decreases |ws|
  {
    if w != ws[|ws| - 1] {
      var i :| 0 <= i < |ws| && ws[i] == w;
      assert ws[..|ws| - 1][i] == w;
      SelectComplete(user, key, ws[..|ws| - 1], start, end, w);
    }
  }

  // ---- the whole call ----

  lemma ChainAssociative(a: Result<Export, FetchError>, b: Result<Export, FetchError>, c: Result<Export, FetchError>)
    ensures Chain(Chain(a, b), c) == Chain(a, Chain(b, c))
  {
    if a.Ok? && b.Ok? && c.Ok? {
      assert a.value.rows + b.value.rows + c.value.rows == a.value.rows + (b.value.rows + c.value.rows);
      assert a.value.skipped + b.value.skipped + c.value.skipped == a.value.skipped + (b.value.skipped + c.value.skipped);
    }
  }

  /** Processing `k1 + k2` is processing `k1`, then `k2`: keys are handled in
      the order given, repeated keys again each time. */
  lemma {:induction false} FetchAppend(svc: Service, user: string, k1: seq<string>, k2: seq<string>,
                                       start: Option<Date>, end: Option<Date>)
    ensures FetchSpec(svc, user, k1 + k2, start, end)
            == Chain(FetchSpec(svc, user, k1, start, end), FetchSpec(svc, user, k2, start, end))
    decreases |k2|
  {
    if k2 == [] {
      assert k1 + k2 == k1;
      var a := FetchSpec(svc, user, k1, start, end);
      if a.Ok? {
        assert a.value.rows + [] == a.value.rows && a.value.skipped + [] == a.value.skipped;
      }
    } else {
      var init := k2[..|k2| - 1];
      var last := k2[|k2| - 1];
      assert (k1 + k2)[..|k1 + k2| - 1] == k1 + init;
      assert (k1 + k2)[|k1 + k2| - 1] == last;
      FetchAppend(svc, user, k1, init, start, end);
      ChainAssociative(FetchSpec(svc, user, k1, start, end), FetchSpec(svc, user, init, start, end),
                       IssueExport(svc, user, last, start, end));
    }
  }

  lemma FetchSingle(svc: Service, user: string, key: string, start: Option<Date>, end: Option<Date>)
    ensures FetchSpec(svc, user, [key], start, end) == IssueExport(svc, user, key, start, end)
  {
    assert [key][..0] == [];
    var e := IssueExport(svc, user, key, start, end);
    if e.Ok? {
      assert [] + e.value.rows == e.value.rows && [] + e.value.skipped == e.value.skipped;
    }
  }

  /** A 404 on an issue skips it with a warning: its rows from pages fetched
      before the 404 stay, and the keys after it are still processed. */
  lemma NotFoundSkipsIssue(svc: Service, user: string, k1: seq<string>, key: string, k2: seq<string>,
                           start: Option<Date>, end: Option<Date>)
    requires Walk(svc, key, 0).error == Some(ApiError(404))
    requires FetchSpec(svc, user, k1, start, end).Ok? && FetchSpec(svc, user, k2, start, end).Ok?
    ensures var a := FetchSpec(svc, user, k1, start, end).value;
            var b := FetchSpec(svc, user, k2, start, end).value;
            FetchSpec(svc, user, k1 + [key] + k2, start, end)
            == Ok(Export(a.rows + Select(user, key, Walk(svc, key, 0).records, start, end) + b.rows,
                         a.skipped + [key] + b.skipped))
  {
    FetchAppend(svc, user, k1 + [key], k2, start, end);
    FetchAppend(svc, user, k1, [key], start, end);
    FetchSingle(svc, user, key, start, end);
  }

  /** Any other HTTP status, or a network failure, aborts the call: no rows
      are returned, whatever the keys after it. */
  lemma FatalErrorAborts(svc: Service, user: string, k1: seq<string>, key: string, k2: seq<string>,
                         start: Option<Date>, end: Option<Date>)
    requires Walk(svc, key, 0).error.Some? && !IsNotFound(Walk(svc, key, 0).error.value)
    requires FetchSpec(svc, user, k1, start, end).Ok?
    ensures FetchSpec(svc, user, k1 + [key] + k2, start, end) == Err(Walk(svc, key, 0).error.value)
  {
    FetchAppend(svc, user, k1 + [key], k2, start, end);
    FetchAppend(svc, user, k1, [key], start, end);
    FetchSingle(svc, user, key, start, end);
  }

  /** The walk of this key ends in an error that is not a 404. */
  predicate Fatal(svc: Service, key: string)
  {
    Walk(svc, key, 0).error.Some? && !IsNotFound(Walk(svc, key, 0).error.value)
  }

  /** The call fails exactly when some requested issue fails fatally, and it
      then reports the first such failure. */
  lemma {:induction false} FailsIffSomeIssueFatal(svc: Service, user: string, keys: seq<string>,
                                                  start: Option<Date>, end: Option<Date>)
    ensures FetchSpec(svc, user, keys, start, end).Err? <==> exists i :: 0 <= i < |keys| && Fatal(svc, keys[i])
    ensures FetchSpec(svc, user, keys, start, end).Err? ==>
              exists i :: 0 <= i < |keys| && Fatal(svc, keys[i])
                          && FetchSpec(svc, user, keys, start, end).error == Walk(svc, keys[i], 0).error.value
                          && forall j :: 0 <= j < i ==> !Fatal(svc, keys[j])
    decreases |keys|
  {
    if keys != [] {
      var init := keys[..|keys| - 1];
      FailsIffSomeIssueFatal(svc, user, init, start, end);
      assert forall i :: 0 <= i < |init| ==> init[i] == keys[i];
    }
  }

  /** Every row's key is a requested key and comes from a record of that
      key's walk that passed both filters; every skipped key was requested. */
  lemma {:induction false} RowsTraceToRequests(svc: Service, user: string, keys: seq<string>,
                                               start: Option<Date>, end: Option<Date>, r: Row)
    requires FetchSpec(svc, user, keys, start, end).Ok?
    requires r in FetchSpec(svc, user, keys, start, end).value.rows
    ensures r.issueKey in keys
    ensures exists w :: w in Walk(svc, r.issueKey, 0).records && Accepts(user, w, start, end)
                        && r == ToRow(r.issueKey, w)
    decreases |keys|
  {
    var init := keys[..|keys| - 1];
    var last := keys[|keys| - 1];
    var a := FetchSpec(svc, user, init, start, end).value;
    if r in a.rows {
      RowsTraceToRequests(svc, user, init, start, end, r);
      assert forall k :: k in init ==> k in keys;
    } else {
      SelectSound(user, last, Walk(svc, last, 0).records, start, end, r);
      var w :| w in Walk(svc, last, 0).records && Accepts(user, w, start, end) && r == ToRow(last, w);
      assert r.issueKey == last;
    }
  }

  lemma {:induction false} SkippedWereRequested(svc: Service, user: string, keys: seq<string>,
                                                start: Option<Date>, end: Option<Date>)
    requires FetchSpec(svc, user, keys, start, end).Ok?
    ensures forall k :: k in FetchSpec(svc, user, keys, start, end).value.skipped ==>
              k in keys && Walk(svc, k, 0).error == Some(ApiError(404))
    decreases |keys|
  {
    if keys != [] {
      var init := keys[..|keys| - 1];
      SkippedWereRequested(svc, user, init, start, end);
      assert forall k :: k in init ==> k in keys;
    }
  }

  /** Requesting the same keys twice gives every row and warning twice. */
  lemma RepeatedKeys(svc: Service, user: string, keys: seq<string>, start: Option<Date>, end: Option<Date>)
    requires FetchSpec(svc, user, keys, start, end).Ok?
    ensures var a := FetchSpec(svc, user, keys, start, end).value;
            FetchSpec(svc, user, keys + keys, start, end) == Ok(Export(a.rows + a.rows, a.skipped + a.skipped))
  {
    FetchAppend(svc, user, keys, keys, start, end);
  }
}
