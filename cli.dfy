/** `main`: the checks made before any request, each a configuration error
    with exit code 2; a failed fetch exits with 1; success writes the rows
    and exits with 0. */
module Cli {
  import opened Types
  import opened Text
  import opened Dates
  import opened Paginator
  import opened Config
  import opened Aggregator

  // ---- `_parse_issue_keys` ----

  /** An issue key as `_parse_issue_keys` produces it. */
  predicate CleanKey(k: string)
  {
    k != "" && ',' !in k && Trimmed(k)
  }

  /** `[key.strip() for key in parts if key.strip()]`. */
  function KeepKeys(parts: seq<string>): (keys: seq<string>)
    ensures |keys| <= |parts|
    ensures forall k :: k in keys ==> k != "" && Trimmed(k)
    decreases |parts|
  {
    if parts == [] then []
    else
      var k := Strip(parts[0]);
      if k != "" then [k] + KeepKeys(parts[1..]) else KeepKeys(parts[1..])
  }

  /** One piece is kept as its stripped text exactly when that is not empty. */
  lemma KeepKeysSingle(p: string)
    ensures KeepKeys([p]) == if Strip(p) != "" then [Strip(p)] else []
  {
    assert [p][1..] == [];
  }

  /** The first piece is kept or dropped on its own. */
  lemma KeepKeysFront(parts: seq<string>)
    requires parts != []
    ensures KeepKeys(parts) == KeepKeys([parts[0]]) + KeepKeys(parts[1..])
  {
    KeepKeysSingle(parts[0]);
  }

  /** Pieces are kept or dropped each on its own, in input order. */
  lemma {:induction false} KeepKeysAppend(a: seq<string>, b: seq<string>)
    ensures KeepKeys(a + b) == KeepKeys(a) + KeepKeys(b)
    decreases |a|
  {
    if a != [] {
      assert (a + b)[0] == a[0] && (a + b)[1..] == a[1..] + b;
      KeepKeysFront(a + b);
      KeepKeysFront(a);
      KeepKeysAppend(a[1..], b);
      ConcatAssoc(KeepKeys([a[0]]), KeepKeys(a[1..]), KeepKeys(b));
    } else {
      assert a + b == b;
    }
  }

  /** Sequence concatenation regrouped; a separate lemma keeps the step
      cheap where the sequences are `KeepKeys` results. */
  lemma ConcatAssoc<T>(x: seq<T>, y: seq<T>, z: seq<T>)
    ensures x + (y + z) == (x + y) + z
  {
  }

  /** Keys kept from comma-free pieces are comma-free. */
  lemma {:induction false} KeptKeysCommaFree(parts: seq<string>)
    requires forall p :: p in parts ==> ',' !in p
    ensures forall k :: k in KeepKeys(parts) ==> ',' !in k
    decreases |parts|
  {
    if parts != [] {
      StripInfix(parts[0]);
      KeptKeysCommaFree(parts[1..]);
    }
  }

  /** `_parse_issue_keys`: split on commas, strip, drop the empty pieces. */
  function ParseIssueKeys(raw: string): (keys: seq<string>)
    ensures forall k :: k in keys ==> CleanKey(k)
  {
    var parts := Split(raw, ',');
    assert forall p :: p in parts ==> ',' !in p;
    KeptKeysCommaFree(parts);
    KeepKeys(parts)
  }

  /** Comma-free pieces joined with commas are parsed into their kept keys:
      each piece stripped, the blank ones dropped, in order. */
  lemma ParseJoinedPieces(pieces: seq<string>)
    requires |pieces| >= 1
    requires forall p :: p in pieces ==> ',' !in p
    ensures ParseIssueKeys(Join(pieces, ',')) == KeepKeys(pieces)
  {
    assert forall i :: 0 <= i < |pieces| ==> pieces[i] in pieces;
    SplitJoin(pieces, ',');
  }

  lemma {:induction false} KeepCleanKeys(keys: seq<string>)
    requires forall k :: k in keys ==> CleanKey(k)
    ensures KeepKeys(keys) == keys
    decreases |keys|
  {
    if keys != [] {
      assert keys[0] in keys && forall k :: k in keys[1..] ==> k in keys;
      StripTrimmed(keys[0]);
      KeepCleanKeys(keys[1..]);
    }
  }

  /** Clean keys joined with commas are read back in order, repeats kept. */
  lemma IssueKeysRoundTrip(keys: seq<string>)
    requires forall k :: k in keys ==> CleanKey(k)
    ensures ParseIssueKeys(Join(keys, ',')) == keys
  {
    if keys == [] {
      assert Split(Join(keys, ','), ',') == [[]];
    } else {
      assert forall i :: 0 <= i < |keys| ==> keys[i] in keys;
      SplitJoin(keys, ',');
      KeepCleanKeys(keys);
    }
  }

  // ---- `_parse_date_arg` ----

  /** `_parse_date_arg`: an absent or empty argument is no bound; otherwise it
      must be a `YYYY-MM-DD` date, else it is a configuration error. */
  function ParseDateArg(raw: Option<string>, argument: string): (r: Result<Option<Date>, ConfigError>)
    ensures r == Ok(None) <==> raw.None? || raw.value == ""
    ensures r.Ok? && r.value.Some? ==> raw.Some? && ValidDate(r.value.value) && IsoDate(r.value.value) == raw.value
    ensures r.Err? ==> r.error == BadDate(argument)
  {
    match raw
    case None => Ok(None)
    case Some(s) =>
      if s == "" then Ok(None)
      else
        ParseIsoDateExact(s);
        match ParseIsoDate(s)
        case None => Err(BadDate(argument))
        case Some(d) => Ok(Some(d))
  }

  /** Every valid date given as its `YYYY-MM-DD` text is accepted as that date. */
  lemma ParseDateArgAccepts(d: Date, argument: string)
    requires ValidDate(d)
    ensures ParseDateArg(Some(IsoDate(d)), argument) == Ok(Some(d))
  {
    IsoDateRoundTrip(d);
  }

  // ---- `main` ----

  /** The parsed command line: `--issues`, `--user`, `--startdate`, `--enddate`. */
  datatype Args = Args(issues: string, user: Option<string>, startDate: Option<string>, endDate: Option<string>)

  /** The `--config` file: none given, read into its `[jira]` values, or
      unreadable (not found, or no `[jira]` section). */
  datatype ConfigSource = NoConfigFile | ConfigFile(values: map<string, string>) | UnreadableFile(reason: string)

  /** Everything `fetch_time_entries` is called with. */
  datatype Job = Job(config: JiraConfig, keys: seq<string>, start: Option<Date>, end: Option<Date>)

  /** The `[jira]` values `load_jira_config` starts from. */
  function ConfigValues(source: ConfigSource): (r: Result<map<string, string>, ConfigError>)
    ensures r.Err? <==> source.UnreadableFile?
    ensures source.NoConfigFile? ==> r == Ok(map[])
    ensures source.ConfigFile? ==> r == Ok(source.values)
  {
    match source
    case NoConfigFile => Ok(map[])
    case ConfigFile(v) => Ok(v)
    case UnreadableFile(reason) => Err(UnreadableConfigFile(reason))
  }

  /** `--user`, when given and not empty, replaces the loaded worklog user. */
  function WithUser(loaded: JiraConfig, user: Option<string>): JiraConfig
  {
    if user.Some? && user.value != "" then loaded.(worklogUser := user.value) else loaded
  }

  /** The checks of `main` up to the fetch, in the order it makes them. */
  function Prepare(env: map<string, string>, source: ConfigSource, args: Args): (r: Result<Job, ConfigError>)
    ensures r.Ok? ==> |r.value.keys| > 0 && r.value.config.worklogUser != ""
                      && forall k :: k in r.value.keys ==> CleanKey(k)
    ensures r.Ok? && r.value.start.Some? && r.value.end.Some? ==> OnOrBefore(r.value.start.value, r.value.end.value)
    ensures r.Ok? && args.user.Some? && args.user.value != "" ==> r.value.config.worklogUser == args.user.value
    ensures r.Ok? ==> SettingsLoad(env, source)
                      && r.value.config == WithUser(LoadJiraConfig(env, ConfigValues(source).value).value, args.user)
    ensures r.Ok? ==> r.value.keys == ParseIssueKeys(args.issues)
                      && ParseDateArg(args.startDate, "startdate") == Ok(r.value.start)
                      && ParseDateArg(args.endDate, "enddate") == Ok(r.value.end)
  {
    match ConfigValues(source)
    case Err(e) => Err(e)
    case Ok(v) =>
      match LoadJiraConfig(env, v)
      case Err(e) => Err(e)
      case Ok(loaded) =>
        var config := WithUser(loaded, args.user);
        match ParseDateArg(args.startDate, "startdate")
        case Err(e) => Err(e)
        case Ok(start) =>
          match ParseDateArg(args.endDate, "enddate")
          case Err(e) => Err(e)
          case Ok(end) =>
            if start.Some? && end.Some? && Before(end.value, start.value) then Err(StartAfterEnd)
            else
              var keys := ParseIssueKeys(args.issues);
              if keys == [] then Err(NoIssueKeys) else Ok(Job(config, keys, start, end))
  }

  /** The checks of `Prepare` that pass, in the order they are made. */
  predicate SettingsLoad(env: map<string, string>, source: ConfigSource)
  {
    ConfigValues(source).Ok? && LoadJiraConfig(env, ConfigValues(source).value).Ok?
  }

  predicate DatesParse(env: map<string, string>, source: ConfigSource, args: Args)
  {
    SettingsLoad(env, source)
    && ParseDateArg(args.startDate, "startdate").Ok? && ParseDateArg(args.endDate, "enddate").Ok?
  }

  predicate DatesOrdered(env: map<string, string>, source: ConfigSource, args: Args)
  {
    DatesParse(env, source, args)
    && var start := ParseDateArg(args.startDate, "startdate").value;
       var end := ParseDateArg(args.endDate, "enddate").value;
       !(start.Some? && end.Some? && Before(end.value, start.value))
  }

  /** Each configuration error is reported exactly when every earlier check
      has passed and its own fails: the config file, then the settings, then
      `--startdate`, then `--enddate`, then their order, then the issue keys.
      A job is prepared exactly when all of them pass. */
  lemma PrepareErrorOrder(env: map<string, string>, source: ConfigSource, args: Args)
    ensures var r := Prepare(env, source, args);
            var values := ConfigValues(source);
            && (values.Err? ==> r == Err(values.error))
            && (values.Ok? && LoadJiraConfig(env, values.value).Err? ==> r == Err(LoadJiraConfig(env, values.value).error))
            && (r == Err(BadDate("startdate")) <==>
                  SettingsLoad(env, source) && ParseDateArg(args.startDate, "startdate").Err?)
            && (r == Err(BadDate("enddate")) <==>
                  SettingsLoad(env, source) && ParseDateArg(args.startDate, "startdate").Ok?
                  && ParseDateArg(args.endDate, "enddate").Err?)
            && (r == Err(StartAfterEnd) <==> DatesParse(env, source, args) && !DatesOrdered(env, source, args))
            && (r == Err(NoIssueKeys) <==> DatesOrdered(env, source, args) && ParseIssueKeys(args.issues) == [])
            && (r.Ok? <==> DatesOrdered(env, source, args) && ParseIssueKeys(args.issues) != [])
  {
    if !SettingsLoad(env, source) {
      PrepareSettingsErrors(env, source, args);
    } else if !DatesParse(env, source, args) {
      PrepareDateErrors(env, source, args);
    } else {
      PrepareLateChecks(env, source, args);
    }
  }

  /** An unreadable file or a missing setting is reported before anything else. */
  lemma PrepareSettingsErrors(env: map<string, string>, source: ConfigSource, args: Args)
    requires !SettingsLoad(env, source)
    ensures var values := ConfigValues(source);
            && (values.Err? ==> Prepare(env, source, args) == Err(values.error))
            && (values.Ok? ==> Prepare(env, source, args) == Err(LoadJiraConfig(env, values.value).error))
  {
  }

  /** Once the settings load, a bad `--startdate` comes before a bad `--enddate`. */
  lemma PrepareDateErrors(env: map<string, string>, source: ConfigSource, args: Args)
    requires SettingsLoad(env, source) && !DatesParse(env, source, args)
    ensures ParseDateArg(args.startDate, "startdate").Err? ==> Prepare(env, source, args) == Err(BadDate("startdate"))
    ensures ParseDateArg(args.startDate, "startdate").Ok? ==> Prepare(env, source, args) == Err(BadDate("enddate"))
  {
  }

  /** Once both dates parse, their order is checked before the issue keys. */
  lemma PrepareLateChecks(env: map<string, string>, source: ConfigSource, args: Args)
    requires DatesParse(env, source, args)
    ensures !DatesOrdered(env, source, args) ==> Prepare(env, source, args) == Err(StartAfterEnd)
    ensures DatesOrdered(env, source, args) && ParseIssueKeys(args.issues) == [] ==> Prepare(env, source, args) == Err(NoIssueKeys)
    ensures DatesOrdered(env, source, args) && ParseIssueKeys(args.issues) != [] ==> Prepare(env, source, args).Ok?
  {
  }

  /** `--user` replaces only the worklog user, and only when it is not empty;
      every other setting is the loaded one. */
  lemma UserOverride(env: map<string, string>, source: ConfigSource, args: Args)
    requires Prepare(env, source, args).Ok?
    ensures ConfigValues(source).Ok? && LoadJiraConfig(env, ConfigValues(source).value).Ok?
    ensures var loaded := LoadJiraConfig(env, ConfigValues(source).value).value;
            var config := Prepare(env, source, args).value.config;
            && config.baseUrl == loaded.baseUrl && config.email == loaded.email
            && config.apiToken == loaded.apiToken && config.apiVersion == loaded.apiVersion
            && config.worklogUser == if args.user.Some? && args.user.value != "" then args.user.value else loaded.worklogUser
  {
  }

  /** `main`: its exit code, and the rows handed to `write_csv` on success. */
  method Run(env: map<string, string>, source: ConfigSource, args: Args, svc: Service)
    returns (code: int, written: Option<seq<Row>>)
    ensures code == 2 <==> Prepare(env, source, args).Err?
    ensures code == 2 ==> written.None?
    ensures Prepare(env, source, args).Ok? ==>
              var job := Prepare(env, source, args).value;
              var fetched := FetchSpec(svc, job.config.worklogUser, job.keys, job.start, job.end);
              (fetched.Err? ==> code == 1 && written.None?)
              && (fetched.Ok? ==> code == 0 && written == Some(fetched.value.rows))
  {
    var prepared := Prepare(env, source, args);
    if prepared.Err? {
      return 2, None;   // "Configuration error: ..." or "No valid issue keys provided."
    }
    var job := prepared.value;
    var result := FetchTimeEntries(svc, job.config, job.keys, job.start, job.end);
    if result.Err? {
      return 1, None;   // "Failed to fetch worklogs: ..."
    }
    return 0, Some(result.value.rows);
  }
}
