# Jira worklog export — a verified model

`jira_time_entries_export.py` exports the worklog time of one Jira user over a
list of issues as CSV. This project models, in Dafny, the logic between the
command line and the CSV writer, and proves properties of that logic:

- **Settings.** Each setting comes from a non-blank environment variable (stripped), then a
  non-empty `[jira]` value of the config file, then a default. Base URL, email and
  API token are required, in that order. The worklog user defaults to the email
  and the API version to `"3"`. Trailing slashes are removed from the base URL.
- **Command-line checks.** `main` makes these checks before any request. Each failure is a
  configuration error with exit code 2:
  - `--startdate` and `--enddate` must be `YYYY-MM-DD` dates;
  - the start must not be after the end;
  - `--issues` must hold at least one key after splitting on commas and stripping.
- **Pagination.** Each issue's worklogs are fetched page by page from `startAt = 0`. Fetching
  moves forward by the length of each page and stops when the offset reaches
  `total` (0 when absent) or when a page is empty.
- **Filtering.** A worklog is kept when one of its author's `accountId`, `name`,
  `displayName` or `emailAddress` equals the worklog user. Its `started` date must also lie
  within the inclusive date range. `started` is parsed with fractional seconds
  first and with whole seconds second.
- **Errors.** An HTTP 404 on an issue skips the rest of that issue. Its earlier rows are kept and
  a warning is recorded. Any other HTTP status, or a network failure, aborts the
  export with exit code 1. Success exits with 0 after the rows are written.

The Jira service is a value: a table from (issue key, `startAt`) to what one
request returns, either a page or an HTTP error or a network error. The
environment and the config file are maps. The loops that build the export are
methods proved against specification functions: `IterWorklogs` against `Walk`,
`FetchTimeEntries` and its inner loop `AppendIssueRows` against `FetchSpec` and
`Select`. The properties are then proved about those functions. The loop over
the two `started` formats only picks the first format that accepts, so it is
the recursive function `FirstSuccess`.

Modules, one per file: `Types` (Option, Result), `Text` (the string builtins
used), `Dates`, `Worklogs`, `Paginator`, `Config`, `Aggregator`, `Cli` (`main`)
and `Scenarios` (the repository's test scenarios replayed on the model).

The repository's tests expect four-element rows and a four-column CSV header.
The code returns five-element rows that end in the worklog date. The model
follows the code, and the replayed scenarios state the code's rows.

The check at `jira_time_entries_export.py:93-94` can never fail. The worklog
user defaults to the email, which the previous check has already required to
be non-empty. `Config.LoadJiraConfig` proves this: its only errors are the three
missing required settings.

## Model

| member | source | states |
|---|---|---|
| Text.RStrip | jira_time_entries_export.py:97 | `rstrip` keeps a prefix, every dropped character is a dropped kind, and the kept prefix does not end in one |
| Text.LStrip | jira_time_entries_export.py:63-64 | the left half of `strip()`: keeps a suffix, drops only whitespace, and the kept part does not start with whitespace |
| Text.Strip | jira_time_entries_export.py:63-64 | the stripped value is the infix of `s` between a whitespace-only prefix and a whitespace-only suffix, and neither starts nor ends with whitespace |
| Text.StripInfix | jira_time_entries_export.py:246 | stripping adds no character, and a value strips to empty exactly when it is all whitespace |
| Text.StripTrimmed | jira_time_entries_export.py:246 | stripping an already stripped value changes nothing |
| Text.Split | jira_time_entries_export.py:246 | `split(",")` gives at least one piece and no piece contains the separator |
| Text.JoinSplit | jira_time_entries_export.py:246 | joining the pieces of a split with the separator gives back the original string |
| Text.SplitJoin | jira_time_entries_export.py:246 | splitting separator-free pieces joined by the separator gives back the pieces |
| Dates.OnOrBeforeTotalOrder | jira_time_entries_export.py:202-204 | date comparison is a total order, and `<=` is the negation of the reverse `<` |
| Dates.NatOfPad | jira_time_entries_export.py:175 | reading back a zero-padded number gives the number |
| Dates.PadNatOf | jira_time_entries_export.py:175 | zero-padding a digit string's value to its length gives back the string |
| Dates.ParseIsoDate | jira_time_entries_export.py:175 | every date `%Y-%m-%d` accepts is a real calendar date |
| Dates.IsoDateRoundTrip | jira_time_entries_export.py:175 | every valid date is read back from its `YYYY-MM-DD` text |
| Dates.ParseIsoDateExact | jira_time_entries_export.py:175 | an accepted text is exactly the `YYYY-MM-DD` text of its date |
| Dates.TryFormat | jira_time_entries_export.py:184-186 | a successful `strptime(...).date()` is the date written in the first ten characters |
| Dates.WholeSecondsWellFormed | jira_time_entries_export.py:184-186 | the whole-seconds format accepts only `YYYY-MM-DDTHH:MM:SS±HHMM`, spelling the date it returns |
| Dates.FractionalSecondsWellFormed | jira_time_entries_export.py:184-186 | the fractional-seconds format accepts only `YYYY-MM-DDTHH:MM:SS.f±HHMM`, spelling the date it returns |
| Dates.FirstSuccess | jira_time_entries_export.py:184-189 | trying formats in order succeeds iff some format succeeds, and then gives the first success |
| Dates.ParseStarted | jira_time_entries_export.py:180-189 | an absent or empty `started` has no date; a parsed date is the date in the first ten characters |
| Dates.ParseStartedDatePart | jira_time_entries_export.py:180-189 | a parsed `started` date is valid and its ISO text is the value's first ten characters |
| Dates.ParseStartedEitherFormat | jira_time_entries_export.py:184-189 | `started` parses iff one of the two formats accepts it, and the fractional-seconds format wins |
| Dates.StartedFractionalRoundTrip | jira_time_entries_export.py:184-186 | a `YYYY-MM-DDTHH:MM:SS.fff+HHMM` value parses to its date |
| Dates.StartedWholeRoundTrip | jira_time_entries_export.py:184-186 | a `YYYY-MM-DDTHH:MM:SS+HHMM` value parses to its date |
| Dates.ParseStartedWellFormed | jira_time_entries_export.py:180-189 | a `started` value gives a date only when it is written in one of the two formats, and the date is the one it spells; anything else gives `None` |
| Dates.WithinDateRange | jira_time_entries_export.py:192-205 | with no bounds, everything passes; with a bound, an undated worklog fails; otherwise both bounds are inclusive |
| Worklogs.AnyCandidateIs | jira_time_entries_export.py:163 | `any(...)` holds iff some non-empty candidate equals the target |
| Worklogs.MatchesUser | jira_time_entries_export.py:155-163 | a match iff the user is non-empty and one of the four author fields equals it; no author never matches |
| Worklogs.FirstFilled | jira_time_entries_export.py:168 | the `or` chain is empty iff all candidates are, and otherwise is one of them |
| Worklogs.ExtractAuthorName | jira_time_entries_export.py:166-168 | `displayName`, else `name`, else `accountId`, else the empty string |
| Worklogs.SecondsOf | jira_time_entries_export.py:227 | a missing `timeSpentSeconds` counts as 0; a present one is taken as is |
| Paginator.Walk | jira_time_entries_export.py:128-152 | consuming the generator always makes at least one request |
| Paginator.IterWorklogs | jira_time_entries_export.py:128-152 | the loop yields exactly the records, requests and error of `Walk` from offset 0 |
| Paginator.AfterAfter | jira_time_entries_export.py:145-150 | yielding a prefix and then a page equals yielding their concatenation |
| Paginator.WalkCallsBounded | jira_time_entries_export.py:149-152 | with every reported total at most `t`, at most max(1, t - startAt) requests are made |
| Paginator.MissingTotalStops | jira_time_entries_export.py:149-152 | a page without `total` ends the walk after that request |
| Paginator.EmptyPageStops | jira_time_entries_export.py:151-152 | an empty page ends the walk, even when `total` claims more |
| Paginator.FirstRequestFails | jira_time_entries_export.py:138-144 | a failed first request yields no records and ends in an error |
| Paginator.TwoPageExample | tests/test_jira_time_entries_export.py:49-66 | pages of two and one records with total 3 yield all three in order with two requests |
| Config.EnvOrConfig | jira_time_entries_export.py:56-67 | a non-blank environment value (stripped) wins, then a non-empty config value, then the default |
| Config.LoadJiraConfig | jira_time_entries_export.py:70-102 | only the three required settings can be missing; a loaded config holds the looked-up values: the base URL with trailing slashes removed, the email, the token, the worklog user defaulting to the email, and the version defaulting to "3"; email, token, worklog user and version are non-empty |
| Config.RequiredSettings | jira_time_entries_export.py:75-85 | base URL, email and token are checked in that order, and loading succeeds iff all three are given |
| Config.RequiredIffGiven | jira_time_entries_export.py:56-67 | a setting without a default is truthy iff the environment or the config file gives it |
| Config.WorklogUserDefaultsToEmail | jira_time_entries_export.py:87-92 | without a worklog-user setting, the worklog user is the email |
| Config.ApiVersionDefaultsTo3 | jira_time_entries_export.py:78 | without an API-version setting, the version is "3" |
| Config.EnvironmentWins | jira_time_entries_export.py:62-64 | a non-blank `JIRA_EMAIL` overrides the config file, stripped |
| Config.BaseUrlTrailingSlashes | jira_time_entries_export.py:97 | `rstrip("/")` removes any number of trailing slashes and nothing else |
| Config.ConfigFileExample | tests/test_jira_time_entries_export.py:171-195 | the test's config file loads with the trailing slash removed and the other values as written |
| Aggregator.ToRow | jira_time_entries_export.py:224-231 | a row carries the issue key, the seconds (0 when absent), the author name chosen by `ExtractAuthorName` and the parsed `started` date |
| Aggregator.Select | jira_time_entries_export.py:222-231 | an issue never gives more rows than records |
| Aggregator.AppendIssueRows | jira_time_entries_export.py:219-232 | the inner loop appends exactly the rows `Select` gives, in API order |
| Aggregator.FetchTimeEntries | jira_time_entries_export.py:208-242 | the loop over issues returns exactly `FetchSpec`: the rows and 404 skips, or the first fatal error |
| Aggregator.SelectAppend | jira_time_entries_export.py:219-232 | filtering distributes over concatenation, so rows keep the API order |
| Aggregator.SelectSingle | jira_time_entries_export.py:222-231 | one record gives its row iff it passes both filters |
| Aggregator.SelectSound | jira_time_entries_export.py:222-231 | every row comes from a record of the issue that passed both filters |
| Aggregator.SelectComplete | jira_time_entries_export.py:222-231 | every record that passes both filters gives a row |
| Aggregator.ChainAssociative | jira_time_entries_export.py:215-242 | combining per-issue results is associative |
| Aggregator.FetchAppend | jira_time_entries_export.py:215-242 | processing `k1 + k2` is processing `k1`, then `k2` |
| Aggregator.FetchSingle | jira_time_entries_export.py:215-242 | one key gives that issue's own result |
| Aggregator.NotFoundSkipsIssue | jira_time_entries_export.py:233-239 | a 404 keeps the issue's earlier rows, records the skip and goes on with the next keys |
| Aggregator.FatalErrorAborts | jira_time_entries_export.py:233-240 | any other failure aborts the call with that error, whatever the later keys |
| Aggregator.FailsIffSomeIssueFatal | jira_time_entries_export.py:215-242 | the call fails iff some requested issue fails fatally, and reports the first such failure |
| Aggregator.RowsTraceToRequests | jira_time_entries_export.py:215-242 | every row's key was requested, and the row comes from an accepted record of that issue |
| Aggregator.SkippedWereRequested | jira_time_entries_export.py:233-239 | every skipped key was requested and answered 404 |
| Aggregator.RepeatedKeys | jira_time_entries_export.py:217 | a repeated key list gives every row and every skip twice |
| Cli.KeepKeys | jira_time_entries_export.py:246 | the kept keys are non-empty and stripped, and never more than the pieces |
| Cli.KeepKeysSingle | jira_time_entries_export.py:246 | one piece gives its stripped text when that is not empty, and nothing otherwise |
| Cli.KeepKeysAppend | jira_time_entries_export.py:246 | each piece is kept or dropped on its own, in input order |
| Cli.KeptKeysCommaFree | jira_time_entries_export.py:246 | stripping comma-free pieces keeps them comma-free |
| Cli.ParseIssueKeys | jira_time_entries_export.py:245-246 | every parsed key is non-empty, stripped and comma-free |
| Cli.ParseJoinedPieces | jira_time_entries_export.py:245-246 | comma-free pieces joined with commas parse to exactly their stripped non-blank pieces, in order |
| Cli.KeepCleanKeys | jira_time_entries_export.py:246 | keys that are already clean are all kept unchanged |
| Cli.IssueKeysRoundTrip | jira_time_entries_export.py:245-246 | clean keys joined with commas are parsed back in order, repeats kept |
| Cli.ParseDateArg | jira_time_entries_export.py:171-177 | absent or empty means no bound; a date is valid and is exactly the argument's text; any other text is a `BadDate` for that argument |
| Cli.ParseDateArgAccepts | jira_time_entries_export.py:171-177 | every valid date written as `YYYY-MM-DD` is accepted as that date |
| Cli.ConfigValues | jira_time_entries_export.py:71-73 | only an unreadable config file is an error; no file means no values; a read file's `[jira]` values are passed on unchanged |
| Cli.Prepare | jira_time_entries_export.py:315-350 | a prepared job holds the loaded config with `--user` applied, the keys parsed from `--issues` (at least one, all clean) and the dates parsed from `--startdate` and `--enddate`, start on or before end |
| Cli.PrepareErrorOrder | jira_time_entries_export.py:318-350 | each configuration error is reported exactly when every earlier check passes and its own fails, and a job is prepared exactly when all pass |
| Cli.PrepareSettingsErrors | jira_time_entries_export.py:319-323 | an unreadable file or a missing setting is the error reported |
| Cli.PrepareDateErrors | jira_time_entries_export.py:334-339 | once the settings load, a bad `--startdate` is reported before a bad `--enddate` |
| Cli.PrepareLateChecks | jira_time_entries_export.py:341-348 | once both dates parse, their order is checked before the issue keys |
| Cli.UserOverride | jira_time_entries_export.py:325-332 | a non-empty `--user` replaces only the worklog user; otherwise the loaded config is used |
| Cli.Run | jira_time_entries_export.py:315-358 | exit 2 iff a check fails, 1 iff the fetch fails, otherwise 0 with the fetched rows written |
| Scenarios.SelectMiddleTwo | jira_time_entries_export.py:219-232 | of four records, when only the middle two pass, exactly their rows remain |
| Scenarios.JanuaryStampParses | tests/test_jira_time_entries_export.py:106-151 | each `started` value of the date-range test parses to its day, in either format |
| Scenarios.JanuaryRecord | tests/test_jira_time_entries_export.py:106-151 | a record of that test passes the 2–3 January range iff it is dated the 2nd or 3rd |
| Scenarios.DateRangeExample | tests/test_jira_time_entries_export.py:106-151 | records dated 1 to 4 January with range 2–3 January give exactly the middle two rows |
| Scenarios.TwoIssues | jira_time_entries_export.py:215-242 | two issues that end without error give their rows in key order and no skips |
| Scenarios.UserFilterExample | tests/test_jira_time_entries_export.py:69-103 | another author's record is dropped, and the target user's rows come in issue order |

## Left out

- HTTP transport: `_jira_get_json`, the URL, the query parameters, the `maxResults` of 100 and the Basic auth header (`_build_auth_header`) are not modelled. A request is reduced to its outcome: a page, an HTTP status, or a network failure.
- `_read_config_file` and file I/O: the `[jira]` section is an input map. A missing file or a missing section is one `UnreadableFile` outcome. The per-value `strip()` that reading applies is not modelled.
- `write_csv`, `build_parser` and argparse: `Cli.Run` returns the rows handed to `write_csv` and the exit code. Printed messages, the CSV format and the output path are not modelled.
- Aggregator.Row: the `hours` column, `round(seconds / 3600, 2)`, is left out because it is floating point.
- Worklogs.SecondsOf: the model takes `timeSpentSeconds` as an optional integer. It does not model `int()` coercion of strings or floats, nor the exception `int()` raises on other values.
- Worklogs.MatchesUser: author fields are modelled as optional strings. Python would also compare non-string JSON values, which never equal the string user.
- Dates.ParseStarted: the model accepts a strict subset of what `strptime` accepts. Fields must be zero-padded two-digit ASCII. The fraction has 1 to 6 digits. The zone is `+HHMM` or `-HHMM`. Also accepted by `strptime` but not by the model: single-digit months, days, hours, minutes and seconds; space-padded days such as `" 5"`; a lowercase `t` separator; a `Z` zone; `+HH:MM`, `+HHMMSS[.ffffff]` and `+HH:MM:SS` zones; and non-ASCII digits.
- Cli.ParseDateArg: the same strict `YYYY-MM-DD` grammar. `strptime` also accepts single-digit months and days such as `2024-1-5`, and space-padded days such as `2024-01- 5`.
- Paginator.Walk: the model requires the service to report totals bounded by a fixed number at every offset. A service that keeps reporting ever larger totals beside non-empty pages makes the source loop for ever, which a terminating model cannot express. The bound also rules out services whose totals are unbounded only at offsets a walk never reaches. The source terminates on those, and they agree with a bounded service on every offset a walk does reach, so no behaviour of a terminating walk is lost.
- Paginator.IterWorklogs: the lazy generator is drained into a list up to the request that fails. The consumer has no other effect between records, so the rows are the same.
- Aggregator.FetchTimeEntries: the 404 warnings go to the `skipped` list of the result. The source prints them to standard error as it goes, so a warning printed before a later fatal error is visible there but absent from the model's error result.
- Aggregator.AppendIssueRows: the inner loop of `fetch_time_entries` is a separate method, so that each loop has its own invariant. The source has it inline.
- Text.IsSpace: `str.strip()` is modelled with Python's whitespace code points. Nothing else of Unicode (normalisation, case) is involved.
