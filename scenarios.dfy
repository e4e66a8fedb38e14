/** The scenarios of the exporter's own tests, replayed on the model with
    the code's rows (without the hours column). */
module Scenarios {
  import opened Types
  import opened Dates
  import opened Worklogs
  import opened Paginator
  import opened Aggregator

  function Alice(seconds: int, started: Option<string>): Worklog
  {
    Worklog(Some(Author(Some("abc123"), None, Some("Alice"), None)), Some(seconds), started)
  }

  lemma ClockParts()
    ensures IsClock("08:00:00") && IsFraction("000") && IsZone("+0000")
  {
    var c := "08:00:00";
    assert c[..2] == "08" && c[3..5] == "00" && c[6..] == "00";
    var z := "+0000";
    assert z[1..] == "0000" && z[1..3] == "00" && z[3..] == "00";
    assert NatOf("08") == 8;
    assert NatOf("00") == 0;
  }

  /** A `started` value as Jira writes it with milliseconds, for a date whose
      ISO text is known. */
  lemma StartedAtFractional(d: Date, iso: string, started: string)
    requires ValidDate(d) && IsoDate(d) == iso && started == iso + "T" + "08:00:00" + "." + "000" + "+0000"
    ensures ParseStarted(Some(started)) == Some(d)
  {
    ClockParts();
    StartedFractionalRoundTrip(d, "08:00:00", "000", "+0000");
  }

  /** The same with whole seconds. */
  lemma StartedAtWhole(d: Date, iso: string, started: string)
    requires ValidDate(d) && IsoDate(d) == iso && started == iso + "T" + "08:00:00" + "+0000"
    ensures ParseStarted(Some(started)) == Some(d)
  {
    ClockParts();
    StartedWholeRoundTrip(d, "08:00:00", "+0000");
  }

  /** The ISO text of 2024-01-`day`, for a single-digit day. */
  lemma JanuaryDate(day: nat, dd: string)
    requires 1 <= day <= 9 && dd == Pad(day, 2)
    ensures ValidDate(Date(2024, 1, day)) && IsoDate(Date(2024, 1, day)) == "2024-01-" + dd
  {
    assert Pad(2024, 4) == "2024" && Pad(1, 2) == "01";
    assert "2024" + "-" + "01" + "-" + dd == "2024-01-" + dd;
  }

  lemma JanuaryDates()
    ensures ValidDate(Date(2024, 1, 1)) && IsoDate(Date(2024, 1, 1)) == "2024-01-01"
    ensures ValidDate(Date(2024, 1, 2)) && IsoDate(Date(2024, 1, 2)) == "2024-01-02"
    ensures ValidDate(Date(2024, 1, 3)) && IsoDate(Date(2024, 1, 3)) == "2024-01-03"
    ensures ValidDate(Date(2024, 1, 4)) && IsoDate(Date(2024, 1, 4)) == "2024-01-04"
  {
    assert Pad(1, 2) == "01" && Pad(2, 2) == "02" && Pad(3, 2) == "03" && Pad(4, 2) == "04";
    JanuaryDate(1, "01");
    JanuaryDate(2, "02");
    JanuaryDate(3, "03");
    JanuaryDate(4, "04");
    assert "2024-01-" + "01" == "2024-01-01" && "2024-01-" + "02" == "2024-01-02";
    assert "2024-01-" + "03" == "2024-01-03" && "2024-01-" + "04" == "2024-01-04";
  }

  /** The `started` values of the date-range scenario: 8 o'clock UTC on 1, 2,
      3 and 4 January 2024, the third written with whole seconds. */
  const JanuaryStamps := ["2024-01-01" + "T" + "08:00:00" + "." + "000" + "+0000",
                          "2024-01-02" + "T" + "08:00:00" + "." + "000" + "+0000",
                          "2024-01-03" + "T" + "08:00:00" + "+0000",
                          "2024-01-04" + "T" + "08:00:00" + "." + "000" + "+0000"]

  /** Each stamp parses to its own day, through either format. */
  lemma JanuaryStampParses(s: string, day: nat)
    requires 1 <= day <= 4 && s == JanuaryStamps[day - 1]
    ensures ParseStarted(Some(s)) == Some(Date(2024, 1, day))
  {
    JanuaryDates();
    if day == 1 {
      StartedAtFractional(Date(2024, 1, 1), "2024-01-01", s);
    } else if day == 2 {
      StartedAtFractional(Date(2024, 1, 2), "2024-01-02", s);
    } else if day == 3 {
      StartedAtWhole(Date(2024, 1, 3), "2024-01-03", s);
    } else {
      StartedAtFractional(Date(2024, 1, 4), "2024-01-04", s);
    }
  }

  /** The target user's records, whatever their date. */
  lemma AliceMatches(seconds: int, started: Option<string>)
    ensures MatchesUser(Alice(seconds, started), "abc123")
    ensures ExtractAuthorName(Alice(seconds, started)) == "Alice"
    ensures SecondsOf(Alice(seconds, started)) == seconds
  {
    var w := Alice(seconds, started);
    assert AuthorOf(w).accountId == Some("abc123");
  }

  /** Two records give the rows of those that pass both filters, in order. */
  lemma SelectTwo(user: string, key: string, start: Option<Date>, end: Option<Date>, w1: Worklog, w2: Worklog)
    ensures Select(user, key, [w1, w2], start, end)
            == Select(user, key, [w1], start, end) + Select(user, key, [w2], start, end)
  {
    SelectAppend(user, key, [w1], [w2], start, end);
    assert [w1] + [w2] == [w1, w2];
  }

  /** Of four records, the two middle ones pass both filters. */
  lemma SelectMiddleTwo(user: string, key: string, start: Option<Date>, end: Option<Date>,
                        w1: Worklog, w2: Worklog, w3: Worklog, w4: Worklog)
    requires !Accepts(user, w1, start, end) && Accepts(user, w2, start, end)
    requires Accepts(user, w3, start, end) && !Accepts(user, w4, start, end)
    ensures Select(user, key, [w1, w2, w3, w4], start, end) == [ToRow(key, w2), ToRow(key, w3)]
  {
    SelectAppend(user, key, [w1, w2], [w3, w4], start, end);
    assert [w1, w2] + [w3, w4] == [w1, w2, w3, w4];
    SelectTwo(user, key, start, end, w1, w2);
    SelectTwo(user, key, start, end, w3, w4);
    SelectSingle(user, key, w1, start, end);
    SelectSingle(user, key, w2, start, end);
    SelectSingle(user, key, w3, start, end);
    SelectSingle(user, key, w4, start, end);
  }

  /** The target user's record stamped on day `day` of January 2024 passes
      the filters of the range 2 to 3 January exactly for the middle days. */
  lemma JanuaryRecord(key: string, start: Option<Date>, end: Option<Date>, w: Worklog, seconds: int, day: nat)
    requires start == Some(Date(2024, 1, 2)) && end == Some(Date(2024, 1, 3))
    requires 1 <= day <= 4 && w == Alice(seconds, Some(JanuaryStamps[day - 1]))
    ensures Accepts("abc123", w, start, end) <==> 2 <= day <= 3
    ensures ToRow(key, w) == Row(key, seconds, "Alice", Some(Date(2024, 1, day)))
  {
    var date := Some(Date(2024, 1, day));
    JanuaryStampParses(w.started.value, day);
    assert ParseStarted(w.started) == date;
    AliceMatches(seconds, w.started);
    assert Accepts("abc123", w, start, end) == WithinDateRange(date, start, end);
    assert WithinDateRange(date, start, end) <==> 2 <= day <= 3;
  }

  /** Records of the target user dated 1 to 4 January 2024, with the range
      2 to 3 January: exactly the middle two become rows, in order. */
  lemma DateRangeExample(start: Option<Date>, end: Option<Date>, w1: Worklog, w2: Worklog, w3: Worklog, w4: Worklog)
    requires start == Some(Date(2024, 1, 2)) && end == Some(Date(2024, 1, 3))
    requires w1 == Alice(3600, Some(JanuaryStamps[0])) && w2 == Alice(1800, Some(JanuaryStamps[1]))
    requires w3 == Alice(1200, Some(JanuaryStamps[2])) && w4 == Alice(600, Some(JanuaryStamps[3]))
    ensures Select("abc123", "PROJ-1", [w1, w2, w3, w4], start, end)
            == [Row("PROJ-1", 1800, "Alice", start), Row("PROJ-1", 1200, "Alice", end)]
  {
    JanuaryRecord("PROJ-1", start, end, w1, 3600, 1);
    JanuaryRecord("PROJ-1", start, end, w2, 1800, 2);
    JanuaryRecord("PROJ-1", start, end, w3, 1200, 3);
    JanuaryRecord("PROJ-1", start, end, w4, 600, 4);
    SelectMiddleTwo("abc123", "PROJ-1", start, end, w1, w2, w3, w4);
  }

  // ---- filtering by user over two issues ----

  /** An issue answered by one final page whose records are all counted by `total`. */
  lemma SinglePage(svc: Service, key: string, ws: seq<Worklog>)
    requires svc.respond(key, 0) == Page(ws, Some(|ws|))
    ensures Walk(svc, key, 0) == Drained(ws, 1, None)
  {
  }

  /** Two issues that each end without error contribute their rows in key order. */
  lemma TwoIssues(svc: Service, user: string, k1: string, k2: string, start: Option<Date>, end: Option<Date>)
    requires Walk(svc, k1, 0).error.None? && Walk(svc, k2, 0).error.None?
    ensures FetchSpec(svc, user, [k1, k2], start, end)
            == Ok(Export(Select(user, k1, Walk(svc, k1, 0).records, start, end)
                         + Select(user, k2, Walk(svc, k2, 0).records, start, end), []))
  {
    FetchSingle(svc, user, k1, start, end);
    FetchSingle(svc, user, k2, start, end);
    FetchAppend(svc, user, [k1], [k2], start, end);
    assert [k1] + [k2] == [k1, k2];
  }

  /** PROJ-1 holds a record of the target user and one of another user,
      PROJ-2 one record of the target user with zero seconds: the other
      user's record is dropped and the rows follow the key order. */
  lemma UserFilterExample(svc: Service, alice1: Worklog, bob: Worklog, alice2: Worklog)
    requires alice1 == Alice(3600, None) && alice2 == Alice(0, None)
    requires bob == Worklog(Some(Author(Some("def456"), None, Some("Bob"), None)), Some(1800), None)
    requires svc.respond("PROJ-1", 0) == Page([alice1, bob], Some(2))
    requires svc.respond("PROJ-2", 0) == Page([alice2], Some(1))
    ensures FetchSpec(svc, "abc123", ["PROJ-1", "PROJ-2"], None, None)
            == Ok(Export([Row("PROJ-1", 3600, "Alice", None), Row("PROJ-2", 0, "Alice", None)], []))
  {
    SinglePage(svc, "PROJ-1", [alice1, bob]);
    SinglePage(svc, "PROJ-2", [alice2]);
    TwoIssues(svc, "abc123", "PROJ-1", "PROJ-2", None, None);
    AliceMatches(3600, None);
    AliceMatches(0, None);
    assert !MatchesUser(bob, "abc123");
    assert Accepts("abc123", alice1, None, None) && Accepts("abc123", alice2, None, None);
    SelectTwo("abc123", "PROJ-1", None, None, alice1, bob);
    SelectSingle("abc123", "PROJ-1", alice1, None, None);
    SelectSingle("abc123", "PROJ-1", bob, None, None);
    SelectSingle("abc123", "PROJ-2", alice2, None, None);
    assert ToRow("PROJ-1", alice1) == Row("PROJ-1", 3600, "Alice", None);
    assert ToRow("PROJ-2", alice2) == Row("PROJ-2", 0, "Alice", None);
    assert Walk(svc, "PROJ-1", 0).records == [alice1, bob];
    assert Select("abc123", "PROJ-1", [alice1, bob], None, None) + Select("abc123", "PROJ-2", [alice2], None, None)
           == [Row("PROJ-1", 3600, "Alice", None), Row("PROJ-2", 0, "Alice", None)];
  }
}
