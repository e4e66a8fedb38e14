/** Calendar dates, the `%Y-%m-%d` text form, the two accepted forms of a
    worklog's `started` timestamp, and the inclusive date-range filter. */
module Dates {
  import opened Types

  /** A `datetime.date`; `ValidDate` is what its constructor accepts. */
  datatype Date = Date(year: int, month: int, day: int)

  predicate IsLeapYear(y: int)
  {
    y % 4 == 0 && (y % 100 != 0 || y % 400 == 0)
  }

  function DaysInMonth(y: int, m: int): int
    requires 1 <= m <= 12
  {
    if m == 2 then (if IsLeapYear(y) then 29 else 28)
    else if m == 4 || m == 6 || m == 9 || m == 11 then 30
    else 31
  }

  predicate ValidDate(d: Date)
  {
    1 <= d.year <= 9999 && 1 <= d.month <= 12 && 1 <= d.day <= DaysInMonth(d.year, d.month)
  }

  /** `a < b` on dates: year, then month, then day. */
  predicate Before(a: Date, b: Date)
  {
    a.year < b.year
    || (a.year == b.year && a.month < b.month)
    || (a.year == b.year && a.month == b.month && a.day < b.day)
  }

  /** `a <= b` on dates. */
  predicate OnOrBefore(a: Date, b: Date)
  {
    a == b || Before(a, b)
  }

  /** `OnOrBefore` is a total order, so a range check by `<` and `>` agrees
      with one by `<=`. */
  lemma OnOrBeforeTotalOrder(a: Date, b: Date, c: Date)
    ensures OnOrBefore(a, a)
    ensures OnOrBefore(a, b) && OnOrBefore(b, a) ==> a == b
    ensures OnOrBefore(a, b) && OnOrBefore(b, c) ==> OnOrBefore(a, c)
    ensures OnOrBefore(a, b) <==> !Before(b, a)
  {
  }

  // ---- decimal digits ----

  predicate IsDigit(c: char)
  {
    '0' <= c <= '9'
  }

  predicate AllDigits(s: string)
  {
    forall i :: 0 <= i < |s| ==> IsDigit(s[i])
  }

  function Pow10(w: nat): (p: nat)
    ensures p >= 1
  {
    if w == 0 then 1 else 10 * Pow10(w - 1)
  }

  /** The value of a string of decimal digits (`int(s)`). */
  function NatOf(s: string): (n: nat)
    requires AllDigits(s)
    ensures n < Pow10(|s|)
    decreases |s|
  {
    if s == [] then 0
    else 10 * NatOf(s[..|s| - 1]) + (s[|s| - 1] - '0') as int
  }

  function DigitChar(d: nat): (c: char)
    requires d < 10
    ensures IsDigit(c) && (c - '0') as int == d
  {
    ('0' as int + d) as char
  }

  /** `n` written with exactly `w` digits, zero-padded (`%0wd`). */
  function Pad(n: nat, w: nat): (s: string)
    ensures |s| == w && AllDigits(s)
    decreases w
  {
    if w == 0 then [] else Pad(n / 10, w - 1) + [DigitChar(n % 10)]
  }

  lemma {:induction false} NatOfPad(n: nat, w: nat)
    requires n < Pow10(w)
    ensures NatOf(Pad(n, w)) == n
    decreases w
  {
    if w > 0 {
      var s := Pad(n, w);
      assert s[..w - 1] == Pad(n / 10, w - 1);
      NatOfPad(n / 10, w - 1);
    }
  }

  lemma {:induction false} PadNatOf(s: string)
    requires AllDigits(s)
    ensures Pad(NatOf(s), |s|) == s
    decreases |s|
  {
    if s != [] {
      var init := s[..|s| - 1];
      var d := (s[|s| - 1] - '0') as int;
      var n := 10 * NatOf(init) + d;
      assert n / 10 == NatOf(init) && n % 10 == d;
      PadNatOf(init);
      assert s == init + [s[|s| - 1]];
    }
  }

  // ---- the `%Y-%m-%d` form ----

  /** `date.isoformat()`: `YYYY-MM-DD`. */
  function IsoDate(d: Date): (s: string)
    requires ValidDate(d)
    ensures |s| == 10
  {
    Pad(d.year, 4) + "-" + Pad(d.month, 2) + "-" + Pad(d.day, 2)
  }

  predicate DateShaped(s: string)
  {
    |s| == 10 && AllDigits(s[..4]) && s[4] == '-' && AllDigits(s[5..7])
    && s[7] == '-' && AllDigits(s[8..])
  }

  /** `datetime.strptime(s, "%Y-%m-%d").date()` with zero-padded fields:
      `None` where strptime raises `ValueError`. */
  function ParseIsoDate(s: string): (r: Option<Date>)
    ensures r.Some? ==> ValidDate(r.value)
  {
    if !DateShaped(s) then None
    else
      var d := Date(NatOf(s[..4]), NatOf(s[5..7]), NatOf(s[8..]));
      if ValidDate(d) then Some(d) else None
  }

  /** Every valid date is read back from its ISO text. */
  lemma IsoDateRoundTrip(d: Date)
    requires ValidDate(d)
    ensures ParseIsoDate(IsoDate(d)) == Some(d)
  {
    var s := IsoDate(d);
    assert s[..4] == Pad(d.year, 4);
    assert s[5..7] == Pad(d.month, 2);
    assert s[8..] == Pad(d.day, 2);
    NatOfPad(d.year, 4);
    NatOfPad(d.month, 2);
    NatOfPad(d.day, 2);
  }

  /** The accepted text is exactly the ISO text of the date read: the strict
      grammar admits one spelling per date. */
  lemma ParseIsoDateExact(s: string)
    ensures ParseIsoDate(s).Some? ==> IsoDate(ParseIsoDate(s).value) == s
  {
    if ParseIsoDate(s).Some? {
      PadNatOf(s[..4]);
      PadNatOf(s[5..7]);
      PadNatOf(s[8..]);
      assert s == s[..4] + "-" + s[5..7] + "-" + s[8..];
    }
  }

  // ---- the `started` timestamp ----

  /** `%H:%M:%S` with two-digit fields inside the ranges `datetime` accepts. */
  predicate IsClock(s: string)
  {
    |s| == 8 && AllDigits(s[..2]) && s[2] == ':' && AllDigits(s[3..5]) && s[5] == ':'
    && AllDigits(s[6..]) && NatOf(s[..2]) <= 23 && NatOf(s[3..5]) <= 59 && NatOf(s[6..]) <= 59
  }

  /** `%f`: one to six digits. */
  predicate IsFraction(s: string)
  {
    1 <= |s| <= 6 && AllDigits(s)
  }

  /** `%z` as `+HHMM` or `-HHMM`, strictly less than a day. */
  predicate IsZone(s: string)
  {
    |s| == 5 && (s[0] == '+' || s[0] == '-') && AllDigits(s[1..])
    && NatOf(s[1..3]) <= 23 && NatOf(s[3..]) <= 59
  }

  /** The two formats tried on `started`, in the order they are tried. */
  datatype StartedFormat = FractionalSeconds | WholeSeconds

  const StartedFormats: seq<StartedFormat> := [FractionalSeconds, WholeSeconds]

  /** Everything after `YYYY-MM-DDTHH:MM:SS` that the format demands. */
  predicate TailMatches(f: StartedFormat, tail: string)
  {
    match f
    case WholeSeconds => IsZone(tail)
    case FractionalSeconds =>
      |tail| >= 7 && tail[0] == '.' && IsFraction(tail[1..|tail| - 5]) && IsZone(tail[|tail| - 5..])
  }

  /** `datetime.strptime(s, fmt).date()`; `None` where strptime raises. The
      date is the literal date part: `.date()` of an aware datetime keeps the
      local date and applies no zone shift. */
  function TryFormat(f: StartedFormat, s: string): (r: Option<Date>)
    ensures r.Some? ==> |s| >= 10 && ParseIsoDate(s[..10]) == r
  {
    if |s| < 19 || s[10] != 'T' || !IsClock(s[11..19]) || !TailMatches(f, s[19..]) then None
    else ParseIsoDate(s[..10])
  }

  /** The first attempt in `attempts` that succeeds decides the result. */
  function FirstSuccess<F, D>(attempts: seq<F>, attempt: F -> Option<D>): (r: Option<D>)
    ensures r.Some? <==> exists i :: 0 <= i < |attempts| && attempt(attempts[i]).Some?
    ensures r.Some? ==> exists i :: 0 <= i < |attempts| && attempt(attempts[i]) == r
                                    && forall j :: 0 <= j < i ==> attempt(attempts[j]).None?
    decreases |attempts|
  {
    if attempts == [] then None
    else
      match attempt(attempts[0])
      case Some(d) => Some(d)
      case None =>
        var r := FirstSuccess(attempts[1..], attempt);
        FirstSuccessStep(attempts, attempt, r);
        r
  }

  /** A failing first attempt passes the decision on to the later ones. */
  lemma FirstSuccessStep<F, D>(attempts: seq<F>, attempt: F -> Option<D>, r: Option<D>)
    requires attempts != [] && attempt(attempts[0]).None?
    requires r.Some? <==> exists i :: 0 <= i < |attempts[1..]| && attempt(attempts[1..][i]).Some?
    requires r.Some? ==> exists i :: 0 <= i < |attempts[1..]| && attempt(attempts[1..][i]) == r
                                     && forall j :: 0 <= j < i ==> attempt(attempts[1..][j]).None?
    ensures r.Some? <==> exists i :: 0 <= i < |attempts| && attempt(attempts[i]).Some?
    ensures r.Some? ==> exists i :: 0 <= i < |attempts| && attempt(attempts[i]) == r
                                    && forall j :: 0 <= j < i ==> attempt(attempts[j]).None?
  {
    var rest := attempts[1..];
    if r.Some? {
      var i :| 0 <= i < |rest| && attempt(rest[i]) == r && forall j :: 0 <= j < i ==> attempt(rest[j]).None?;
      assert attempts[i + 1] == rest[i];
      forall j | 0 <= j < i + 1 ensures attempt(attempts[j]).None? {
        if j > 0 { assert attempts[j] == rest[j - 1]; }
      }
    } else {
      forall i | 0 <= i < |attempts| ensures attempt(attempts[i]).None? {
        if i > 0 { assert attempts[i] == rest[i - 1]; }
      }
    }
  }

  /** `_parse_worklog_started_date`: an absent or empty value is `None`;
      otherwise the fractional-seconds form is tried, then the whole-seconds
      form, and the first that accepts gives the date part. */
  function ParseStarted(started: Option<string>): (r: Option<Date>)
    ensures started.None? || started == Some("") ==> r.None?
    ensures r.Some? ==> started.Some? && |started.value| >= 10 && ParseIsoDate(started.value[..10]) == r
  {
    match started
    case None => None
    case Some(s) => if s == [] then None else FirstSuccess(StartedFormats, f => TryFormat(f, s))
  }

  /** The date is the literal date part of the timestamp. */
  lemma ParseStartedDatePart(started: string)
    requires ParseStarted(Some(started)).Some?
    ensures ValidDate(ParseStarted(Some(started)).value)
    ensures IsoDate(ParseStarted(Some(started)).value) == started[..10]
  {
    ParseIsoDateExact(started[..10]);
  }

  /** A non-empty `started` yields a date exactly when one of the two formats
      accepts it. */
  lemma ParseStartedEitherFormat(s: string)
    requires s != ""
    ensures ParseStarted(Some(s)).Some? <==> TryFormat(FractionalSeconds, s).Some? || TryFormat(WholeSeconds, s).Some?
    ensures TryFormat(FractionalSeconds, s).Some? ==> ParseStarted(Some(s)) == TryFormat(FractionalSeconds, s)
  {
    var attempt := f => TryFormat(f, s);
    assert StartedFormats[0] == FractionalSeconds && StartedFormats[1] == WholeSeconds;
    assert attempt(FractionalSeconds) == TryFormat(FractionalSeconds, s);
    assert attempt(WholeSeconds) == TryFormat(WholeSeconds, s);
  }

  lemma ZonePrefix(d: Date, clock: string, rest: string, s: string)
    requires ValidDate(d) && IsClock(clock)
    requires s == IsoDate(d) + "T" + clock + rest
    ensures |s| >= 19 && s[..10] == IsoDate(d) && s[10] == 'T' && s[11..19] == clock && s[19..] == rest
  {
  }

  /** A timestamp in the fractional-seconds form yields its own date. */
  lemma StartedFractionalRoundTrip(d: Date, clock: string, fraction: string, zone: string)
    requires ValidDate(d) && IsClock(clock) && IsFraction(fraction) && IsZone(zone)
    ensures ParseStarted(Some(IsoDate(d) + "T" + clock + "." + fraction + zone)) == Some(d)
  {
    var s := IsoDate(d) + "T" + clock + "." + fraction + zone;
    var tail := "." + fraction + zone;
    ZonePrefix(d, clock, tail, s);
    assert tail[1..|tail| - 5] == fraction && tail[|tail| - 5..] == zone;
    assert TailMatches(FractionalSeconds, tail);
    IsoDateRoundTrip(d);
    assert TryFormat(FractionalSeconds, s) == Some(d);
  }

  /** A timestamp in the whole-seconds form yields its own date. */
  lemma StartedWholeRoundTrip(d: Date, clock: string, zone: string)
    requires ValidDate(d) && IsClock(clock) && IsZone(zone)
    ensures ParseStarted(Some(IsoDate(d) + "T" + clock + zone)) == Some(d)
  {
    var s := IsoDate(d) + "T" + clock + zone;
    ZonePrefix(d, clock, zone, s);
    IsoDateRoundTrip(d);
    assert TryFormat(WholeSeconds, s) == Some(d);
  }

  /** The whole-seconds format accepts only `YYYY-MM-DDTHH:MM:SS±HHMM`. */
  lemma WholeSecondsWellFormed(s: string, d: Date)
    requires TryFormat(WholeSeconds, s) == Some(d)
    ensures exists clock, zone :: IsClock(clock) && IsZone(zone) && s == IsoDate(d) + "T" + clock + zone
  {
    var clock, zone := s[11..19], s[19..];
    ParseIsoDateExact(s[..10]);
    assert s == s[..10] + "T" + clock + zone;
  }

  /** The fractional-seconds format accepts only
      `YYYY-MM-DDTHH:MM:SS.f±HHMM` with one to six fraction digits. */
  lemma FractionalSecondsWellFormed(s: string, d: Date)
    requires TryFormat(FractionalSeconds, s) == Some(d)
    ensures exists clock, fraction, zone :: IsClock(clock) && IsFraction(fraction) && IsZone(zone)
                                            && s == IsoDate(d) + "T" + clock + "." + fraction + zone
  {
    var clock, fraction, zone := s[11..19], s[20..|s| - 5], s[|s| - 5..];
    FractionalFields(s);
    ParseIsoDateExact(s[..10]);
    assert IsClock(clock) && IsFraction(fraction) && IsZone(zone)
           && s == IsoDate(d) + "T" + clock + "." + fraction + zone;
  }

  /** The fields the fractional-seconds format reads, at their places. */
  lemma FractionalFields(s: string)
    requires TryFormat(FractionalSeconds, s).Some?
    ensures |s| >= 26 && IsClock(s[11..19]) && IsFraction(s[20..|s| - 5]) && IsZone(s[|s| - 5..])
    ensures s == s[..10] + "T" + s[11..19] + "." + s[20..|s| - 5] + s[|s| - 5..]
  {
    var tail := s[19..];
    assert tail[1..|tail| - 5] == s[20..|s| - 5] && tail[|tail| - 5..] == s[|s| - 5..];
  }

  /** A `started` value yields a date only when it is written in one of the
      two formats, and the date is the one it spells. */
  lemma ParseStartedWellFormed(s: string, d: Date)
    requires ParseStarted(Some(s)) == Some(d)
    ensures (exists clock, fraction, zone :: IsClock(clock) && IsFraction(fraction) && IsZone(zone)
                                             && s == IsoDate(d) + "T" + clock + "." + fraction + zone)
            || (exists clock, zone :: IsClock(clock) && IsZone(zone) && s == IsoDate(d) + "T" + clock + zone)
  {
    ParseStartedEitherFormat(s);
    if TryFormat(FractionalSeconds, s).Some? {
      FractionalSecondsWellFormed(s, d);
    } else {
      WholeSecondsWellFormed(s, d);
    }
  }

  /** `_within_date_range`: with no bound every record passes; with a bound a
      record without a date fails; otherwise each present bound is inclusive. */
  function WithinDateRange(started: Option<Date>, start: Option<Date>, end: Option<Date>): (r: bool)
    ensures start.None? && end.None? ==> r
    ensures (start.Some? || end.Some?) && started.None? ==> !r
    ensures started.Some? ==>
              (r <==> (start.None? || OnOrBefore(start.value, started.value))
                      && (end.None? || OnOrBefore(started.value, end.value)))
  {
    if start.None? && end.None? then true
    else if started.None? then false
    else if start.Some? && Before(started.value, start.value) then false
    else if end.Some? && Before(end.value, started.value) then false
    else true
  }
}
