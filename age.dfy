/** The age in days of an index whose name is a timestamp (`IndexInfo.age`):
    the name is matched against
    `^(\d+-\d+-\d+t\d+:\d+:\d+).(\d+z)$`, the first group is read with
    `strptime("%Y-%m-%dt%H:%M:%S")`, and the age is the `days` part of the
    time elapsed since then. The current time is a parameter. */
module IndexAge {
  import opened Wrappers
  import opened PyText
  import opened CatIndices

  // ---------------------------------------------------------------------
  // The proleptic Gregorian calendar of Python's `datetime`
  // ---------------------------------------------------------------------

  datatype DateTime = DateTime(year: int, month: int, day: int,
                               hour: int, minute: int, second: int, microsecond: int)

  predicate IsLeap(y: int) {
    y % 4 == 0 && (y % 100 != 0 || y % 400 == 0)
  }

  function DaysInMonth(y: int, m: int): (n: int)
    requires 1 <= m <= 12
    ensures 28 <= n <= 31
    ensures m == 2 ==> (n == 29 <==> IsLeap(y))
  {
    if m == 2 then (if IsLeap(y) then 29 else 28)
    else if m == 4 || m == 6 || m == 9 || m == 11 then 30
    else 31
  }

  /** The values `datetime` accepts (years 1 to 9999). */
  predicate ValidDateTime(dt: DateTime) {
    1 <= dt.year <= 9999 && 1 <= dt.month <= 12 && 1 <= dt.day <= DaysInMonth(dt.year, dt.month) &&
    0 <= dt.hour < 24 && 0 <= dt.minute < 60 && 0 <= dt.second < 60 &&
    0 <= dt.microsecond < 1000000
  }

  function DaysBeforeYear(y: int): int
    requires y >= 1
  {
    var p := y - 1;
    p * 365 + p / 4 - p / 100 + p / 400
  }

  function DaysBeforeMonth(y: int, m: int): int
    requires 1 <= m <= 13
  {
    if m == 1 then 0 else DaysBeforeMonth(y, m - 1) + DaysInMonth(y, m - 1)
  }

  /** `date.toordinal()`: 1 for January 1 of year 1. */
  function Ordinal(dt: DateTime): int
    requires ValidDateTime(dt)
  {
    DaysBeforeYear(dt.year) + DaysBeforeMonth(dt.year, dt.month) + dt.day
  }

  const MicrosPerDay: int := 86400000000

  /** Microseconds since the start of the ordinal day 0. */
  function Instant(dt: DateTime): int
    requires ValidDateTime(dt)
  {
    (((Ordinal(dt) * 24 + dt.hour) * 60 + dt.minute) * 60 + dt.second) * 1000000 + dt.microsecond
  }

  /** `(later - earlier).days`: a `timedelta` keeps its seconds and
      microseconds non-negative, so `days` is the floor of the difference in
      days. */
  function DaysBetween(earlier: DateTime, later: DateTime): (d: int)
    requires ValidDateTime(earlier) && ValidDateTime(later)
    ensures d * MicrosPerDay <= Instant(later) - Instant(earlier) < (d + 1) * MicrosPerDay
  {
    (Instant(later) - Instant(earlier)) / MicrosPerDay
  }

  /** A year has 366 days when it is a leap year and 365 otherwise. */
  lemma YearLength(y: int)
    requires y >= 1
    ensures DaysBeforeYear(y + 1) - DaysBeforeYear(y) == if IsLeap(y) then 366 else 365
  {
    var p := y - 1;
    var a, b, c := (p + 1) / 4 - p / 4, (p + 1) / 100 - p / 100, (p + 1) / 400 - p / 400;
    assert DaysBeforeYear(y + 1) - DaysBeforeYear(y) == 365 + a - b + c;
    Step4(p);
    Step100(p);
    Step400(p);
    assert p + 1 == y;
    if y % 400 == 0 {
      Multiple400(y);
    } else if y % 100 == 0 {
      Multiple100(y);
    }
  }

  lemma Multiple400(y: int)
    requires y % 400 == 0
    ensures y % 100 == 0 && y % 4 == 0
  {
    var q := y / 400;
    assert y == 100 * (4 * q);
    assert y == 4 * (100 * q);
  }

  lemma Multiple100(y: int)
    requires y % 100 == 0
    ensures y % 4 == 0
  {
    var q := y / 100;
    assert y == 4 * (25 * q);
  }

  /** The quotients by 4, 100 and 400 grow by one exactly at a multiple. */
  lemma Step4(p: int)
    requires p >= 0
    ensures (p + 1) / 4 - p / 4 == if (p + 1) % 4 == 0 then 1 else 0
  {
    var q, r := p / 4, p % 4;
    assert p == 4 * q + r;
    if r == 3 {
      assert p + 1 == 4 * (q + 1) + 0;
    } else {
      assert p + 1 == 4 * q + (r + 1);
    }
  }

  lemma Step100(p: int)
    requires p >= 0
    ensures (p + 1) / 100 - p / 100 == if (p + 1) % 100 == 0 then 1 else 0
  {
    var q, r := p / 100, p % 100;
    assert p == 100 * q + r;
    if r == 99 {
      assert p + 1 == 100 * (q + 1) + 0;
    } else {
      assert p + 1 == 100 * q + (r + 1);
    }
  }

  lemma Step400(p: int)
    requires p >= 0
    ensures (p + 1) / 400 - p / 400 == if (p + 1) % 400 == 0 then 1 else 0
  {
    var q, r := p / 400, p % 400;
    assert p == 400 * q + r;
    if r == 399 {
      assert p + 1 == 400 * (q + 1) + 0;
    } else {
      assert p + 1 == 400 * q + (r + 1);
    }
  }

  lemma MonthsOfYear(y: int)
    ensures DaysBeforeMonth(y, 13) == if IsLeap(y) then 366 else 365
  {
    var f := if IsLeap(y) then 1 else 0;
    assert DaysBeforeMonth(y, 2) == 31;
    assert DaysBeforeMonth(y, 3) == 59 + f;
    assert DaysBeforeMonth(y, 4) == 90 + f;
    assert DaysBeforeMonth(y, 5) == 120 + f;
    assert DaysBeforeMonth(y, 6) == 151 + f;
    assert DaysBeforeMonth(y, 7) == 181 + f;
    assert DaysBeforeMonth(y, 8) == 212 + f;
    assert DaysBeforeMonth(y, 9) == 243 + f;
    assert DaysBeforeMonth(y, 10) == 273 + f;
    assert DaysBeforeMonth(y, 11) == 304 + f;
    assert DaysBeforeMonth(y, 12) == 334 + f;
  }

  lemma {:induction false} MonthsNonNegative(y: int, m: int)
    requires 1 <= m <= 13
    ensures DaysBeforeMonth(y, m) >= 0
  {
    if m > 1 {
      MonthsNonNegative(y, m - 1);
    }
  }

  /** Every valid date lies on or after ordinal day 1. */
  lemma OrdinalPositive(dt: DateTime)
    requires ValidDateTime(dt)
    ensures Ordinal(dt) >= 1
  {
    MonthsNonNegative(dt.year, dt.month);
  }

  /** The calendar day before `dt`, at the same time of day
      (`dt - timedelta(days=1)`). */
  function PrevDay(dt: DateTime): (r: DateTime)
    requires ValidDateTime(dt) && Ordinal(dt) > 1
    ensures ValidDateTime(r) && Ordinal(r) == Ordinal(dt) - 1
    ensures r.hour == dt.hour && r.minute == dt.minute && r.second == dt.second
    ensures r.microsecond == dt.microsecond
  {
    if dt.day > 1 then dt.(day := dt.day - 1)
    else if dt.month > 1 then dt.(month := dt.month - 1, day := DaysInMonth(dt.year, dt.month - 1))
    else
      YearLength(dt.year - 1);
      MonthsOfYear(dt.year - 1);
      dt.(year := dt.year - 1, month := 12, day := 31)
  }

  /** `dt - timedelta(days=k)`. */
  function DaysBack(dt: DateTime, k: nat): (r: DateTime)
    requires ValidDateTime(dt) && Ordinal(dt) > k
    ensures ValidDateTime(r) && Ordinal(r) == Ordinal(dt) - k
    ensures r.hour == dt.hour && r.minute == dt.minute && r.second == dt.second
    ensures r.microsecond == dt.microsecond
  {
    if k == 0 then dt else PrevDay(DaysBack(dt, k - 1))
  }

  // ---------------------------------------------------------------------
  // The regular expression `^(\d+-\d+-\d+t\d+:\d+:\d+).(\d+z)$`
  // ---------------------------------------------------------------------

  /** The six digit runs of the first group. */
  datatype Stamp = Stamp(year: string, month: string, day: string,
                         hour: string, minute: string, second: string)

  predicate Run(s: string) {
    s != [] && AllDigits(s)
  }

  predicate StampDigits(st: Stamp) {
    Run(st.year) && Run(st.month) && Run(st.day) && Run(st.hour) && Run(st.minute) && Run(st.second)
  }

  /** `d`, then the character `sep`, then `rest`. */
  function Then(d: string, sep: char, rest: string): string {
    d + [sep] + rest
  }

  /** `z` at the end of the text, or before the one final newline `$`
      accepts. */
  function ZEnd(nl: bool): string {
    if nl then "z\n" else "z"
  }

  /** The text the pattern describes, given its pieces: the six digit runs
      with their separators, the character the unescaped `.` matches, the
      millisecond digits and the end. */
  function PatternText(st: Stamp, c: char, ms: string, nl: bool): string {
    Then(st.year, '-', Then(st.month, '-', Then(st.day, 't', Then(st.hour, ':', Then(st.minute, ':',
      Then(st.second, c, ms + ZEnd(nl)))))))
  }

  /** `name` spells the pattern with these pieces: every run is a non-empty
      run of digits and the `.` matched anything but a newline. */
  predicate Spells(name: string, st: Stamp, c: char, ms: string, nl: bool) {
    StampDigits(st) && Run(ms) && c != '\n' && name == PatternText(st, c, ms, nl)
  }

  /** Length of the run of digits that starts `s`. */
  function LeadingDigits(s: string): (n: nat)
    ensures n <= |s| && AllDigits(s[..n]) && (n < |s| ==> !IsDigit(s[n]))
  {
    if s == [] || !IsDigit(s[0]) then 0
    else
      var n := 1 + LeadingDigits(s[1..]);
      assert s[..n] == [s[0]] + s[1..][..n - 1];
      n
  }

  /** Length of the run of digits that ends `s`. */
  function TrailingDigits(s: string): (n: nat)
    ensures n <= |s| && AllDigits(s[|s| - n..]) && (n < |s| ==> !IsDigit(s[|s| - n - 1]))
  {
    if s == [] || !IsDigit(s[|s| - 1]) then 0
    else
      var t := s[..|s| - 1];
      var m := TrailingDigits(t);
      assert s[|s| - (m + 1)..] == t[|t| - m..] + [s[|s| - 1]];
      DigitsThenDigit(t[|t| - m..], s[|s| - 1]);
      m + 1
  }

  lemma DigitsThenDigit(d: string, c: char)
    requires AllDigits(d) && IsDigit(c)
    ensures AllDigits(d + [c])
  {
  }

  /** `\d+` followed by the literal `sep`: a digit run can stop only where
      the digits stop, so the run is the whole leading run. */
  function Field(s: string, sep: char): Option<(string, string)> {
    var n := LeadingDigits(s);
    if 1 <= n < |s| && s[n] == sep then Some((s[..n], s[n + 1..])) else None
  }

  /** `z$` at the end of `t`: the text before the `z`, which must be the
      last character or be followed only by a final newline. */
  function BeforeZ(t: string): Option<string> {
    if |t| >= 2 && t[|t| - 1] == '\n' && t[|t| - 2] == 'z' then Some(t[..|t| - 2])
    else if |t| >= 1 && t[|t| - 1] == 'z' then Some(t[..|t| - 1])
    else None
  }

  /** `\d+.\d+` on all of `u`, giving the first digit run. The backtracking
      matcher keeps the longest first run that still lets the rest match:
      when `u` is all digits the `.` takes the next-to-last one. */
  function SecondsRun(u: string): Option<string> {
    var g := TrailingDigits(u);
    if g == |u| then (if |u| >= 3 then Some(u[..|u| - 2]) else None)
    else if g >= 1 && |u| - g - 1 >= 1 && u[|u| - g - 1] != '\n' && AllDigits(u[..|u| - g - 1])
    then Some(u[..|u| - g - 1])
    else None
  }

  /** `re.match` of the pattern: the digit runs of the first group, or
      `None` when the name does not match. */
  function MatchStamp(name: string): (m: Option<Stamp>)
    ensures m.Some? ==> StampDigits(m.value)
  {
    var f1 := Field(name, '-');
    if f1.None? then None else
    var f2 := Field(f1.value.1, '-');
    if f2.None? then None else
    var f3 := Field(f2.value.1, 't');
    if f3.None? then None else
    var f4 := Field(f3.value.1, ':');
    if f4.None? then None else
    var f5 := Field(f4.value.1, ':');
    if f5.None? then None else
    var u := BeforeZ(f5.value.1);
    if u.None? then None else
    var sec := SecondsRun(u.value);
    if sec.None? then None
    else Some(Stamp(f1.value.0, f2.value.0, f3.value.0, f4.value.0, f5.value.0, sec.value))
  }

  // ---------------------------------------------------------------------
  // strptime("%Y-%m-%dt%H:%M:%S") and the datetime range checks
  // ---------------------------------------------------------------------

  /** `%Y` is exactly four digits. */
  predicate YearText(f: string) requires AllDigits(f) {
    |f| == 4
  }

  /** `%m` is `1[0-2]|0[1-9]|[1-9]`. */
  predicate MonthText(f: string) requires AllDigits(f) {
    (|f| == 1 && DigitsValue(f) >= 1) || (|f| == 2 && 1 <= DigitsValue(f) <= 12)
  }

  /** `%d` is `3[01]|[12]\d|0[1-9]|[1-9]`. */
  predicate DayText(f: string) requires AllDigits(f) {
    (|f| == 1 && DigitsValue(f) >= 1) || (|f| == 2 && 1 <= DigitsValue(f) <= 31)
  }

  /** `%H` is `2[0-3]|[0-1]\d|\d`. */
  predicate HourText(f: string) requires AllDigits(f) {
    |f| == 1 || (|f| == 2 && DigitsValue(f) <= 23)
  }

  /** `%M` is `[0-5]\d|\d`. */
  predicate MinuteText(f: string) requires AllDigits(f) {
    |f| == 1 || (|f| == 2 && DigitsValue(f) <= 59)
  }

  /** `%S` is `6[0-1]|[0-5]\d|\d`, and no text may remain after it. */
  predicate SecondText(f: string) requires AllDigits(f) {
    |f| == 1 || (|f| == 2 && DigitsValue(f) <= 61)
  }

  /** The parsed time, or `None` where `strptime` raises `ValueError`: a
      field its directive does not accept, year 0, a day past the end of its
      month, or a second of 60 or 61, which `datetime` refuses. */
  function StrpTime(st: Stamp): (r: Option<DateTime>)
    requires StampDigits(st)
    ensures r.Some? ==> ValidDateTime(r.value) && r.value.microsecond == 0
    ensures r.Some? ==> r.value.year == DigitsValue(st.year) && r.value.month == DigitsValue(st.month) &&
                        r.value.day == DigitsValue(st.day) && r.value.hour == DigitsValue(st.hour) &&
                        r.value.minute == DigitsValue(st.minute) && r.value.second == DigitsValue(st.second)
  {
    var y, mo, d := DigitsValue(st.year), DigitsValue(st.month), DigitsValue(st.day);
    var h, mi, s := DigitsValue(st.hour), DigitsValue(st.minute), DigitsValue(st.second);
    DigitsBound(st.year);
    DigitsBound(st.month);
    DigitsBound(st.hour);
    DigitsBound(st.minute);
    if YearText(st.year) && MonthText(st.month) && DayText(st.day) &&
       HourText(st.hour) && MinuteText(st.minute) && SecondText(st.second) &&
       1 <= y && d <= DaysInMonth(y, mo) && s <= 59
    then
      Some(DateTime(y, mo, d, h, mi, s, 0))
    else None
  }

  /** The converse of `StrpTime`'s contract: fields that match their
      directives and name a real date and time are accepted, with the
      values they spell. Unpadded fields such as `1` for January count. */
  lemma StrpTimeAccepts(st: Stamp)
    requires StampDigits(st)
    requires YearText(st.year) && MonthText(st.month) && DayText(st.day)
    requires HourText(st.hour) && MinuteText(st.minute) && SecondText(st.second)
    requires ValidDateTime(DateTime(DigitsValue(st.year), DigitsValue(st.month), DigitsValue(st.day),
                                    DigitsValue(st.hour), DigitsValue(st.minute), DigitsValue(st.second), 0))
    ensures StrpTime(st) ==
      Some(DateTime(DigitsValue(st.year), DigitsValue(st.month), DigitsValue(st.day),
                    DigitsValue(st.hour), DigitsValue(st.minute), DigitsValue(st.second), 0))
  {
  }

  /** `2015-1-5t1:2:3`: every field but the year unpadded. */
  lemma StrpTimeUnpadded()
    ensures StampDigits(Stamp("2015", "1", "5", "1", "2", "3"))
    ensures StrpTime(Stamp("2015", "1", "5", "1", "2", "3")) == Some(DateTime(2015, 1, 5, 1, 2, 3, 0))
  {
    var st := Stamp("2015", "1", "5", "1", "2", "3");
    assert DigitsValue("2015") == 2015 by {
      assert "2015"[..3] == "201" && "201"[..2] == "20" && "20"[..1] == "2" && "2"[..0] == "";
    }
    assert DigitsValue("1") == 1 && DigitsValue("2") == 2 &&
           DigitsValue("3") == 3 && DigitsValue("5") == 5 by {
      assert "1"[..0] == "" && "2"[..0] == "" && "3"[..0] == "" && "5"[..0] == "";
    }
    StrpTimeAccepts(st);
  }

  function Pow10(k: nat): (p: nat)
    ensures p >= 1
  {
    if k == 0 then 1 else 10 * Pow10(k - 1)
  }

  lemma {:induction false} DigitsBound(s: string)
    requires AllDigits(s)
    ensures DigitsValue(s) < Pow10(|s|)
  {
    if s != [] {
      DigitsBound(s[..|s| - 1]);
    }
  }

  // ---------------------------------------------------------------------
  // IndexInfo.age
  // ---------------------------------------------------------------------

  datatype AgeError =
    | IndexIsNone     // `re.match` raises `TypeError` on `None`
    | BadTime(stamp: Stamp)  // `strptime` raises `ValueError`

  /** `IndexInfo(info).age` at the moment `now`. */
  function Age(info: IndexLine, now: DateTime): (r: Result<int, AgeError>)
    requires ValidDateTime(now)
    ensures r == Err(IndexIsNone) <==> info.index.None?
    ensures r.Err? && r.error.BadTime? ==> MatchStamp(info.index.value) == Some(r.error.stamp)
  {
    match info.index
    case None => Err(IndexIsNone)
    case Some(name) =>
      match MatchStamp(name)
      case None => Ok(-1)
      case Some(st) =>
        match StrpTime(st)
        case None => Err(BadTime(st))
        case Some(date) => Ok(DaysBetween(date, now))
  }

  // ---------------------------------------------------------------------
  // The matcher agrees with the pattern
  // ---------------------------------------------------------------------

  lemma {:induction false} LeadingRun(d: string, x: char, rest: string)
    requires AllDigits(d) && !IsDigit(x)
    ensures LeadingDigits(d + [x] + rest) == |d|
  {
    var s := d + [x] + rest;
    if d != [] {
      assert s[1..] == d[1..] + [x] + rest;
      LeadingRun(d[1..], x, rest);
    }
  }

  lemma {:induction false} TrailingRun(a: string, x: char, d: string)
    requires AllDigits(d) && !IsDigit(x)
    ensures TrailingDigits(a + [x] + d) == |d|
  {
    var s := a + [x] + d;
    if d != [] {
      assert s[..|s| - 1] == a + [x] + d[..|d| - 1];
      TrailingRun(a, x, d[..|d| - 1]);
    }
  }

  lemma ThenAppend(d: string, sep: char, r: string, t: string)
    ensures Then(d, sep, r) + t == Then(d, sep, r + t)
  {
  }

  lemma FieldOf(d: string, sep: char, rest: string)
    requires Run(d) && !IsDigit(sep)
    ensures Field(Then(d, sep, rest), sep) == Some((d, rest))
  {
    LeadingRun(d, sep, rest);
    var s := d + [sep] + rest;
    assert s[..|d|] == d && s[|d| + 1..] == rest;
  }

  lemma FieldSplits(s: string, sep: char)
    requires Field(s, sep).Some?
    ensures Run(Field(s, sep).value.0)
    ensures s == Then(Field(s, sep).value.0, sep, Field(s, sep).value.1)
  {
    var n := LeadingDigits(s);
    assert s == s[..n] + [s[n]] + s[n + 1..];
  }

  lemma BeforeZOf(u: string, nl: bool)
    ensures BeforeZ(u + ZEnd(nl)) == Some(u)
  {
    var t := u + ZEnd(nl);
    if nl {
      assert t[..|t| - 2] == u;
    } else {
      assert t[..|t| - 1] == u;
    }
  }

  lemma BeforeZSplits(t: string) returns (nl: bool)
    requires BeforeZ(t).Some?
    ensures t == BeforeZ(t).value + ZEnd(nl)
  {
    nl := |t| >= 2 && t[|t| - 1] == '\n' && t[|t| - 2] == 'z';
    if nl {
      assert t == t[..|t| - 2] + "z\n";
    } else {
      assert t == t[..|t| - 1] + "z";
    }
  }

  /** What the seconds part accepts, and which first run it keeps. */
  lemma SecondsRunOf(sec: string, c: char, ms: string)
    requires Run(sec) && Run(ms) && c != '\n'
    ensures var m := SecondsRun(Then(sec, c, ms));
      m.Some? && |m.value| >= |sec| && (!IsDigit(c) ==> m.value == sec)
  {
    var u := sec + [c] + ms;
    if IsDigit(c) {
      assert AllDigits(u);
      assert TrailingDigits(u) == |u|;
    } else {
      TrailingRun(sec, c, ms);
      assert u[..|u| - |ms| - 1] == sec;
    }
  }

  lemma SecondsRunSplits(u: string) returns (c: char, ms: string)
    requires SecondsRun(u).Some?
    ensures Run(SecondsRun(u).value) && Run(ms) && c != '\n'
    ensures u == Then(SecondsRun(u).value, c, ms)
  {
    var g := TrailingDigits(u);
    var k := if g == |u| then |u| - 2 else |u| - g - 1;
    c := u[k];
    ms := u[k + 1..];
    assert u == u[..k] + [c] + ms;
  }

  /** Every name the matcher accepts spells the pattern. */
  lemma MatchSound(name: string) returns (c: char, ms: string, nl: bool)
    requires MatchStamp(name).Some?
    ensures Spells(name, MatchStamp(name).value, c, ms, nl)
  {
    var st := MatchStamp(name).value;
    var f1 := Field(name, '-').value;
    var f2 := Field(f1.1, '-').value;
    var f3 := Field(f2.1, 't').value;
    var f4 := Field(f3.1, ':').value;
    var f5 := Field(f4.1, ':').value;
    FieldSplits(name, '-');
    FieldSplits(f1.1, '-');
    FieldSplits(f2.1, 't');
    FieldSplits(f3.1, ':');
    FieldSplits(f4.1, ':');
    nl := BeforeZSplits(f5.1);
    var u := BeforeZ(f5.1).value;
    c, ms := SecondsRunSplits(u);
    assert st == Stamp(f1.0, f2.0, f3.0, f4.0, f5.0, SecondsRun(u).value);
    assert f5.1 == Then(st.second, c, ms) + ZEnd(nl);
    ThenAppend(st.second, c, ms, ZEnd(nl));
  }

  /** Every name that spells the pattern is accepted, with the same first
      five runs; the seconds run kept is at least as long as the one spelled
      (the matcher is greedy), and exactly it when the any-character is not
      a digit. */
  lemma MatchComplete(name: string, st: Stamp, c: char, ms: string, nl: bool)
    requires Spells(name, st, c, ms, nl)
    ensures MatchStamp(name).Some?
    ensures var m := MatchStamp(name).value;
      m.year == st.year && m.month == st.month && m.day == st.day &&
      m.hour == st.hour && m.minute == st.minute && |m.second| >= |st.second| &&
      (!IsDigit(c) ==> m == st)
  {
    var u := Then(st.second, c, ms);
    var tail := Then(st.second, c, ms + ZEnd(nl));
    ThenAppend(st.second, c, ms, ZEnd(nl));
    var r4 := Then(st.minute, ':', tail);
    var r3 := Then(st.hour, ':', r4);
    var r2 := Then(st.day, 't', r3);
    var r1 := Then(st.month, '-', r2);
    FieldOf(st.year, '-', r1);
    FieldOf(st.month, '-', r2);
    FieldOf(st.day, 't', r3);
    FieldOf(st.hour, ':', r4);
    FieldOf(st.minute, ':', tail);
    BeforeZOf(u, nl);
    SecondsRunOf(st.second, c, ms);
  }

  /** `age` is -1 for a name that does not spell the pattern. */
  lemma AgeWithoutStamp(info: IndexLine, now: DateTime)
    requires ValidDateTime(now) && info.index.Some?
    requires forall st, c, ms, nl :: !Spells(info.index.value, st, c, ms, nl)
    ensures Age(info, now) == Ok(-1)
  {
    if MatchStamp(info.index.value).Some? {
      var c, ms, nl := MatchSound(info.index.value);
    }
  }

  /** A name that spells the pattern gets past the match: its age is the
      elapsed day count of the stamp `strptime` reads, or the error it
      raises. */
  lemma AgeWithStamp(info: IndexLine, now: DateTime, st: Stamp, c: char, ms: string, nl: bool)
    requires ValidDateTime(now) && info.index.Some?
    requires Spells(info.index.value, st, c, ms, nl)
    ensures var m := MatchStamp(info.index.value);
      m.Some? &&
      Age(info, now) == (if StrpTime(m.value).Some? then Ok(DaysBetween(StrpTime(m.value).value, now))
                         else Err(BadTime(m.value)))
  {
    MatchComplete(info.index.value, st, c, ms, nl);
  }

  // ---------------------------------------------------------------------
  // Names written by strftime, and their age
  // ---------------------------------------------------------------------

  lemma TwoDigits(s: string)
    requires |s| == 2 && AllDigits(s)
    ensures DigitsValue(s) == 10 * DigitValue(s[0]) + DigitValue(s[1])
  {
    var a := s[..1];
    assert a[..0] == [] && a[0] == s[0];
    assert DigitsValue(a) == DigitValue(s[0]);
  }

  lemma {:induction false} DecimalLength(n: nat, w: nat)
    requires w >= 1 && n < Pow10(w)
    ensures |Decimal(n)| <= w
  {
    if n >= 10 {
      DecimalLength(n / 10, w - 1);
    }
  }

  lemma PaddedWidth(n: nat, w: nat)
    requires w >= 1 && n < Pow10(w)
    ensures Run(ZeroPadded(n, w)) && |ZeroPadded(n, w)| == w && DigitsValue(ZeroPadded(n, w)) == n
  {
    DecimalLength(n, w);
    ZeroPaddedValue(n, w);
  }

  /** The six fields of `dt.strftime("%Y-%m-%dt%H:%M:%S")`, zero-padded to
      four and two digits. */
  function StampOf(dt: DateTime): Stamp
    requires ValidDateTime(dt)
  {
    Stamp(ZeroPadded(dt.year, 4), ZeroPadded(dt.month, 2), ZeroPadded(dt.day, 2),
          ZeroPadded(dt.hour, 2), ZeroPadded(dt.minute, 2), ZeroPadded(dt.second, 2))
  }

  /** `dt.strftime("%Y-%m-%dt%H:%M:%S.000z")`, the index names the
      console's tests build. */
  function StampName(dt: DateTime): string
    requires ValidDateTime(dt)
  {
    PatternText(StampOf(dt), '.', "000", false)
  }

  /** The written fields are the widths the directives accept and denote
      the fields of `dt`. */
  lemma StampOfFields(dt: DateTime)
    requires ValidDateTime(dt)
    ensures var st := StampOf(dt);
      StampDigits(st) &&
      YearText(st.year) && MonthText(st.month) && DayText(st.day) &&
      HourText(st.hour) && MinuteText(st.minute) && SecondText(st.second) &&
      DigitsValue(st.year) == dt.year && DigitsValue(st.month) == dt.month &&
      DigitsValue(st.day) == dt.day && DigitsValue(st.hour) == dt.hour &&
      DigitsValue(st.minute) == dt.minute && DigitsValue(st.second) == dt.second
  {
    assert Pow10(2) == 100 && Pow10(4) == 10000;
    PaddedWidth(dt.year, 4);
    PaddedWidth(dt.month, 2);
    PaddedWidth(dt.day, 2);
    PaddedWidth(dt.hour, 2);
    PaddedWidth(dt.minute, 2);
    PaddedWidth(dt.second, 2);
  }

  /** strptime reads the written fields back as the written time. */
  lemma StrpTimeOfStamp(dt: DateTime)
    requires ValidDateTime(dt)
    ensures StampDigits(StampOf(dt))
    ensures StrpTime(StampOf(dt)) == Some(dt.(microsecond := 0))
  {
    StampOfFields(dt);
  }

  /** The matcher splits a written name back into its written fields. */
  lemma StampNameMatches(dt: DateTime)
    requires ValidDateTime(dt)
    ensures MatchStamp(StampName(dt)) == Some(StampOf(dt))
  {
    StampOfFields(dt);
    DottedMatches(StampOf(dt));
  }

  /** Digit runs written with a `.` and `000z` after the seconds match as
      themselves. */
  lemma DottedMatches(st: Stamp)
    requires StampDigits(st)
    ensures MatchStamp(PatternText(st, '.', "000", false)) == Some(st)
  {
    assert Run("000") by {
      assert AllDigits("000");
    }
    MatchComplete(PatternText(st, '.', "000", false), st, '.', "000", false);
  }

  /** The stamp of a written name reads back as the written time, with the
      microseconds dropped. */
  lemma StampNameRoundTrip(dt: DateTime)
    requires ValidDateTime(dt)
    ensures MatchStamp(StampName(dt)).Some?
    ensures StrpTime(MatchStamp(StampName(dt)).value) == Some(dt.(microsecond := 0))
  {
    StampNameMatches(dt);
    StrpTimeOfStamp(dt);
  }

  /** The age of a written name is the number of whole days from that
      second to `now`. */
  lemma AgeOfStampName(info: IndexLine, dt: DateTime, now: DateTime)
    requires ValidDateTime(dt) && ValidDateTime(now)
    requires info.index == Some(StampName(dt))
    ensures Age(info, now) == Ok(DaysBetween(dt.(microsecond := 0), now))
  {
    StampNameRoundTrip(dt);
  }

  /** `k` whole days back, at the same time of day, lie exactly `k` days
      and the current microseconds earlier. */
  lemma InstantDaysBack(now: DateTime, k: nat)
    requires ValidDateTime(now) && Ordinal(now) > k
    ensures var dt := DaysBack(now, k).(microsecond := 0);
      ValidDateTime(dt) && Instant(now) - Instant(dt) == k * MicrosPerDay + now.microsecond
  {
    var back := DaysBack(now, k);
    var dt := back.(microsecond := 0);
    assert Ordinal(dt) == Ordinal(back) == Ordinal(now) - k;
  }

  /** A name written `k` days before `now` is `k` days old; with `k` 0 and
      5 these are the console's two age tests. */
  lemma AgeOfDaysBack(info: IndexLine, now: DateTime, k: nat)
    requires ValidDateTime(now) && Ordinal(now) > k
    requires info.index == Some(StampName(DaysBack(now, k)))
    ensures Age(info, now) == Ok(k)
  {
    var dt := DaysBack(now, k);
    AgeOfStampName(info, dt, now);
    InstantDaysBack(now, k);
    var d := DaysBetween(dt.(microsecond := 0), now);
    assert d * MicrosPerDay <= k * MicrosPerDay + now.microsecond < (d + 1) * MicrosPerDay;
    assert d == k;
  }

  lemma AgeZeroDays(info: IndexLine, now: DateTime)
    requires ValidDateTime(now)
    requires info.index == Some(StampName(now))
    ensures Age(info, now) == Ok(0)
  {
    OrdinalPositive(now);
    AgeOfDaysBack(info, now, 0);
  }

  lemma AgeFiveDays(info: IndexLine, now: DateTime)
    requires ValidDateTime(now) && Ordinal(now) > 5
    requires info.index == Some(StampName(DaysBack(now, 5)))
    ensures Age(info, now) == Ok(5)
  {
    AgeOfDaysBack(info, now, 5);
  }

  /** A stamp later than `now` has a negative age. */
  lemma AgeOfFutureStamp(info: IndexLine, dt: DateTime, now: DateTime)
    requires ValidDateTime(dt) && ValidDateTime(now)
    requires info.index == Some(StampName(dt))
    requires Instant(dt.(microsecond := 0)) > Instant(now)
    ensures Age(info, now).Ok? && Age(info, now).value < 0
  {
    AgeOfStampName(info, dt, now);
  }

  /** The name of the console's third age test has no timestamp. */
  lemma AgeOfPlainName(info: IndexLine, now: DateTime)
    requires ValidDateTime(now)
    requires info.index == Some("some_random_index_name")
    ensures Age(info, now) == Ok(-1)
  {
  }

  /** February 30 matches the pattern but `strptime` rejects it: `age`
      raises instead of answering -1. */
  lemma AgeOfImpossibleDate(info: IndexLine, now: DateTime)
    requires ValidDateTime(now)
    requires info.index == Some(PatternText(Stamp("2015", "02", "30", "00", "00", "00"), '.', "000", false))
    ensures Age(info, now).Err? && Age(info, now).error.BadTime?
  {
    var st := Stamp("2015", "02", "30", "00", "00", "00");
    assert StampDigits(st);
    TwoDigits("02");
    TwoDigits("30");
    NoThirtiethOfFebruary(st);
    AgeOfBadStamp(info, now, st);
  }

  /** A written day 30 of month 2 is no date. */
  lemma NoThirtiethOfFebruary(st: Stamp)
    requires StampDigits(st) && DigitsValue(st.month) == 2 && DigitsValue(st.day) == 30
    ensures StrpTime(st) == None
  {
  }

  /** A name in the written layout whose fields are no date makes `age`
      raise with those fields. */
  lemma AgeOfBadStamp(info: IndexLine, now: DateTime, st: Stamp)
    requires ValidDateTime(now) && StampDigits(st) && StrpTime(st) == None
    requires info.index == Some(PatternText(st, '.', "000", false))
    ensures Age(info, now) == Err(BadTime(st))
  {
    DottedMatches(st);
  }
}
