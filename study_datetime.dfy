/** The study date/time line of the metadata panel (the helper `fmt_dt` nested in
    `main`): a DICOM date YYYYMMDD and time HHMMSS[.frac] or HHMM become
    "YYYY-MM-DD HH:MM[:SS]"; whenever `datetime.strptime` rejects a field the raw
    "date time" text is shown instead. */
module StudyDateTime {
  import opened Attributes

  predicate IsDigit(c: char) {
    '0' <= c <= '9'
  }

  predicate AllDigits(s: string) {
    forall i :: 0 <= i < |s| ==> IsDigit(s[i])
  }

  /** The decimal value of a string of digits. */
  function Number(s: string): (n: nat)
    requires AllDigits(s)
    ensures n < Power10(|s|)
  {
    if s == [] then 0
    else Number(s[..|s| - 1]) * 10 + (s[|s| - 1] as int - '0' as int)
  }

  lemma NumberOfTwo(s: string)
    requires |s| == 2 && AllDigits(s)
    ensures Number(s) == 10 * (s[0] as int - '0' as int) + (s[1] as int - '0' as int)
  {
    assert s[..1][..0] == [];
  }

  lemma NumberOfFour(s: string)
    requires |s| == 4 && AllDigits(s)
    ensures Number(s) == 1000 * (s[0] as int - '0' as int) + 100 * (s[1] as int - '0' as int)
                       + 10 * (s[2] as int - '0' as int) + (s[3] as int - '0' as int)
  {
    assert s[..3][..2] == s[..2];
    NumberOfTwo(s[..2]);
  }

  function Power10(k: nat): (p: nat)
    ensures p >= 1
  {
    if k == 0 then 1 else 10 * Power10(k - 1)
  }

  predicate IsLeapYear(y: int) {
    y % 4 == 0 && (y % 100 != 0 || y % 400 == 0)
  }

  function DaysInMonth(y: int, m: int): (d: int)
    requires 1 <= m <= 12
    ensures 28 <= d <= 31
  {
    if m == 2 then (if IsLeapYear(y) then 29 else 28)
    else if m == 4 || m == 6 || m == 9 || m == 11 then 30
    else 31
  }

  /** `datetime.strptime(d, "%Y%m%d")` succeeds: four-digit year from 0001, month
      01-12, and a day that exists in that month of the Gregorian calendar. */
  predicate ValidDate(d: string) {
    && |d| == 8 && AllDigits(d)
    && var year, month, day := Number(d[..4]), Number(d[4..6]), Number(d[6..]);
       1 <= year && 1 <= month <= 12 && 1 <= day <= DaysInMonth(year, month)
  }

  /** `datetime.strptime(t, "%H%M%S")` succeeds: 00-23, 00-59, 00-59. */
  predicate ValidTime(t: string) {
    && |t| == 6 && AllDigits(t)
    && Number(t[..2]) <= 23 && Number(t[2..4]) <= 59 && Number(t[4..]) <= 59
  }

  /** `datetime.strptime(t, "%H%M")` succeeds. */
  predicate ValidHourMinute(t: string) {
    |t| == 4 && AllDigits(t) && Number(t[..2]) <= 23 && Number(t[2..]) <= 59
  }

  /** `strftime("%Y-%m-%d")` of a parsed date. */
  function FormatDate(d: string): string
    requires |d| == 8
  {
    d[..4] + "-" + d[4..6] + "-" + d[6..]
  }

  /** `strftime("%H:%M:%S")` of a parsed time. */
  function FormatTime(t: string): string
    requires |t| == 6
  {
    t[..2] + ":" + t[2..4] + ":" + t[4..]
  }

  /** `strftime("%H:%M")` of a parsed hour and minute. */
  function FormatHourMinute(t: string): string
    requires |t| == 4
  {
    t[..2] + ":" + t[2..]
  }

  /** The text up to the first '.', `str(t).split(".")[0]`. */
  function BeforeDot(s: string): (r: string)
    ensures r <= s && '.' !in r
    ensures r == s || s[|r|] == '.'
  {
    if s == [] || s[0] == '.' then []
    else [s[0]] + BeforeDot(s[1..])
  }

  /** The characters for which Python's `str.isspace()` holds. */
  predicate IsSpace(c: char) {
    || c == ' ' || ('\t' <= c <= '\r') || ('\U{1c}' <= c <= '\U{1f}')
    || c == '\U{85}' || c == '\U{a0}' || c == '\U{1680}' || ('\U{2000}' <= c <= '\U{200a}')
    || c == '\U{2028}' || c == '\U{2029}' || c == '\U{202f}' || c == '\U{205f}' || c == '\U{3000}'
  }

  /** `str.lstrip()`: the suffix left after dropping leading whitespace. */
  function StripStart(s: string): (r: string)
    ensures |r| <= |s| && r == s[|s| - |r|..]
    ensures forall k :: 0 <= k < |s| - |r| ==> IsSpace(s[k])
    ensures r != [] ==> !IsSpace(r[0])
  {
    if s != [] && IsSpace(s[0]) then StripStart(s[1..]) else s
  }

  /** `str.rstrip()`: the prefix left after dropping trailing whitespace. */
  function StripEnd(s: string): (r: string)
    ensures r <= s
    ensures forall k :: |r| <= k < |s| ==> IsSpace(s[k])
    ensures r != [] ==> !IsSpace(r[|r| - 1])
  {
    if s != [] && IsSpace(s[|s| - 1]) then StripEnd(s[..|s| - 1]) else s
  }

  /** `str.strip()`: only whitespace is dropped, from either end. What is left is a
      prefix of the left-stripped text (itself a suffix of `s` after nothing but
      whitespace) followed there by nothing but whitespace, and it neither starts
      nor ends with whitespace. */
  function Strip(s: string): (r: string)
    ensures |r| <= |s|
    ensures r <= StripStart(s)
    ensures forall k :: |r| <= k < |StripStart(s)| ==> IsSpace(StripStart(s)[k])
    ensures r != [] ==> !IsSpace(r[0]) && !IsSpace(r[|r| - 1])
    ensures r == [] ==> forall k :: 0 <= k < |s| ==> IsSpace(s[k])
  {
    var t := StripStart(s);
    var r := StripEnd(t);
    assert r != [] ==> r[0] == t[0];
    assert r == [] ==> t == [];
    r
  }

  /** A text that neither starts nor ends with whitespace is left as it is. */
  lemma StripUnchanged(s: string)
    requires s != [] && !IsSpace(s[0]) && !IsSpace(s[|s| - 1])
    ensures Strip(s) == s
  {
  }

  /** The date half: the first eight characters parsed and reformatted when the text
      has at least eight, the text itself when shorter; None when strptime raises. */
  function DatePart(dstr: string): (r: Option<string>)
    ensures r.None? <==> |dstr| >= 8 && !ValidDate(dstr[..8])
    ensures |dstr| >= 8 && ValidDate(dstr[..8]) ==> r == Some(FormatDate(dstr[..8]))
    ensures |dstr| < 8 ==> r == Some(dstr)
  {
    if |dstr| >= 8 then
      if ValidDate(dstr[..8]) then Some(FormatDate(dstr[..8])) else None
    else Some(dstr)
  }

  /** The time half: empty for an empty or placeholder time; otherwise the text
      before any '.', parsed as HHMMSS from six characters on, as HHMM from four,
      and kept as it is when shorter; None when strptime raises. */
  function TimePart(tstr: string): (r: Option<string>)
    ensures tstr == [] || tstr == Placeholder ==> r == Some([])
    ensures tstr != [] && tstr != Placeholder && |BeforeDot(tstr)| >= 6 ==>
      (r.None? <==> !ValidTime(BeforeDot(tstr)[..6])) &&
      (r.Some? ==> r.value == FormatTime(BeforeDot(tstr)[..6]))
    ensures tstr != [] && tstr != Placeholder && 4 <= |BeforeDot(tstr)| < 6 ==>
      (r.None? <==> !ValidHourMinute(BeforeDot(tstr)[..4])) &&
      (r.Some? ==> r.value == FormatHourMinute(BeforeDot(tstr)[..4]))
    ensures tstr != [] && tstr != Placeholder && |BeforeDot(tstr)| < 4 ==>
      r == Some(BeforeDot(tstr))
  {
    if tstr == [] || tstr == Placeholder then Some([])
    else
      var clean := BeforeDot(tstr);
      if |clean| >= 6 then
        if ValidTime(clean[..6]) then Some(FormatTime(clean[..6])) else None
      else if |clean| >= 4 then
        if ValidHourMinute(clean[..4]) then Some(FormatHourMinute(clean[..4])) else None
      else Some(clean)
  }

  /** `fmt_dt(dstr, tstr)`. */
  function FormatStudyDateTime(dstr: string, tstr: string): (r: string)
    ensures dstr == Placeholder ==> r == Placeholder
    ensures dstr != Placeholder && (DatePart(dstr).None? || TimePart(tstr).None?) ==>
      r == dstr + " " + tstr
    ensures dstr != Placeholder && DatePart(dstr).Some? && TimePart(tstr).Some? ==>
      r == Strip(DatePart(dstr).value + " " + TimePart(tstr).value) &&
      |r| <= |DatePart(dstr).value| + 1 + |TimePart(tstr).value| &&
      (r != [] ==> !IsSpace(r[0]) && !IsSpace(r[|r| - 1]))
  {
    if dstr == Placeholder then Placeholder
    else
      match (DatePart(dstr), TimePart(tstr))
      case (Some(date), Some(time)) => Strip(date + " " + time)
      case _ => dstr + " " + tstr
  }

  /** A well-formed date and a time of at least six characters before any fraction
      give the full stamp "YYYY-MM-DD HH:MM:SS". */
  lemma FullStamp(dstr: string, tstr: string)
    requires |dstr| >= 8 && ValidDate(dstr[..8])
    requires tstr != Placeholder
    requires |BeforeDot(tstr)| >= 6 && ValidTime(BeforeDot(tstr)[..6])
    ensures FormatStudyDateTime(dstr, tstr)
         == FormatDate(dstr[..8]) + " " + FormatTime(BeforeDot(tstr)[..6])
  {
    assert dstr != Placeholder;
    var stamp := FormatDate(dstr[..8]) + " " + FormatTime(BeforeDot(tstr)[..6]);
    assert stamp[0] == dstr[0] && stamp[|stamp| - 1] == BeforeDot(tstr)[5];
    StripUnchanged(stamp);
  }

  /** A time of four or five characters before any fraction gives "YYYY-MM-DD HH:MM". */
  lemma HourMinuteStamp(dstr: string, tstr: string)
    requires |dstr| >= 8 && ValidDate(dstr[..8])
    requires tstr != Placeholder
    requires 4 <= |BeforeDot(tstr)| < 6 && ValidHourMinute(BeforeDot(tstr)[..4])
    ensures FormatStudyDateTime(dstr, tstr)
         == FormatDate(dstr[..8]) + " " + FormatHourMinute(BeforeDot(tstr)[..4])
  {
    assert dstr != Placeholder;
    var stamp := FormatDate(dstr[..8]) + " " + FormatHourMinute(BeforeDot(tstr)[..4]);
    assert stamp[0] == dstr[0] && stamp[|stamp| - 1] == BeforeDot(tstr)[3];
    StripUnchanged(stamp);
  }

  /** With no time (empty or the placeholder) the result is the date alone, without
      the trailing blank. */
  lemma DateOnly(dstr: string, tstr: string)
    requires |dstr| >= 8 && ValidDate(dstr[..8])
    requires tstr == [] || tstr == Placeholder
    ensures FormatStudyDateTime(dstr, tstr) == FormatDate(dstr[..8])
  {
    assert dstr != Placeholder;
    var date := FormatDate(dstr[..8]);
    assert date + " " + [] == date + " ";
    assert date[0] == dstr[0];
    StripTrailingBlank(date);
  }

  lemma StripTrailingBlank(x: string)
    requires x != [] && !IsSpace(x[0]) && !IsSpace(x[|x| - 1])
    ensures Strip(x + " ") == x
  {
    var y := x + " ";
    assert StripStart(y) == y;
    assert y[..|y| - 1] == x;
    assert StripEnd(y) == StripEnd(x);
  }

  /** A date strptime rejects falls back to the raw "date time" text. */
  lemma BadDateFallsBack(dstr: string, tstr: string)
    requires |dstr| >= 8 && !ValidDate(dstr[..8])
    ensures FormatStudyDateTime(dstr, tstr) == dstr + " " + tstr
  {
    assert dstr != Placeholder;
  }

  /** A time strptime rejects falls back to the raw "date time" text as well, even
      when the date is well formed. */
  lemma BadTimeFallsBack(dstr: string, tstr: string)
    requires dstr != Placeholder && tstr != [] && tstr != Placeholder
    requires || (|BeforeDot(tstr)| >= 6 && !ValidTime(BeforeDot(tstr)[..6]))
             || (4 <= |BeforeDot(tstr)| < 6 && !ValidHourMinute(BeforeDot(tstr)[..4]))
    ensures FormatStudyDateTime(dstr, tstr) == dstr + " " + tstr
  {
  }

  /** A time of fewer than four characters before any fraction is shown as it is,
      after the date. */
  lemma ShortTimeKeptRaw(dstr: string, tstr: string)
    requires |dstr| >= 8 && ValidDate(dstr[..8])
    requires tstr != [] && tstr != Placeholder && |BeforeDot(tstr)| < 4
    ensures FormatStudyDateTime(dstr, tstr) == Strip(FormatDate(dstr[..8]) + " " + BeforeDot(tstr))
  {
    assert dstr != Placeholder;
  }

  /** Example: 25 is no hour, so "20230115" with "256000" shows the raw text. */
  lemma BadHourExample(d: string, t: string)
    requires d == "20230115" && t == "256000"
    ensures FormatStudyDateTime(d, t) == "20230115 256000"
  {
    BeforeDotWithoutDot(t);
    assert BeforeDot(t)[..6] == t;
    NumberOfTwo(t[..2]);
    assert !ValidTime(t);
    BadTimeFallsBack(d, t);
  }

  lemma {:induction false} BeforeDotWithoutDot(s: string)
    requires '.' !in s
    ensures BeforeDot(s) == s
  {
    if s != [] {
      BeforeDotWithoutDot(s[1..]);
    }
  }

  /** The inverse of the date formatting: "YYYY-MM-DD" back to the DICOM date, when
      it is one. */
  function ParseDisplayDate(s: string): (r: Option<string>)
    ensures r.Some? ==> ValidDate(r.value)
  {
    if |s| == 10 && s[4] == '-' && s[7] == '-' && ValidDate(s[..4] + s[5..7] + s[8..]) then
      Some(s[..4] + s[5..7] + s[8..])
    else None
  }

  /** Formatting a valid date and reading it back gives the date again, and every
      display text that reads back as a date is that date's formatting. */
  lemma DisplayDateRoundTrip(d: string, s: string)
    ensures ValidDate(d) ==> ParseDisplayDate(FormatDate(d)) == Some(d)
    ensures ParseDisplayDate(s).Some? ==> FormatDate(ParseDisplayDate(s).value) == s
  {
    if ValidDate(d) {
      var f := FormatDate(d);
      assert f[..4] == d[..4] && f[5..7] == d[4..6] && f[8..] == d[6..];
      assert d[..4] + d[4..6] + d[6..] == d;
    }
    if ParseDisplayDate(s).Some? {
      var d' := s[..4] + s[5..7] + s[8..];
      assert FormatDate(d') == s;
    }
  }

  /** Example: "20230115" with "143025.123" shows as "2023-01-15 14:30:25". */
  lemma StampExample(d: string, t: string)
    requires d == "20230115" && t == "143025.123"
    ensures FormatStudyDateTime(d, t) == "2023-01-15 14:30:25"
  {
    ExampleDate(d, Number(d[..4]), Number(d[4..6]), Number(d[6..]));
    assert ValidDate(d[..8]);
    ExampleTime(t);
    FullStamp(d, t);
    ExampleStampText(d);
  }

  lemma ExampleStampText(d: string)
    requires d == "20230115"
    ensures FormatDate(d[..8]) + " " + "14:30:25" == "2023-01-15 14:30:25"
  {
    assert d[..8] == d;
  }

  lemma ExampleDate(d: string, y: int, m: int, day: int)
    requires |d| == 8 && AllDigits(d) && d[..8] == d
    requires y == Number(d[..4]) && m == Number(d[4..6]) && day == Number(d[6..])
    ensures y == 1000 * (d[0] as int - '0' as int) + 100 * (d[1] as int - '0' as int)
                + 10 * (d[2] as int - '0' as int) + (d[3] as int - '0' as int)
    ensures m == 10 * (d[4] as int - '0' as int) + (d[5] as int - '0' as int)
    ensures day == 10 * (d[6] as int - '0' as int) + (d[7] as int - '0' as int)
  {
    NumberOfFour(d[..4]);
    NumberOfTwo(d[4..6]);
    NumberOfTwo(d[6..]);
  }

  lemma ExampleTime(t: string)
    requires t == "143025.123"
    ensures |BeforeDot(t)| >= 6 && ValidTime(BeforeDot(t)[..6])
    ensures FormatTime(BeforeDot(t)[..6]) == "14:30:25"
  {
    ExampleClean(t);
    ExampleClock(BeforeDot(t)[..6]);
  }

  lemma ExampleClean(t: string)
    requires t == "143025.123"
    ensures BeforeDot(t)[..6] == "143025"
  {
    assert t == "143025" + "." + "123";
    BeforeDotStopsAtDot("143025", "123");
  }

  lemma ExampleClock(c: string)
    requires c == "143025"
    ensures ValidTime(c) && FormatTime(c) == "14:30:25"
  {
    NumberOfTwo(c[..2]);
    NumberOfTwo(c[2..4]);
    NumberOfTwo(c[4..]);
  }

  lemma {:induction false} BeforeDotStopsAtDot(head: string, tail: string)
    requires '.' !in head
    ensures BeforeDot(head + "." + tail) == head
  {
    if head != [] {
      assert (head + "." + tail)[1..] == head[1..] + "." + tail;
      BeforeDotStopsAtDot(head[1..], tail);
    }
  }

  /** Example: 29 February 2024 exists and shows as "2024-02-29". */
  lemma LeapDayExample(d: string)
    requires d == "20240229"
    ensures FormatStudyDateTime(d, "") == "2024-02-29"
  {
    ExampleDate(d, Number(d[..4]), Number(d[4..6]), Number(d[6..]));
    assert ValidDate(d[..8]);
    DateOnly(d, "");
    LeapDayText(d);
  }

  lemma LeapDayText(d: string)
    requires d == "20240229"
    ensures FormatDate(d[..8]) == "2024-02-29"
  {
    assert d[..8] == d;
  }

  /** Example: 2023 is not a leap year, so "20230229" falls back to the raw text. */
  lemma NonLeapDayExample(d: string, t: string)
    requires d == "20230229" && t == "0930"
    ensures FormatStudyDateTime(d, t) == "20230229 0930"
  {
    ExampleDate(d, Number(d[..4]), Number(d[4..6]), Number(d[6..]));
    BadDateFallsBack(d, t);
  }
}
