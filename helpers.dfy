/** The normalisers of `utils/helpers.py`: `parse_time`, `parse_date` (with
    the current date passed in) and `extract_links`. Digits are ASCII. */
module Helpers {
  import opened Common
  import opened Calendar

  // ---------------------------------------------------------------- times

  /** `s.replace('.', ':')` */
  function ReplaceDots(s: string): (r: string)
    ensures |r| == |s|
    ensures forall i :: 0 <= i < |s| ==> r[i] == (if s[i] == '.' then ':' else s[i])
  {
    if s == [] then [] else [if s[0] == '.' then ':' else s[0]] + ReplaceDots(s[1..])
  }

  /** `%H` is the regular expression `2[0-3]|[0-1]\d|\d`; this is the length
      of the alternative that lets the following `:` match, or 0. A two-digit
      alternative that is not followed by `:` cannot be rescued by the
      one-digit one, whose next character is then a digit. */
  function HourLength(s: string): (n: nat)
    ensures n <= 2 && (n > 0 ==> |s| > n && s[n] == ':' && AllDigits(s[..n]))
  {
    if |s| >= 3 && ((s[0] == '2' && '0' <= s[1] <= '3') || (('0' <= s[0] <= '1') && IsDigit(s[1]))) && s[2] == ':' then 2
    else if |s| >= 2 && IsDigit(s[0]) && s[1] == ':' then 1
    else 0
  }

  /** `%M` is `[0-5]\d|\d`: the first alternative that matches wins. */
  function MinuteLength(s: string): (n: nat)
    ensures n <= 2 && n <= |s| && AllDigits(s[..n])
  {
    if |s| >= 2 && '0' <= s[0] <= '5' && IsDigit(s[1]) then 2
    else if |s| >= 1 && IsDigit(s[0]) then 1
    else 0
  }

  /** `datetime.strptime(s, "%H:%M")` as (hour, minute): the pattern must
      match at the start and leave no unconverted data. */
  function StrptimeHM(s: string): (r: Option<(nat, nat)>)
    ensures r.Some? ==> r.value.0 <= 23 && r.value.1 <= 59
  {
    var hl := HourLength(s);
    if hl == 0 then None
    else
      var rest := s[hl + 1..];
      var ml := MinuteLength(rest);
      if ml == 0 || ml != |rest| then None
      else
        assert rest[..ml] == rest;
        ValueShort(s[..hl]);
        ValueShort(rest);
        Some((Value(s[..hl]), Value(rest)))
  }

  /** The text handed to `strptime` after the one- or two-digit and the
      four-digit shortcuts. */
  function ExpandTime(t: string): string
  {
    if 1 <= |t| <= 2 && AllDigits(t) then
      ValueShort(t);
      Pad2(Value(t)) + ":00"
    else if |t| == 4 && AllDigits(t) then t[..2] + ":" + t[2..]
    else t
  }

  /** `parse_time`: the canonical `HH:MM` of a time of day, or `None`. */
  function ParseTime(raw: string): (r: Option<string>)
    ensures r.Some? ==> (|r.value| == 5 && r.value[2] == ':'
      && AllDigits(r.value[..2]) && Value(r.value[..2]) <= 23
      && AllDigits(r.value[3..]) && Value(r.value[3..]) <= 59)
  {
    match StrptimeHM(ExpandTime(ReplaceDots(Strip(raw))))
    case None => None
    case Some((h, m)) =>
      var r := Pad2(h) + ":" + Pad2(m);
      assert r[..2] == Pad2(h) && r[3..] == Pad2(m);
      Some(r)
  }

  /** Only `a:b` succeeds: whatever `parse_time` accepts was, after the
      shortcuts, one or two digits, a colon and one or two digits. Any other
      text (`abc`, `9:05pm`, `1:2:3`) gives `None`. */
  lemma ParseTimeOnlyFields(raw: string) returns (k: nat)
    requires ParseTime(raw).Some?
    ensures var t := ExpandTime(ReplaceDots(Strip(raw)));
      1 <= k <= 2 && k < |t| && t[k] == ':' && AllDigits(t[..k])
      && 1 <= |t| - k - 1 <= 2 && AllDigits(t[k + 1..])
  {
    var t := ExpandTime(ReplaceDots(Strip(raw)));
    k := HourLength(t);
    assert MinuteLength(t[k + 1..]) == |t[k + 1..]|;
    assert t[k + 1..][..|t[k + 1..]|] == t[k + 1..];
  }

  /** A text without dots and without surrounding whitespace reaches the
      shortcuts unchanged. */
  lemma Prepared(s: string)
    requires s != [] && !IsSpace(s[0]) && !IsSpace(s[|s| - 1]) && '.' !in s
    ensures ReplaceDots(Strip(s)) == s
  {
    StripNoEdgeSpace(s);
  }

  /** `strptime` on two padded fields accepts exactly the hours up to 23 and
      the minutes up to 59. */
  lemma StrptimePadded(h: nat, m: nat)
    requires h < 100 && m < 100
    ensures StrptimeHM(Pad2(h) + ":" + Pad2(m)) == if h <= 23 && m <= 59 then Some((h, m)) else None
  {
    var u := Pad2(h) + ":" + Pad2(m);
    Pad2Digits(h);
    Pad2Digits(m);
    assert u[..2] == Pad2(h) && u[3..] == Pad2(m) && u[2] == ':';
    if h <= 23 {
      assert HourLength(u) == 2;
    } else {
      assert HourLength(u) == 0;
    }
  }

  /** Once the shortcuts have produced two padded fields, `parse_time`
      returns them when they name a time of day and `None` otherwise. */
  lemma ParseTimePadded(raw: string, h: nat, m: nat)
    requires h < 100 && m < 100 && ExpandTime(ReplaceDots(Strip(raw))) == Pad2(h) + ":" + Pad2(m)
    ensures ParseTime(raw) == if h <= 23 && m <= 59 then Some(Pad2(h) + ":" + Pad2(m)) else None
  {
    StrptimePadded(h, m);
  }

  /** A canonical time is read back as itself. */
  lemma ParseTimeCanonical(h: nat, m: nat)
    requires h <= 23 && m <= 59
    ensures ParseTime(Pad2(h) + ":" + Pad2(m)) == Some(Pad2(h) + ":" + Pad2(m))
  {
    var s := Pad2(h) + ":" + Pad2(m);
    Pad2Digits(h);
    Pad2Digits(m);
    Prepared(s);
    assert s[2] == ':';
    assert ExpandTime(s) == s;
    ParseTimePadded(s, h, m);
  }

  /** `parse_time` is idempotent. */
  lemma ParseTimeIdempotent(raw: string)
    requires ParseTime(raw).Some?
    ensures ParseTime(ParseTime(raw).value) == ParseTime(raw)
  {
    var r := ParseTime(raw).value;
    Pad2Value(r[..2]);
    Pad2Value(r[3..]);
    assert r == r[..2] + ":" + r[3..];
    ParseTimeCanonical(Value(r[..2]), Value(r[3..]));
  }

  lemma ExpandHourOnly(t: string)
    requires 1 <= |t| <= 2 && AllDigits(t)
    ensures Value(t) < 100 && ExpandTime(t) == Pad2(Value(t)) + ":" + Pad2(0)
    ensures Pad2(Value(t)) + ":" + Pad2(0) == Pad2(Value(t)) + ":00"
  {
    ValueShort(t);
    ZeroMinutes(Pad2(Value(t)));
  }

  /** Two zero digits after the colon are the minutes `":00"`. */
  lemma ZeroMinutes(a: string)
    ensures a + ":" + Pad2(0) == a + ":00"
  {
    assert Pad2(0) == [DigitChar(0), DigitChar(0)];
    assert ":" + Pad2(0) == ":00";
    assert a + ":" + Pad2(0) == a + (":" + Pad2(0));
  }

  /** One or two digits name a whole hour: `"9"` becomes `"09:00"`; an hour
      past 23 is refused. */
  lemma ParseTimeHourOnly(s: string)
    requires 1 <= |s| <= 2 && AllDigits(s)
    ensures Value(s) <= 23 ==> ParseTime(s) == Some(Pad2(Value(s)) + ":00")
    ensures Value(s) > 23 ==> ParseTime(s) == None
  {
    Prepared(s);
    var h := Value(s);
    ExpandHourOnly(s);
    ParseTimePadded(s, h, 0);
  }

  /** Four digits are hours and minutes: `"1400"` becomes `"14:00"`. */
  lemma ParseTimeFourDigits(s: string)
    requires |s| == 4 && AllDigits(s)
    ensures Value(s[..2]) <= 23 && Value(s[2..]) <= 59 ==> ParseTime(s) == Some(s[..2] + ":" + s[2..])
    ensures Value(s[..2]) > 23 || Value(s[2..]) > 59 ==> ParseTime(s) == None
  {
    Prepared(s);
    Pad2Value(s[..2]);
    Pad2Value(s[2..]);
    var u := s[..2] + ":" + s[2..];
    assert ExpandTime(s) == u;
    ParseTimePadded(s, Value(s[..2]), Value(s[2..]));
  }

  /** `%H:%M` on one- or two-digit fields: the hour field matches when it
      names an hour up to 23 (`9` and `09` alike), the minute field when it
      names a minute up to 59, and the two numbers are returned. */
  lemma StrptimeShortFields(a: string, b: string)
    requires 1 <= |a| <= 2 && AllDigits(a) && 1 <= |b| <= 2 && AllDigits(b)
    ensures StrptimeHM(a + ":" + b) == if Value(a) <= 23 && Value(b) <= 59 then Some((Value(a), Value(b))) else None
  {
    var s := a + ":" + b;
    HourField(a, b);
    MinuteField(b);
    assert s[..|a|] == a && s[|a| + 1..] == b;
  }

  /** The hour alternative `%H` takes in `a:b`: the one digit, or both
      digits when they name an hour up to 23, else no match. */
  lemma HourField(a: string, b: string)
    requires 1 <= |a| <= 2 && AllDigits(a) && 1 <= |b| && IsDigit(b[0])
    ensures HourLength(a + ":" + b) == if |a| == 1 then 1 else if Value(a) <= 23 then 2 else 0
  {
    var s := a + ":" + b;
    ValueShort(a);
    assert s[0] == a[0] && s[|a|] == ':' && s[|a| + 1] == b[0];
    if |a| == 2 {
      assert s[1] == a[1];
    }
  }

  /** `%M` takes the whole one- or two-digit field exactly when it names a
      minute up to 59. */
  lemma MinuteField(b: string)
    requires 1 <= |b| <= 2 && AllDigits(b)
    ensures MinuteLength(b) == |b| <==> Value(b) <= 59
  {
    ValueShort(b);
  }

  /** `parse_time` on `H:M`, `HH:MM`, `H.MM` and the like: the fields are
      read as numbers and written back padded to two digits, or the text
      is refused when they do not name a time of day. */
  lemma ParseTimeFields(a: string, sep: char, b: string)
    requires 1 <= |a| <= 2 && AllDigits(a) && 1 <= |b| <= 2 && AllDigits(b) && (sep == ':' || sep == '.')
    ensures Value(a) <= 23 && Value(b) <= 59 ==> ParseTime(a + [sep] + b) == Some(Pad2(Value(a)) + ":" + Pad2(Value(b)))
    ensures Value(a) > 23 || Value(b) > 59 ==> ParseTime(a + [sep] + b) == None
  {
    var t := a + ":" + b;
    FieldsPrepared(a, sep, b);
    StrptimeShortFields(a, b);
  }

  /** Stripping, replacing the dot and the digit shortcuts leave `a:b`. */
  lemma FieldsPrepared(a: string, sep: char, b: string)
    requires 1 <= |a| <= 2 && AllDigits(a) && 1 <= |b| <= 2 && AllDigits(b) && (sep == ':' || sep == '.')
    ensures ExpandTime(ReplaceDots(Strip(a + [sep] + b))) == a + ":" + b
  {
    var s := a + [sep] + b;
    var t := a + ":" + b;
    assert !IsSpace(s[0]) && !IsSpace(s[|s| - 1]) by {
      assert s[0] == a[0] && s[|s| - 1] == b[|b| - 1];
    }
    StripNoEdgeSpace(s);
    ReplaceSeparator(a, sep, b);
    assert !AllDigits(t) by { assert t[|a|] == ':'; }
  }

  /** Digits around a colon or a dot become digits around a colon. */
  lemma ReplaceSeparator(a: string, sep: char, b: string)
    requires AllDigits(a) && AllDigits(b) && (sep == ':' || sep == '.')
    ensures ReplaceDots(a + [sep] + b) == a + ":" + b
  {
    var s := a + [sep] + b;
    var t := a + ":" + b;
    forall i | 0 <= i < |s| ensures ReplaceDots(s)[i] == t[i] {
      if i < |a| {
        assert s[i] == a[i] == t[i];
      } else if i > |a| {
        assert s[i] == b[i - |a| - 1] == t[i];
      }
    }
  }

  // ---------------------------------------------------------------- dates

  /** `\d{4}-\d{2}-\d{2}` */
  predicate IsoShape(s: string)
  {
    |s| == 10 && AllDigits(s[..4]) && s[4] == '-' && AllDigits(s[5..7]) && s[7] == '-' && AllDigits(s[8..])
  }

  /** `\d{2}.\d{2}.\d{4}`, where `.` is any character but a newline. */
  predicate DottedShape(s: string)
  {
    |s| == 10 && AllDigits(s[..2]) && s[2] != '\n' && AllDigits(s[3..5]) && s[5] != '\n' && AllDigits(s[6..])
  }

  /** `\d{1,2}.\d{1,2}` with the middle character at index `k`. */
  predicate ShortShapeAt(s: string, k: nat)
  {
    1 <= k <= 2 && k < |s| && s[k] != '\n' && 1 <= |s| - k - 1 <= 2 && AllDigits(s[..k]) && AllDigits(s[k + 1..])
  }

  predicate ShortShape(s: string)
  {
    ShortShapeAt(s, 1) || ShortShapeAt(s, 2)
  }

  /** The year a day-and-month date falls in: this year, or next year when
      it is December now and the month named is January. */
  function ShortYear(month: int, now: Date): int
  {
    if now.month == 12 && month == 1 then now.year + 1 else now.year
  }

  /** `date_str.split(".")` unpacked into day and month: only when the
      middle character is a literal dot. */
  function ShortDate(s: string, now: Date): Option<Date>
  {
    if ShortShapeAt(s, 1) && s[1] == '.' then
      Some(Date(ShortYear(Value(s[2..]), now), Value(s[2..]), Value(s[..1])))
    else if ShortShapeAt(s, 2) && s[2] == '.' then
      Some(Date(ShortYear(Value(s[3..]), now), Value(s[3..]), Value(s[..2])))
    else None
  }

  function IfValid(d: Date): (r: Option<Date>)
    ensures r.Some? <==> ValidDate(d)
    ensures r.Some? ==> r.value == d
  {
    if ValidDate(d) then Some(d) else None
  }

  /** `parse_date(raw)` with `datetime.now()` passed as `now`. */
  function ParseDate(raw: string, now: Date): (r: Option<Date>)
    ensures r.Some? ==> ValidDate(r.value)
    ensures r.Some? ==> IsoShape(Strip(raw)) || DottedShape(Strip(raw)) || ShortShape(Strip(raw))
  {
    var s := Strip(raw);
    if IsoShape(s) then IfValid(Date(Value(s[..4]), Value(s[5..7]), Value(s[8..])))
    else if DottedShape(s) then
      if s[2] == '.' && s[5] == '.' then IfValid(Date(Value(s[6..]), Value(s[3..5]), Value(s[..2])))
      else None
    else if ShortShape(s) then
      match ShortDate(s, now)
      case None => None
      case Some(d) => IfValid(d)
    else None
  }

  lemma IsoStringShape(d: Date)
    requires ValidDate(d)
    ensures IsoShape(IsoString(d)) && Strip(IsoString(d)) == IsoString(d)
  {
    var s := IsoString(d);
    assert s[..4][0] == s[0] && s[8..][1] == s[9];
    assert !IsSpace(s[0]) && !IsSpace(s[9]);
    StripNoEdgeSpace(s);
  }

  /** An ISO date is read back as the same date. */
  lemma ParseDateIso(d: Date, now: Date)
    requires ValidDate(d)
    ensures ParseDate(IsoString(d), now) == Some(d)
  {
    IsoStringShape(d);
  }

  /** `DD.MM.YYYY` of a valid date is read back as that date. */
  lemma ParseDateDotted(d: Date, now: Date)
    requires ValidDate(d)
    ensures ParseDate(Pad2(d.day) + "." + Pad2(d.month) + "." + Pad4(d.year), now) == Some(d)
  {
    var s := Pad2(d.day) + "." + Pad2(d.month) + "." + Pad4(d.year);
    assert s[..2] == Pad2(d.day) && s[3..5] == Pad2(d.month) && s[6..] == Pad4(d.year);
    assert s[..2][0] == s[0] && s[6..][3] == s[9];
    assert !IsSpace(s[0]) && !IsSpace(s[9]);
    StripNoEdgeSpace(s);
    assert !IsoShape(s) by { assert !IsDigit(s[2]); assert s[..4][2] == s[2]; }
  }

  /** A `DD.MM` date takes the current year, or the next one for January
      asked in December; only a literal dot separates the fields. */
  lemma ParseDateShort(day: string, month: string, now: Date)
    requires 1 <= |day| <= 2 && AllDigits(day) && 1 <= |month| <= 2 && AllDigits(month)
    ensures var d := Date(ShortYear(Value(month), now), Value(month), Value(day));
      ParseDate(day + "." + month, now) == if ValidDate(d) then Some(d) else None
  {
    var s := day + "." + month;
    assert !IsSpace(s[0]) && !IsSpace(s[|s| - 1]) by {
      assert s[0] == day[0] && s[|s| - 1] == month[|month| - 1];
    }
    StripNoEdgeSpace(s);
    ShortDateOf(day, month, now);
  }

  lemma ShortDateOf(day: string, month: string, now: Date)
    requires 1 <= |day| <= 2 && AllDigits(day) && 1 <= |month| <= 2 && AllDigits(month)
    ensures var s := day + "." + month;
      (|s| < 10 && ShortShape(s)
       && ShortDate(s, now) == Some(Date(ShortYear(Value(month), now), Value(month), Value(day))))
  {
    var s := day + "." + month;
    var k := |day|;
    assert s[..k] == day && s[k + 1..] == month && s[k] == '.';
    assert ShortShapeAt(s, k);
  }

  /** A `D?M` text whose middle character is not a dot is refused:
      `split(".")` then gives one part, and unpacking it into day and month
      raises. */
  lemma ParseDateShortNeedsDot(raw: string, now: Date)
    requires ShortShape(Strip(raw)) && '.' !in Strip(raw)
    ensures ParseDate(raw, now) == None
  {
    var s := Strip(raw);
    assert |s| <= 5;
    assert !IsoShape(s) && !DottedShape(s);
    assert s[1] != '.' && (|s| > 2 ==> s[2] != '.');
  }

  /** A `YYYY-MM-DD` text is read as the date its fields name, and refused
      when that date does not exist (month 13, 30 February, year 0). */
  lemma ParseDateIsoFields(raw: string, now: Date)
    requires IsoShape(Strip(raw))
    ensures var s := Strip(raw); var d := Date(Value(s[..4]), Value(s[5..7]), Value(s[8..]));
      ParseDate(raw, now) == if ValidDate(d) then Some(d) else None
  {
  }

  /** A `DD.MM.YYYY` text with literal dots is read as the date its fields
      name, and refused when that date does not exist. */
  lemma ParseDateDottedFields(raw: string, now: Date)
    requires DottedShape(Strip(raw)) && Strip(raw)[2] == '.' && Strip(raw)[5] == '.'
    ensures var s := Strip(raw); var d := Date(Value(s[6..]), Value(s[3..5]), Value(s[..2]));
      ParseDate(raw, now) == if ValidDate(d) then Some(d) else None
  {
    var s := Strip(raw);
    assert !IsoShape(s) by { assert s[..4][2] == s[2]; }
  }

  /** A ten-character `DD?MM?YYYY` text whose separators are not both dots
      is refused, although the pattern that admits it has a wildcard. */
  lemma ParseDateDottedNeedsDots(raw: string, now: Date)
    requires DottedShape(Strip(raw)) && (Strip(raw)[2] != '.' || Strip(raw)[5] != '.')
    ensures ParseDate(raw, now) == None
  {
    var s := Strip(raw);
    assert !IsoShape(s) by { assert s[..4][3] == s[3]; assert IsDigit(s[3]); }
  }

  // ---------------------------------------------------------------- links

  /** `s` starts with `https://`. */
  predicate HttpsAt(s: string)
  {
    |s| >= 8 && s[0] == 'h' && s[1] == 't' && s[2] == 't' && s[3] == 'p' && s[4] == 's'
    && s[5] == ':' && s[6] == '/' && s[7] == '/'
  }

  /** `s` starts with `http://`. */
  predicate HttpAt(s: string)
  {
    |s| >= 7 && s[0] == 'h' && s[1] == 't' && s[2] == 't' && s[3] == 'p'
    && s[4] == ':' && s[5] == '/' && s[6] == '/'
  }

  /** Length of the `https?://` scheme at the start of `s`, or 0. */
  function SchemeLength(s: string): (n: nat)
    ensures n == 0 || n == 7 || n == 8
    ensures n > 0 ==> n <= |s| && forall i :: 0 <= i < n ==> !IsSpace(s[i])
  {
    if HttpsAt(s) then 8
    else if HttpAt(s) then 7
    else 0
  }

  predicate NoSpace(s: string)
  {
    forall i :: 0 <= i < |s| ==> !IsSpace(s[i])
  }

  /** Length of the longest prefix of `s` without whitespace. */
  function RunLength(s: string): (n: nat)
    ensures n <= |s| && NoSpace(s[..n]) && (n < |s| ==> IsSpace(s[n]))
  {
    if s == [] || IsSpace(s[0]) then 0
    else
      var n := RunLength(s[1..]) + 1;
      assert s[..n] == [s[0]] + s[1..][..n - 1];
      n
  }

  /** What the pattern `https?://[^\s]+` matches. */
  predicate IsLink(w: string)
  {
    SchemeLength(w) > 0 && |w| > SchemeLength(w) && NoSpace(w)
  }

  /** A match starts here: a scheme followed by at least one non-space. */
  predicate LinkStartsAt(s: string)
  {
    SchemeLength(s) > 0 && |s| > SchemeLength(s) && !IsSpace(s[SchemeLength(s)])
  }

  lemma SchemeOfPrefix(s: string, n: nat)
    requires LinkStartsAt(s) && SchemeLength(s) < n <= |s|
    ensures SchemeLength(s[..n]) == SchemeLength(s)
  {
  }

  /** `re.findall(r"https?://[^\s]+", s)`: scanning left to right, each
      match runs to the next whitespace and the scan resumes after it. */
  function FindLinks(s: string): (r: seq<string>)
    ensures forall i :: 0 <= i < |r| ==> IsLink(r[i])
    decreases |s|
  {
    if s == [] then []
    else if LinkStartsAt(s) then
      var n := RunLength(s);
      assert n > SchemeLength(s);
      SchemeOfPrefix(s, n);
      [s[..n]] + FindLinks(s[n..])
    else FindLinks(s[1..])
  }

  /** `extract_links(text)`; `None` and the empty text give no links. */
  function ExtractLinks(text: Option<string>): (r: seq<string>)
    ensures !Truthy(text) ==> r == []
    ensures forall i :: 0 <= i < |r| ==> IsLink(r[i])
  {
    FindLinks(if text.Some? then text.value else "")
  }

  lemma NoLinkStartsAtSpace(s: string)
    requires s != [] && IsSpace(s[0])
    ensures !LinkStartsAt(s)
  {
  }

  /** A match that starts before a whitespace character ends before it. */
  lemma LinkStartBeforeSpace(a: string, c: char, b: string)
    requires IsSpace(c) && a != []
    ensures LinkStartsAt(a + [c] + b) <==> LinkStartsAt(a)
    ensures LinkStartsAt(a) ==> SchemeLength(a + [c] + b) == SchemeLength(a)
  {
    var s := a + [c] + b;
    assert s[|a|] == c;
    assert forall i :: 0 <= i < |a| ==> s[i] == a[i];
  }

  lemma RunBeforeSpace(a: string, c: char, b: string)
    requires IsSpace(c)
    ensures RunLength(a + [c] + b) == RunLength(a)
    ensures (a + [c] + b)[RunLength(a)..] == a[RunLength(a)..] + [c] + b
    decreases |a|
  {
    var s := a + [c] + b;
    if a == [] {
    } else if IsSpace(a[0]) {
    } else {
      assert s[1..] == a[1..] + [c] + b;
      RunBeforeSpace(a[1..], c, b);
    }
  }

  /** Whitespace splits the text: the links of `a c b` for a whitespace `c`
      are the links of `a` followed by those of `b`. */
  lemma {:induction false} FindLinksSplit(a: string, c: char, b: string)
    requires IsSpace(c)
    ensures FindLinks(a + [c] + b) == FindLinks(a) + FindLinks(b)
    decreases |a|
  {
    var s := a + [c] + b;
    if a == [] {
      assert s == [c] + b && s[1..] == b;
      NoLinkStartsAtSpace(s);
    } else {
      LinkStartBeforeSpace(a, c, b);
      if LinkStartsAt(a) {
        var n := RunLength(a);
        RunBeforeSpace(a, c, b);
        assert s[..n] == a[..n];
        if n == |a| {
          assert s[n..] == [c] + b;
          assert a[n..] == [];
          FindLinksSplit([], c, b);
          assert [] + [c] + b == [c] + b;
        } else {
          assert s[n..] == a[n..] + [c] + b;
          FindLinksSplit(a[n..], c, b);
        }
      } else {
        assert s[1..] == a[1..] + [c] + b;
        FindLinksSplit(a[1..], c, b);
      }
    }
  }

  /** In a text without whitespace the scan finds one link at most: the
      rest of the text from the first place where a scheme is followed by
      at least one character, as in `see:https://x.org`; no link when there
      is no such place (`k == |w|`). */
  lemma FindLinksInWord(w: string, k: nat)
    requires NoSpace(w) && k <= |w| && forall j :: 0 <= j < k ==> !LinkStartsAt(w[j..])
    requires k == |w| || LinkStartsAt(w[k..])
    ensures FindLinks(w) == if k == |w| then [] else [w[k..]]
  {
    SkipToLink(w, k);
    if k < |w| {
      var t := w[k..];
      assert NoSpace(t) by { assert forall i :: 0 <= i < |t| ==> t[i] == w[k + i]; }
      assert RunLength(t) == |t|;
      assert t[..|t|] == t && t[|t|..] == [];
    }
  }

  /** Places where no link starts are passed over one at a time. */
  lemma {:induction false} SkipToLink(w: string, k: nat)
    requires k <= |w| && forall j :: 0 <= j < k ==> !LinkStartsAt(w[j..])
    ensures FindLinks(w) == FindLinks(w[k..])
  {
    if k > 0 {
      SkipToLink(w, k - 1);
      assert w[k - 1..][1..] == w[k..];
    } else {
      assert w[0..] == w;
    }
  }

  /** A word that starts with a scheme and has no whitespace is one link. */
  lemma FindLinksWord(w: string)
    requires IsLink(w)
    ensures FindLinks(w) == [w]
  {
    var k := SchemeLength(w);
    assert !IsSpace(w[k]);
    assert LinkStartsAt(w);
    assert w[..|w|] == w;
    assert RunLength(w) == |w|;
  }
}
