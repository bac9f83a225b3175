/** The part of SQLite's date and time functions that the store's queries
    rely on: `datetime(text)` and `date(text)` for a text that starts with a
    `YYYY-MM-DD` date, read as a count of minutes on the proleptic Gregorian
    calendar. A day past the end of its month and the hour 24 roll forward,
    as SQLite's Julian-day arithmetic makes them. */
module SqlTime {
  import opened Common
  import opened Calendar

  /** `sqlite3Isspace`: the ASCII whitespace characters. */
  predicate SqlSpace(c: char)
  {
    c == ' ' || ('\t' <= c <= '\r')
  }

  predicate Digits2(s: string, i: nat)
  {
    i + 2 <= |s| && IsDigit(s[i]) && IsDigit(s[i + 1])
  }

  /** The two-digit number at `i`. */
  function Num2(s: string, i: nat): (n: nat)
    requires Digits2(s, i)
    ensures n < 100
  {
    (s[i] as int - '0' as int) * 10 + (s[i + 1] as int - '0' as int)
  }

  /** The `YYYY-MM-DD` at the start of `s`: four digits, a dash, a month
      from 01 to 12, a dash and a day from 01 to 31 in every month. */
  function DatePrefix(s: string): (r: Option<Date>)
    ensures r.Some? ==> |s| >= 10 && s[4] == '-' && s[7] == '-'
    ensures r.Some? ==> 0 <= r.value.year <= 9999 && 1 <= r.value.month <= 12 && 1 <= r.value.day <= 31
  {
    if |s| >= 10 && Digits2(s, 0) && Digits2(s, 2) && s[4] == '-' && Digits2(s, 5) && s[7] == '-'
       && Digits2(s, 8) && 1 <= Num2(s, 5) <= 12 && 1 <= Num2(s, 8) <= 31
    then Some(Date(Num2(s, 0) * 100 + Num2(s, 2), Num2(s, 5), Num2(s, 8)))
    else None
  }

  /** Index of the first character at or after `i` that is neither ASCII
      whitespace nor `T`: what SQLite skips between a date and its time. */
  function SkipSep(s: string, i: nat): (k: nat)
    requires i <= |s|
    ensures i <= k <= |s| && (k < |s| ==> !SqlSpace(s[k]) && s[k] != 'T')
    ensures forall j :: i <= j < k ==> SqlSpace(s[j]) || s[j] == 'T'
    decreases |s| - i
  {
    if i < |s| && (SqlSpace(s[i]) || s[i] == 'T') then SkipSep(s, i + 1) else i
  }

  predicate SpacesFrom(s: string, i: nat)
  {
    forall j :: i <= j < |s| ==> SqlSpace(s[j])
  }

  /** `:SS` at `i`, the second from 00 to 59, followed by nothing but
      whitespace. */
  predicate SecondsAt(s: string, i: nat)
  {
    i < |s| && s[i] == ':' && Digits2(s, i + 1) && Num2(s, i + 1) <= 59 && SpacesFrom(s, i + 3)
  }

  /** An `HH:MM` at `k`, the hour from 00 to 24 and the minute from 00 to 59,
      then an optional `:SS`, followed by nothing but whitespace: the whole
      minutes of the day it names. The seconds never change the outcome of
      the store's query, whose bounds are minute texts without seconds. */
  function ClockAt(s: string, k: nat): (r: Option<int>)
    ensures r.Some? ==> 0 <= r.value <= 24 * 60 + 59
  {
    if Digits2(s, k) && k + 2 < |s| && s[k + 2] == ':' && Digits2(s, k + 3)
       && Num2(s, k) <= 24 && Num2(s, k + 3) <= 59 && (SpacesFrom(s, k + 5) || SecondsAt(s, k + 5))
    then Some(Num2(s, k) * 60 + Num2(s, k + 3))
    else None
  }

  /** `datetime(s)` as a count of minutes, or `None` for NULL: the date
      alone is midnight; a time must follow the separator exactly. */
  function SqlMinutes(s: string): (r: Option<int>)
    ensures r.Some? ==> DatePrefix(s).Some?
    ensures r.Some? ==> var base := DayNumber(DatePrefix(s).value) * 1440;
      base <= r.value <= base + 24 * 60 + 59
  {
    match DatePrefix(s)
    case None => None
    case Some(d) =>
      var k := SkipSep(s, 10);
      if k == |s| then Some(DayNumber(d) * 1440)
      else match ClockAt(s, k)
        case None => None
        case Some(c) => Some(DayNumber(d) * 1440 + c)
  }

  /** `date(s)` as a day count, or `None` for NULL. */
  function SqlDay(s: Option<string>): (r: Option<int>)
    ensures s.None? ==> r.None?
    ensures r.Some? ==> SqlMinutes(s.value).Some? && r.value == SqlMinutes(s.value).value / 1440
  {
    if s.None? then None
    else match SqlMinutes(s.value)
      case None => None
      case Some(t) => Some(t / 1440)
  }

  /** The ISO text of a valid date is read back as that date. */
  lemma DatePrefixIso(d: Date, rest: string)
    requires ValidDate(d)
    ensures DatePrefix(IsoString(d) + rest) == Some(d)
  {
    var s := IsoString(d) + rest;
    IsoStringChars(d);
    assert forall i :: 0 <= i < 10 ==> s[i] == IsoString(d)[i];
    DecimalYear(d.year);
  }

  /** The digits of an ISO date, character by character. */
  lemma IsoStringChars(d: Date)
    requires ValidDate(d)
    ensures var r := IsoString(d);
      |r| == 10 && r[4] == '-' && r[7] == '-'
      && (forall i :: 0 <= i < 10 && i != 4 && i != 7 ==> IsDigit(r[i]))
      && r[0] as int - '0' as int == d.year / 1000 && r[1] as int - '0' as int == d.year / 100 % 10
      && r[2] as int - '0' as int == d.year / 10 % 10 && r[3] as int - '0' as int == d.year % 10
      && r[5] as int - '0' as int == d.month / 10 && r[6] as int - '0' as int == d.month % 10
      && r[8] as int - '0' as int == d.day / 10 && r[9] as int - '0' as int == d.day % 10
  {
  }

  lemma DecimalYear(n: nat)
    requires n < 10000
    ensures ((n / 1000) * 10 + n / 100 % 10) * 100 + (n / 10 % 10) * 10 + n % 10 == n
  {
  }

  /** A date alone is read as its midnight. */
  lemma SqlMinutesDateOnly(d: Date)
    requires ValidDate(d)
    ensures SqlMinutes(IsoString(d)) == Some(DayNumber(d) * 1440)
  {
    DatePrefixIso(d, []);
    assert IsoString(d) + [] == IsoString(d);
  }

  /** The canonical `YYYY-MM-DD HH:MM` of a date and a time of day is read
      as that date's day count in minutes plus the minutes of the day. */
  lemma SqlMinutesCanonical(d: Date, h: nat, m: nat)
    requires ValidDate(d) && h <= 23 && m <= 59
    ensures SqlMinutes(IsoString(d) + " " + Pad2(h) + ":" + Pad2(m)) == Some(DayNumber(d) * 1440 + h * 60 + m)
  {
    var s := IsoString(d) + " " + Pad2(h) + ":" + Pad2(m);
    var rest := " " + Pad2(h) + ":" + Pad2(m);
    assert s == IsoString(d) + rest;
    DatePrefixIso(d, rest);
    assert s[10..] == rest;
    ClockAfterDate(s, d, h, m);
  }

  /** A date followed by ` HH:MM`: the separator is the one space and the
      clock reads `HH * 60 + MM` minutes into that day. */
  lemma ClockAfterDate(s: string, d: Date, h: nat, m: nat)
    requires DatePrefix(s) == Some(d)
    requires h <= 23 && m <= 59 && |s| >= 10 && s[10..] == " " + Pad2(h) + ":" + Pad2(m)
    ensures SkipSep(s, 10) == 11 && ClockAt(s, 11) == Some(h * 60 + m)
    ensures SqlMinutes(s) == Some(DayNumber(d) * 1440 + h * 60 + m)
  {
    Pad2Digits(h);
    Pad2Digits(m);
    assert |s| == 16 && s[10] == ' ' && s[11] == Pad2(h)[0] && s[12] == Pad2(h)[1] && s[13] == ':'
      && s[14] == Pad2(m)[0] && s[15] == Pad2(m)[1];
    assert SkipSep(s, 11) == 11;
  }
}
