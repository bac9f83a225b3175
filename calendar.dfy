/** The proleptic Gregorian calendar shared by Python's `datetime` and
    SQLite's date functions: validity of a date, its ISO text, and a day
    count that SQLite-style overflowing days (31 February) roll forward on. */
module Calendar {
  import opened Common

  datatype Date = Date(year: int, month: int, day: int)

  predicate IsLeap(y: int)
  {
    y % 4 == 0 && (y % 100 != 0 || y % 400 == 0)
  }

  function DaysInMonth(y: int, m: int): (n: int)
    requires 1 <= m <= 12
    ensures 28 <= n <= 31
    ensures m == 2 ==> (n == 29 <==> IsLeap(y))
  {
    if m == 2 then (if IsLeap(y) then 29 else 28)
    else if m == 4 || m == 6 || m == 9 || m == 11 then 30
    else 31
  }

  /** What `datetime(year, month, day)` accepts. */
  predicate ValidDate(d: Date)
  {
    1 <= d.year <= 9999 && 1 <= d.month <= 12 && 1 <= d.day <= DaysInMonth(d.year, d.month)
  }

  /** `d.strftime("%Y-%m-%d")` */
  function IsoString(d: Date): (r: string)
    requires ValidDate(d)
    ensures |r| == 10 && r[4] == '-' && r[7] == '-'
    ensures AllDigits(r[..4]) && Value(r[..4]) == d.year
    ensures AllDigits(r[5..7]) && Value(r[5..7]) == d.month
    ensures AllDigits(r[8..]) && Value(r[8..]) == d.day
  {
    var r := Pad4(d.year) + "-" + Pad2(d.month) + "-" + Pad2(d.day);
    assert r[..4] == Pad4(d.year) && r[5..7] == Pad2(d.month) && r[8..] == Pad2(d.day);
    r
  }

  /** Days in the years before `y`, counted from year 1. */
  function DaysBeforeYear(y: int): int
  {
    var p := y - 1;
    365 * p + p / 4 - p / 100 + p / 400
  }

  function DaysBeforeMonth(y: int, m: int): (n: int)
    requires 1 <= m <= 12
    ensures 28 * (m - 1) <= n <= 31 * (m - 1)
    decreases m
  {
    if m == 1 then 0 else DaysBeforeMonth(y, m - 1) + DaysInMonth(y, m - 1)
  }

  /** Day count of a date whose day may run past the end of its month, as
      SQLite's Julian-day arithmetic lets it: the count is linear in `day`. */
  function DayNumber(d: Date): int
    requires 1 <= d.month <= 12
  {
    DaysBeforeYear(d.year) + DaysBeforeMonth(d.year, d.month) + d.day
  }

  /** Consecutive days of a month have consecutive day numbers, and the
      first of the next month follows the last day of this one. */
  lemma DayNumberNext(d: Date)
    requires ValidDate(d)
    ensures d.day < DaysInMonth(d.year, d.month) ==>
      DayNumber(Date(d.year, d.month, d.day + 1)) == DayNumber(d) + 1
    ensures d.day == DaysInMonth(d.year, d.month) && d.month < 12 ==>
      DayNumber(Date(d.year, d.month + 1, 1)) == DayNumber(d) + 1
  {
  }

  lemma DaysInYear(y: int)
    ensures DaysBeforeMonth(y, 12) + 31 == if IsLeap(y) then 366 else 365
  {
  }

  /** The first of January follows the thirty-first of December. */
  lemma {:induction false} DayNumberNewYear(y: int)
    requires 1 <= y < 9999
    ensures DayNumber(Date(y + 1, 1, 1)) == DayNumber(Date(y, 12, 31)) + 1
  {
    DaysInYear(y);
    var p := y - 1;
    assert p + 1 == y;
    if y % 400 == 0 {
      assert (p + 1) / 400 == p / 400 + 1 && (p + 1) / 100 == p / 100 + 1 && (p + 1) / 4 == p / 4 + 1;
    } else if y % 100 == 0 {
      assert (p + 1) / 400 == p / 400 && (p + 1) / 100 == p / 100 + 1 && (p + 1) / 4 == p / 4 + 1;
    } else if y % 4 == 0 {
      assert (p + 1) / 400 == p / 400 && (p + 1) / 100 == p / 100 && (p + 1) / 4 == p / 4 + 1;
    } else {
      assert (p + 1) / 400 == p / 400 && (p + 1) / 100 == p / 100 && (p + 1) / 4 == p / 4;
    }
  }
}
