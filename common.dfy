/** Shared vocabulary: optional values, Python truthiness of optional strings,
    `str.strip()`, ASCII digit strings, `str(int)` / `int(str)`, the last
    `_`-separated segment of a callback string, and code-point string order. */
module Common {

  datatype Option<+T> = None | Some(value: T)

  /** Python truthiness of an optional string: `None` and `""` are falsy. */
  predicate Truthy(s: Option<string>)
  {
    s.Some? && s.value != ""
  }

  /** Python's `s or fallback` on an optional string. */
  function OrElse(s: Option<string>, fallback: string): string
  {
    if Truthy(s) then s.value else fallback
  }

  /** The characters `str.isspace()` accepts; the same set `\s` matches in a
      `str` regular expression. */
  predicate IsSpace(c: char)
  {
    var n := c as int;
    (9 <= n <= 13) || (28 <= n <= 32) || n == 0x85 || n == 0xA0 || n == 0x1680
    || (0x2000 <= n <= 0x200A) || n == 0x2028 || n == 0x2029 || n == 0x202F
    || n == 0x205F || n == 0x3000
  }

  /** `s.lstrip()` */
  function LStrip(s: string): (r: string)
    ensures |r| <= |s|
  {
    if s != [] && IsSpace(s[0]) then LStrip(s[1..]) else s
  }

  /** `s.rstrip()` */
  function RStrip(s: string): (r: string)
    ensures |r| <= |s|
  {
    if s != [] && IsSpace(s[|s| - 1]) then RStrip(s[..|s| - 1]) else s
  }

  /** `s.strip()` */
  function Strip(s: string): (r: string)
    ensures |r| <= |s|
  {
    RStrip(LStrip(s))
  }

  lemma {:induction false} LStripFacts(s: string)
    ensures var r := LStrip(s); r == s[|s| - |r|..] && (r == [] || !IsSpace(r[0]))
    ensures forall i :: 0 <= i < |s| - |LStrip(s)| ==> IsSpace(s[i])
  {
    if s != [] && IsSpace(s[0]) {
      LStripFacts(s[1..]);
    }
  }

  lemma {:induction false} RStripFacts(s: string)
    ensures var r := RStrip(s); r == s[..|r|] && (r == [] || !IsSpace(r[|r| - 1]))
    ensures forall i :: |RStrip(s)| <= i < |s| ==> IsSpace(s[i])
  {
    if s != [] && IsSpace(s[|s| - 1]) {
      RStripFacts(s[..|s| - 1]);
    }
  }

  /** The result of `strip()` is a slice of its input that neither starts
      nor ends with whitespace, and everything cut off is whitespace. */
  lemma StripFacts(s: string)
    ensures var r := Strip(s); var k := |s| - |LStrip(s)|;
      k + |r| <= |s| && r == s[k..k + |r|] && (r == [] || (!IsSpace(r[0]) && !IsSpace(r[|r| - 1])))
    ensures forall i :: 0 <= i < |s| - |LStrip(s)| ==> IsSpace(s[i])
    ensures forall i :: |s| - |LStrip(s)| + |Strip(s)| <= i < |s| ==> IsSpace(s[i])
  {
    var l := LStrip(s);
    LStripFacts(s);
    RStripFacts(l);
    TrimmedEnds(s, l, RStrip(l));
  }

  /** A prefix `r` of a suffix `l` of `s` is the slice of `s` at the same
      place, and what follows `r` in `l` follows it in `s`. */
  lemma TrimmedEnds(s: string, l: string, r: string)
    requires |l| <= |s| && l == s[|s| - |l|..]
    requires |r| <= |l| && r == l[..|r|] && forall i :: |r| <= i < |l| ==> IsSpace(l[i])
    ensures var k := |s| - |l|; r == s[k..k + |r|]
    ensures forall i :: |s| - |l| + |r| <= i < |s| ==> IsSpace(s[i])
  {
    var k := |s| - |l|;
    forall i | k + |r| <= i < |s| ensures IsSpace(s[i]) {
      assert s[i] == l[i - k];
    }
  }

  /** A string that neither starts nor ends with whitespace is its own strip. */
  lemma StripNoEdgeSpace(s: string)
    requires s == [] || (!IsSpace(s[0]) && !IsSpace(s[|s| - 1]))
    ensures Strip(s) == s
  {
    assert LStrip(s) == s;
  }

  predicate IsDigit(c: char)
  {
    '0' <= c <= '9'
  }

  predicate AllDigits(s: string)
  {
    forall i :: 0 <= i < |s| ==> IsDigit(s[i])
  }

  function DigitChar(d: nat): (c: char)
    requires d < 10
    ensures IsDigit(c) && c as int - '0' as int == d
  {
    ('0' as int + d) as char
  }

  /** The number a string of decimal digits denotes (`int(s)` on digits). */
  function Value(s: string): nat
    requires AllDigits(s)
  {
    if s == [] then 0 else Value(s[..|s| - 1]) * 10 + (s[|s| - 1] as int - '0' as int)
  }

  lemma ValueOne(t: string)
    requires |t| == 1 && AllDigits(t)
    ensures Value(t) == t[0] as int - '0' as int
  {
    assert t[..0] == [];
  }

  lemma ValueTwo(t: string)
    requires |t| == 2 && AllDigits(t)
    ensures Value(t) == (t[0] as int - '0' as int) * 10 + (t[1] as int - '0' as int)
  {
    ValueOne(t[..1]);
  }

  lemma ValueShort(t: string)
    requires 1 <= |t| <= 2 && AllDigits(t)
    ensures Value(t) == if |t| == 1 then t[0] as int - '0' as int
      else (t[0] as int - '0' as int) * 10 + (t[1] as int - '0' as int)
  {
    if |t| == 1 { ValueOne(t); } else { ValueTwo(t); }
  }

  /** Two-digit zero-padded decimal, as `f"{n:02d}"` for n < 100. */
  function Pad2(n: nat): (r: string)
    requires n < 100
    ensures |r| == 2 && AllDigits(r) && Value(r) == n
  {
    var r := [DigitChar(n / 10), DigitChar(n % 10)];
    assert r[..1][..0] == [];
    assert Value(r[..1]) == n / 10;
    r
  }

  /** The two characters of `Pad2(n)` are the tens and the units of `n`. */
  lemma Pad2Digits(n: nat)
    requires n < 100
    ensures IsDigit(Pad2(n)[0]) && IsDigit(Pad2(n)[1])
    ensures Pad2(n)[0] as int - '0' as int == n / 10 && Pad2(n)[1] as int - '0' as int == n % 10
  {
  }

  /** Four-digit zero-padded decimal, as `f"{n:04d}"` for n < 10000. */
  function Pad4(n: nat): (r: string)
    requires n < 10000
    ensures |r| == 4 && AllDigits(r) && Value(r) == n
  {
    var r := [DigitChar(n / 1000), DigitChar(n / 100 % 10), DigitChar(n / 10 % 10), DigitChar(n % 10)];
    assert r[..1][..0] == [] && r[..2][..1] == r[..1] && r[..3][..2] == r[..2];
    assert Value(r[..1]) == n / 1000;
    assert Value(r[..2]) == n / 100;
    assert Value(r[..3]) == n / 10;
    r
  }

  /** Two digits read back by `Value` are re-printed unchanged by `Pad2`. */
  lemma Pad2Value(s: string)
    requires |s| == 2 && AllDigits(s)
    ensures Value(s) < 100 && Pad2(Value(s)) == s
  {
    assert s[..1][..0] == [];
    assert Value(s[..1]) == s[0] as int - '0' as int;
    assert Value(s) == (s[0] as int - '0' as int) * 10 + (s[1] as int - '0' as int);
  }

  /** Decimal digits of a natural number, without leading zeros. */
  function NatToString(n: nat): (r: string)
    ensures |r| >= 1 && AllDigits(r)
    ensures |r| > 1 ==> r[0] != '0'
  {
    if n < 10 then [DigitChar(n)] else NatToString(n / 10) + [DigitChar(n % 10)]
  }

  /** Python's `str(i)` for an integer. */
  function IntToString(i: int): string
  {
    if i < 0 then "-" + NatToString(-i) else NatToString(i)
  }

  lemma {:induction false} NatToStringValue(n: nat)
    ensures Value(NatToString(n)) == n
  {
    if n >= 10 {
      NatToStringValue(n / 10);
      var s := NatToString(n);
      assert s[..|s| - 1] == NatToString(n / 10);
    }
  }

  /** Python's `int(s)` for the forms it accepts here: surrounding whitespace,
      an optional sign and at least one ASCII digit. */
  function ParseInt(s: string): (r: Option<int>)
    ensures r.Some? ==> Strip(s) != []
  {
    var t := Strip(s);
    if |t| >= 2 && (t[0] == '-' || t[0] == '+') && AllDigits(t[1..]) then
      Some(if t[0] == '-' then -(Value(t[1..]) as int) else Value(t[1..]))
    else if |t| >= 1 && AllDigits(t) then Some(Value(t))
    else None
  }

  /** `int(str(i)) == i` for every integer. */
  lemma IntToStringRoundTrip(i: int)
    ensures ParseInt(IntToString(i)) == Some(i)
  {
    var s := IntToString(i);
    var digits := NatToString(if i < 0 then -i else i);
    NatToStringValue(if i < 0 then -i else i);
    assert !IsSpace(s[0]) && !IsSpace(s[|s| - 1]);
    StripNoEdgeSpace(s);
    if i < 0 {
      assert s[1..] == digits;
    } else {
      assert s == digits;
      assert !(s[0] == '-' || s[0] == '+');
    }
  }

  /** `s.split('_')[-1]`: what follows the last underscore, or all of `s`. */
  function LastSegment(s: string): (r: string)
    ensures |r| <= |s| && r == s[|s| - |r|..]
    ensures '_' !in r
    ensures |r| < |s| ==> s[|s| - |r| - 1] == '_'
  {
    if s == [] then []
    else if s[|s| - 1] == '_' then []
    else LastSegment(s[..|s| - 1]) + [s[|s| - 1]]
  }

  /** The segment after a separating underscore is recovered exactly. */
  lemma {:induction false} LastSegmentOf(prefix: string, x: string)
    requires '_' !in x
    ensures LastSegment(prefix + "_" + x) == x
  {
    if x == [] {
    } else {
      var s := prefix + "_" + x;
      assert s[..|s| - 1] == prefix + "_" + x[..|x| - 1];
      LastSegmentOf(prefix, x[..|x| - 1]);
    }
  }

  /** Code-point (Python) / byte (SQLite BINARY over UTF-8) string order. */
  predicate StrLe(a: string, b: string)
  {
    a == [] || (b != [] && (a[0] < b[0] || (a[0] == b[0] && StrLe(a[1..], b[1..]))))
  }

  lemma {:induction false} StrLeTotal(a: string, b: string)
    ensures StrLe(a, b) || StrLe(b, a)
  {
    if a != [] && b != [] && a[0] == b[0] {
      StrLeTotal(a[1..], b[1..]);
    }
  }

  lemma {:induction false} StrLeTrans(a: string, b: string, c: string)
    requires StrLe(a, b) && StrLe(b, c)
    ensures StrLe(a, c)
  {
    if a != [] && b != [] && c != [] && a[0] == b[0] && b[0] == c[0] {
      StrLeTrans(a[1..], b[1..], c[1..]);
    }
  }
}
