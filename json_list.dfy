/** The JSON text the draft store keeps in its `messages` and `files`
    columns: `json.dumps` of a list whose items are strings or `None`, and
    the reading `json.loads` gives back (database.py:188-189, 213, 237). */
module JsonList {
  import opened Common

  type Items = seq<Option<string>>

  function HexDigit(n: nat): char
    requires n < 16
  {
    if n < 10 then ('0' as int + n) as char else ('a' as int + n - 10) as char
  }

  predicate IsHex(c: char)
  {
    ('0' <= c <= '9') || ('a' <= c <= 'f') || ('A' <= c <= 'F')
  }

  function HexValue(c: char): (v: nat)
    requires IsHex(c)
    ensures v < 16
  {
    if '0' <= c <= '9' then c as int - '0' as int
    else if 'a' <= c <= 'f' then c as int - 'a' as int + 10
    else c as int - 'A' as int + 10
  }

  /** How one character is written inside a JSON string literal. */
  function EscapeChar(c: char): string
  {
    if c == '"' then "\\\""
    else if c == '\\' then "\\\\"
    else if c == '\n' then "\\n"
    else if c == '\r' then "\\r"
    else if c == '\t' then "\\t"
    else if c as int == 8 then "\\b"
    else if c as int == 12 then "\\f"
    else if c as int < 0x20 then "\\u00" + [HexDigit(c as int / 16), HexDigit(c as int % 16)]
    else [c]
  }

  function EscapeString(s: string): string
  {
    if s == [] then [] else EscapeChar(s[0]) + EscapeString(s[1..])
  }

  function EncodeItem(x: Option<string>): string
  {
    match x
    case None => "null"
    case Some(s) => "\"" + EscapeString(s) + "\""
  }

  function EncodeItems(xs: Items): string
  {
    if xs == [] then []
    else if |xs| == 1 then EncodeItem(xs[0])
    else EncodeItem(xs[0]) + ", " + EncodeItems(xs[1..])
  }

  /** `json.dumps(xs)`: `[`, the items separated by `", "`, `]`. */
  function EncodeList(xs: Items): string
  {
    "[" + EncodeItems(xs) + "]"
  }

  predicate IsJsonSpace(c: char)
  {
    c == ' ' || c == '\t' || c == '\n' || c == '\r'
  }

  function SkipSpace(s: string): (r: string)
    ensures |r| <= |s|
  {
    if s != [] && IsJsonSpace(s[0]) then SkipSpace(s[1..]) else s
  }

  /** Four hexadecimal digits at `i`. */
  predicate HexQuadAt(s: string, i: nat)
  {
    i + 4 <= |s| && IsHex(s[i]) && IsHex(s[i + 1]) && IsHex(s[i + 2]) && IsHex(s[i + 3])
  }

  function HexQuad(s: string, i: nat): (v: nat)
    requires HexQuadAt(s, i)
    ensures v < 0x10000
  {
    HexValue(s[i]) * 4096 + HexValue(s[i + 1]) * 256 + HexValue(s[i + 2]) * 16 + HexValue(s[i + 3])
  }

  /** The character an escape sequence stands for, given the text after the
      backslash, with the number of characters the sequence occupies there.
      A high surrogate escape followed by a low surrogate escape stands for
      the one character the pair encodes; a lone surrogate is refused. */
  function Unescape(s: string): (r: Option<(char, nat)>)
    ensures r.Some? ==> 1 <= r.value.1 <= |s|
  {
    if s == [] then None
    else if s[0] == '"' || s[0] == '\\' || s[0] == '/' then Some((s[0], 1))
    else if s[0] == 'b' then Some((8 as char, 1))
    else if s[0] == 'f' then Some((12 as char, 1))
    else if s[0] == 'n' then Some(('\n', 1))
    else if s[0] == 'r' then Some(('\r', 1))
    else if s[0] == 't' then Some(('\t', 1))
    else if s[0] == 'u' && HexQuadAt(s, 1) then
      var v := HexQuad(s, 1);
      if 0xD800 <= v < 0xDC00 && 11 <= |s| && s[5] == '\\' && s[6] == 'u' && HexQuadAt(s, 7)
         && 0xDC00 <= HexQuad(s, 7) < 0xE000
      then Some(((0x10000 + (v - 0xD800) * 0x400 + (HexQuad(s, 7) - 0xDC00)) as char, 11))
      else if 0xD800 <= v < 0xE000 then None
      else Some((v as char, 5))
    else None
  }

  /** Four lower-case hexadecimal digits of `n`. */
  function Hex4(n: nat): (r: string)
    requires n < 0x10000
    ensures |r| == 4
  {
    [HexDigit(n / 16 / 16 / 16), HexDigit(n / 16 / 16 % 16), HexDigit(n / 16 % 16), HexDigit(n % 16)]
  }

  /** `\uHHHH\uLLLL`: the escape `json.dumps` writes for a character beyond
      the 16-bit range, as a UTF-16 surrogate pair. */
  function PairEscape(c: char): (r: string)
    requires c as int >= 0x10000
    ensures |r| == 12
  {
    var u := c as int - 0x10000;
    SurrogateEscape(0xD800 + u / 0x400, 0xDC00 + u % 0x400)
  }

  /** `\uHHHH\uLLLL` for the two halves `hi` and `lo`. */
  function SurrogateEscape(hi: nat, lo: nat): (r: string)
    requires hi < 0x10000 && lo < 0x10000
    ensures |r| == 12
  {
    "\\u" + Hex4(hi) + "\\u" + Hex4(lo)
  }

  lemma HexDigitValue(n: nat)
    requires n < 16
    ensures IsHex(HexDigit(n)) && HexValue(HexDigit(n)) == n
  {
  }

  /** Four digits written by `Hex4` are read back as the number. */
  lemma Hex4Read(n: nat, s: string, i: nat)
    requires n < 0x10000 && i + 4 <= |s| && s[i..i + 4] == Hex4(n)
    ensures HexQuadAt(s, i) && HexQuad(s, i) == n
  {
    var h := Hex4(n);
    assert s[i] == h[0] && s[i + 1] == h[1] && s[i + 2] == h[2] && s[i + 3] == h[3];
    var q1, q2 := n / 16, n / 16 / 16;
    HexDigitValue(q2 / 16);
    HexDigitValue(q2 % 16);
    HexDigitValue(q1 % 16);
    HexDigitValue(n % 16);
    assert n == q1 * 16 + n % 16 && q1 == q2 * 16 + q1 % 16 && q2 == q2 / 16 * 16 + q2 % 16;
  }

  /** A surrogate-pair escape is read back as the one character it encodes. */
  lemma UnescapePair(c: char)
    requires c as int >= 0x10000
    ensures Unescape(PairEscape(c)[1..]) == Some((c, 11))
  {
    var u := c as int - 0x10000;
    var hi, lo := 0xD800 + u / 0x400, 0xDC00 + u % 0x400;
    SurrogateHalves(u);
    assert PairEscape(c) == SurrogateEscape(hi, lo);
    UnescapeHex4Pair(hi, lo);
    assert 0x10000 + (hi - 0xD800) * 0x400 + (lo - 0xDC00) == c as int;
  }

  /** The two halves of a code point above the 16-bit range. */
  lemma SurrogateHalves(u: nat)
    requires u < 0x100000
    ensures 0xD800 <= 0xD800 + u / 0x400 < 0xDC00 && 0xDC00 <= 0xDC00 + u % 0x400 < 0xE000
    ensures (u / 0x400) * 0x400 + u % 0x400 == u
  {
  }

  /** The text after the first backslash of `\uHHHH\uLLLL`, for a high and a
      low surrogate. */
  lemma UnescapeHex4Pair(hi: nat, lo: nat)
    requires 0xD800 <= hi < 0xDC00 && 0xDC00 <= lo < 0xE000
    ensures Unescape(SurrogateEscape(hi, lo)[1..])
      == Some(((0x10000 + (hi - 0xD800) * 0x400 + (lo - 0xDC00)) as char, 11))
  {
    var t := SurrogateEscape(hi, lo)[1..];
    PairText(Hex4(hi), Hex4(lo));
    Hex4Read(hi, t, 1);
    Hex4Read(lo, t, 7);
    UnescapeQuads(t, hi, lo);
  }

  lemma PairText(h: string, l: string)
    requires |h| == 4 && |l| == 4
    ensures var t := ("\\u" + h + "\\u" + l)[1..];
      |t| == 11 && t[0] == 'u' && t[1..5] == h && t[5] == '\\' && t[6] == 'u' && t[7..11] == l
  {
  }

  /** `u`, a high surrogate, `\u` and a low surrogate: the pair's character. */
  lemma UnescapeQuads(t: string, hi: nat, lo: nat)
    requires |t| >= 11 && t[0] == 'u' && t[5] == '\\' && t[6] == 'u'
    requires HexQuadAt(t, 1) && HexQuad(t, 1) == hi && 0xD800 <= hi < 0xDC00
    requires HexQuadAt(t, 7) && HexQuad(t, 7) == lo && 0xDC00 <= lo < 0xE000
    ensures Unescape(t) == Some(((0x10000 + (hi - 0xD800) * 0x400 + (lo - 0xDC00)) as char, 11))
  {
  }

  /** Reads a string literal whose opening quote is already consumed: the
      decoded text and what follows the closing quote. Raw control
      characters are refused, as `json.loads` does by default. */
  function ReadString(s: string): (r: Option<(string, string)>)
    ensures r.Some? ==> |r.value.1| < |s|
    decreases |s|
  {
    if s == [] then None
    else if s[0] == '"' then Some(([], s[1..]))
    else if s[0] == '\\' then
      match Unescape(s[1..])
      case None => None
      case Some((c, n)) =>
        match ReadString(s[1 + n..])
        case None => None
        case Some((t, rest)) => Some(([c] + t, rest))
    else if s[0] as int < 0x20 then None
    else
      match ReadString(s[1..])
      case None => None
      case Some((t, rest)) => Some(([s[0]] + t, rest))
  }

  /** One list item, `null` or a string literal, after optional whitespace. */
  function ReadItem(s: string): (r: Option<(Option<string>, string)>)
    ensures r.Some? ==> |r.value.1| < |s|
  {
    var t := SkipSpace(s);
    if |t| >= 4 && t[0] == 'n' && t[1] == 'u' && t[2] == 'l' && t[3] == 'l' then Some((None, t[4..]))
    else if t != [] && t[0] == '"' then
      match ReadString(t[1..])
      case None => None
      case Some((v, rest)) => Some((Some(v), rest))
    else None
  }

  /** The items of a non-empty list, up to and including its closing `]`. */
  function ReadItems(s: string): (r: Option<(Items, string)>)
    ensures r.Some? ==> |r.value.1| < |s|
    decreases |s|
  {
    match ReadItem(s)
    case None => None
    case Some((x, rest)) =>
      var t := SkipSpace(rest);
      if t != [] && t[0] == ']' then Some(([x], t[1..]))
      else if t != [] && t[0] == ',' then
        match ReadItems(t[1..])
        case None => None
        case Some((xs, rest')) => Some(([x] + xs, rest'))
      else None
  }

  /** `json.loads(s)` for a text holding a list of strings and nulls, with
      whitespace allowed between tokens; `None` for any other text. */
  function DecodeList(s: string): Option<Items>
  {
    var t := SkipSpace(s);
    if t == [] || t[0] != '[' then None
    else
      var u := SkipSpace(t[1..]);
      var parsed: Option<(Items, string)> := if u != [] && u[0] == ']' then Some(([], u[1..])) else ReadItems(u);
      match parsed
      case None => None
      case Some((xs, rest)) => if SkipSpace(rest) == [] then Some(xs) else None
  }

  lemma ReadShortEscape(c: char, tail: string, s: string, rest: string)
    requires c == '"' || c == '\\' || c == '\n' || c == '\r' || c == '\t' || c as int == 8 || c as int == 12
    requires ReadString(tail) == Some((s, rest))
    ensures ReadString(EscapeChar(c) + tail) == Some(([c] + s, rest))
  {
    var w := EscapeChar(c) + tail;
    assert |EscapeChar(c)| == 2 && EscapeChar(c)[0] == '\\';
    assert w[1..][1..] == tail;
  }

  lemma ReadUnicodeEscape(c: char, tail: string, s: string, rest: string)
    requires c as int < 0x20 && c != '\n' && c != '\r' && c != '\t' && c as int != 8 && c as int != 12
    requires ReadString(tail) == Some((s, rest))
    ensures ReadString(EscapeChar(c) + tail) == Some(([c] + s, rest))
  {
    var w := EscapeChar(c) + tail;
    var hi, lo := c as int / 16, c as int % 16;
    assert EscapeChar(c) == ['\\', 'u', '0', '0', HexDigit(hi), HexDigit(lo)];
    assert w[1..][..5] == ['u', '0', '0', HexDigit(hi), HexDigit(lo)];
    assert HexValue(HexDigit(hi)) == hi && HexValue(HexDigit(lo)) == lo;
    assert Unescape(w[1..]) == Some((c, 5));
    assert w[6..] == tail;
  }

  lemma ReadEscapedChar(c: char, tail: string, s: string, rest: string)
    requires ReadString(tail) == Some((s, rest))
    ensures ReadString(EscapeChar(c) + tail) == Some(([c] + s, rest))
  {
    if c == '"' || c == '\\' || c == '\n' || c == '\r' || c == '\t' || c as int == 8 || c as int == 12 {
      ReadShortEscape(c, tail, s, rest);
    } else if c as int < 0x20 {
      ReadUnicodeEscape(c, tail, s, rest);
    } else {
      assert (EscapeChar(c) + tail)[1..] == tail;
    }
  }

  lemma Assoc(a: string, b: string, c: string)
    ensures a + b + c == a + (b + c)
  {
  }

  lemma Regroup(a: string, b: string, q: string, r: string)
    ensures a + b + q + r == a + (b + q + r)
  {
  }

  lemma DropOpening(o: string, e: string, q: string, r: string)
    requires |o| == 1
    ensures (o + e + q + r)[1..] == e + q + r
  {
  }

  lemma {:induction false} ReadEscapedString(s: string, rest: string)
    ensures ReadString(EscapeString(s) + "\"" + rest) == Some((s, rest))
  {
    if s == [] {
      assert (EscapeString(s) + "\"" + rest)[1..] == rest;
    } else {
      var tail := EscapeString(s[1..]) + "\"" + rest;
      ReadEscapedString(s[1..], rest);
      ReadEscapedChar(s[0], tail, s[1..], rest);
      Regroup(EscapeChar(s[0]), EscapeString(s[1..]), "\"", rest);
      assert [s[0]] + s[1..] == s;
    }
  }

  lemma ReadEncodedItem(x: Option<string>, tail: string)
    ensures ReadItem(EncodeItem(x) + tail) == Some((x, tail))
  {
    var w := EncodeItem(x) + tail;
    assert SkipSpace(w) == w;
    match x
    case None =>
      assert w[..4] == "null" && w[4..] == tail;
    case Some(v) =>
      DropOpening("\"", EscapeString(v), "\"", tail);
      ReadEscapedString(v, tail);
  }

  lemma ReadItemSkipsSpace(w: string)
    ensures ReadItem(" " + w) == ReadItem(w)
  {
    assert (" " + w)[1..] == w;
    assert SkipSpace(" " + w) == SkipSpace(w);
  }

  /** Texts that start with the same item read as the same list. */
  lemma SameFirstItem(a: string, b: string)
    requires ReadItem(a) == ReadItem(b)
    ensures ReadItems(a) == ReadItems(b)
  {
  }

  lemma ReadItemsSkipsSpace(w: string)
    ensures ReadItems(" " + w) == ReadItems(w)
  {
    ReadItemSkipsSpace(w);
    SameFirstItem(" " + w, w);
  }

  /** One step of `ReadItems`, once an item has been read. */
  lemma ReadItemsStep(w: string, x: Option<string>, tail: string)
    requires ReadItem(w) == Some((x, tail))
    requires tail != [] && SkipSpace(tail) == tail
    ensures tail[0] == ']' ==> ReadItems(w) == Some(([x], tail[1..]))
    ensures tail[0] == ',' && ReadItems(tail[1..]).Some? ==>
      ReadItems(w) == Some(([x] + ReadItems(tail[1..]).value.0, ReadItems(tail[1..]).value.1))
  {
  }

  lemma CommaTail(inner: string)
    ensures ReadItems((", " + inner)[1..]) == ReadItems(inner)
  {
    assert (", " + inner)[1..] == " " + inner;
    ReadItemsSkipsSpace(inner);
  }

  lemma ReadLastItem(w: string, x: Option<string>, rest: string)
    requires ReadItem(w) == Some((x, "]" + rest))
    ensures ReadItems(w) == Some(([x], rest))
  {
    var tail := "]" + rest;
    assert SkipSpace(tail) == tail && tail[1..] == rest;
    ReadItemsStep(w, x, tail);
  }

  lemma ReadItemThenMore(w: string, x: Option<string>, inner: string, ys: Items, rest: string)
    requires ReadItem(w) == Some((x, ", " + inner))
    requires ReadItems(inner) == Some((ys, rest))
    ensures ReadItems(w) == Some(([x] + ys, rest))
  {
    var tail := ", " + inner;
    assert SkipSpace(tail) == tail;
    CommaTail(inner);
    ReadItemsStep(w, x, tail);
  }

  lemma ConcatShape(a: string, c: string, rest: string)
    ensures a + ", " + c + "]" + rest == a + (", " + (c + "]" + rest))
  {
  }

  lemma {:induction false} ReadEncodedItems(xs: Items, rest: string)
    requires xs != []
    ensures ReadItems(EncodeItems(xs) + "]" + rest) == Some((xs, rest))
  {
    if |xs| == 1 {
      assert EncodeItems(xs) == EncodeItem(xs[0]);
      Assoc(EncodeItem(xs[0]), "]", rest);
      ReadEncodedItem(xs[0], "]" + rest);
      ReadLastItem(EncodeItems(xs) + "]" + rest, xs[0], rest);
      assert [xs[0]] == xs;
    } else {
      ConcatShape(EncodeItem(xs[0]), EncodeItems(xs[1..]), rest);
      ReadEncodedItems(xs[1..], rest);
      var inner := EncodeItems(xs[1..]) + "]" + rest;
      ReadEncodedItem(xs[0], ", " + inner);
      ReadItemThenMore(EncodeItems(xs) + "]" + rest, xs[0], inner, xs[1..], rest);
      assert [xs[0]] + xs[1..] == xs;
    }
  }

  /** `DecodeList` on a `[` followed directly by the first item. */
  lemma DecodeFromItems(u: string, xs: Items)
    requires u != [] && !IsJsonSpace(u[0]) && u[0] != ']'
    requires ReadItems(u) == Some((xs, []))
    ensures DecodeList("[" + u) == Some(xs)
  {
    var w := "[" + u;
    assert SkipSpace(w) == w;
    assert w[1..] == u;
    assert SkipSpace(u) == u;
  }

  lemma EncodeItemsStart(xs: Items)
    requires xs != []
    ensures EncodeItems(xs) != [] && (EncodeItems(xs)[0] == '"' || EncodeItems(xs)[0] == 'n')
  {
    var e := EncodeItem(xs[0]);
    assert e[0] == '"' || e[0] == 'n';
    if |xs| > 1 {
      assert EncodeItems(xs) == e + ", " + EncodeItems(xs[1..]);
      assert (e + ", " + EncodeItems(xs[1..]))[0] == e[0];
    }
  }

  lemma DecodeEmptyList()
    ensures DecodeList(EncodeList([])) == Some([])
  {
    var w := EncodeList([]);
    assert w == ['[', ']'];
    assert SkipSpace(w) == w;
    assert SkipSpace(w[1..]) == [']'];
  }

  lemma BracketShape(e: string)
    ensures "[" + e + "]" == "[" + (e + "]" + [])
  {
  }

  /** Every list the store writes is read back unchanged, in order. */
  lemma DecodeEncodeList(xs: Items)
    ensures DecodeList(EncodeList(xs)) == Some(xs)
  {
    if xs == [] {
      DecodeEmptyList();
    } else {
      var e := EncodeItems(xs);
      EncodeItemsStart(xs);
      ReadEncodedItems(xs, []);
      assert (e + "]" + [])[0] == e[0];
      DecodeFromItems(e + "]" + [], xs);
      BracketShape(e);
    }
  }
}
