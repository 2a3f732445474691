/**
 * JSON string literals as PHP's json_encode writes them with its default
 * flags, and as json_decode reads them back.
 *
 * The encoder escapes '"', '\' and '/'. It writes the short escapes \b, \f,
 * \n, \r and \t, and \u00xx for the other control characters. Every
 * character above U+007F becomes \uxxxx, in lower-case hex, and one above
 * U+FFFF becomes a UTF-16 surrogate pair. The output is therefore plain ASCII.
 *
 * The decoder accepts any raw character from U+0020 up except '"' and '\'.
 * It accepts the eight escapes \" \\ \/ \b \f \n \r \t and \uXXXX with hex
 * digits of either case. A high surrogate must be followed at once by an
 * escaped low surrogate; a lone surrogate is an error, as in PHP.
 */
module Json {
  import opened Wrappers

  predicate IsAscii(s: string) {
    forall i :: 0 <= i < |s| ==> s[i] as int < 0x80
  }

  // ---------------------------------------------------------------------------
  // Hex digits

  predicate IsHexDigit(c: char) {
    ('0' <= c <= '9') || ('a' <= c <= 'f') || ('A' <= c <= 'F')
  }

  /** The lower-case digit PHP's encoder writes for `d`. */
  function HexDigit(d: int): (c: char)
    requires 0 <= d < 16
    ensures IsHexDigit(c) && c as int < 0x80
  {
    if d < 10 then ('0' as int + d) as char else ('a' as int + d - 10) as char
  }

  function HexValue(c: char): (d: int)
    requires IsHexDigit(c)
    ensures 0 <= d < 16
  {
    if '0' <= c <= '9' then c as int - '0' as int
    else if 'a' <= c <= 'f' then c as int - 'a' as int + 10
    else c as int - 'A' as int + 10
  }

  predicate IsHex4(s: string) {
    |s| == 4 && IsHexDigit(s[0]) && IsHexDigit(s[1]) && IsHexDigit(s[2]) && IsHexDigit(s[3])
  }

  /** The four hex digits of a UTF-16 code unit, most significant first. */
  function Hex4(n: int): (s: string)
    requires 0 <= n < 0x1_0000
    ensures IsHex4(s) && IsAscii(s) && '"' !in s
  {
    [HexDigit(n / 16 / 16 / 16), HexDigit(n / 16 / 16 % 16), HexDigit(n / 16 % 16), HexDigit(n % 16)]
  }

  function Hex4Value(s: string): (n: int)
    requires IsHex4(s)
    ensures 0 <= n < 0x1_0000
  {
    HexValue(s[0]) * 0x1000 + HexValue(s[1]) * 0x100 + HexValue(s[2]) * 0x10 + HexValue(s[3])
  }

  lemma HexDigitValue(d: int)
    requires 0 <= d < 16
    ensures HexValue(HexDigit(d)) == d
  {
  }

  /** Reading four hex digits gives back the code unit they were written from. */
  lemma {:induction false} Hex4RoundTrip(n: int)
    requires 0 <= n < 0x1_0000
    ensures Hex4Value(Hex4(n)) == n
  {
    HexDigitValue(n / 16 / 16 / 16);
    HexDigitValue(n / 16 / 16 % 16);
    HexDigitValue(n / 16 % 16);
    HexDigitValue(n % 16);
    PlaceValues(n);
  }

  /** The base-16 place values of a number below 0x10000. */
  lemma PlaceValues(n: int)
    requires 0 <= n < 0x1_0000
    ensures n == (n / 16 / 16 / 16) * 0x1000 + (n / 16 / 16 % 16) * 0x100 + (n / 16 % 16) * 0x10 + n % 16
  {
    var q1 := n / 16;
    var q2 := q1 / 16;
    assert n == q1 * 16 + n % 16;
    assert q1 == q2 * 16 + q1 % 16;
    assert q2 == (q2 / 16) * 16 + q2 % 16;
  }

  // ---------------------------------------------------------------------------
  // Encoding

  const Backspace: char := '\U{8}'
  const FormFeed: char := '\U{C}'

  predicate IsHighSurrogate(n: int) { 0xD800 <= n < 0xDC00 }
  predicate IsLowSurrogate(n: int) { 0xDC00 <= n < 0xE000 }

  /** The UTF-16 high surrogate of a code point above U+FFFF. */
  function HighSurrogateOf(n: int): (hi: int)
    requires 0x1_0000 <= n <= 0x10_FFFF
    ensures IsHighSurrogate(hi)
  {
    0xD800 + (n - 0x1_0000) / 0x400
  }

  /** The UTF-16 low surrogate of a code point above U+FFFF. */
  function LowSurrogateOf(n: int): (lo: int)
    requires 0x1_0000 <= n <= 0x10_FFFF
    ensures IsLowSurrogate(lo)
  {
    0xDC00 + (n - 0x1_0000) % 0x400
  }

  /** The character a high and a low surrogate stand for together. */
  function Combine(hi: int, lo: int): (c: char)
    requires IsHighSurrogate(hi) && IsLowSurrogate(lo)
    ensures c as int >= 0x1_0000
  {
    (0x1_0000 + (hi - 0xD800) * 0x400 + (lo - 0xDC00)) as char
  }

  /** Combining the surrogate pair of a character gives the character back. */
  lemma CombineSurrogates(c: char)
    requires c as int >= 0x1_0000
    ensures Combine(HighSurrogateOf(c as int), LowSurrogateOf(c as int)) == c
  {
    var u := c as int - 0x1_0000;
    assert u == (u / 0x400) * 0x400 + u % 0x400;
  }

  /** \uxxxx for a character of the Basic Multilingual Plane, a surrogate pair above it. */
  function UnicodeEscape(c: char): (e: string)
    ensures IsAscii(e)
    ensures '"' !in e
  {
    var n := c as int;
    if n < 0x1_0000 then "\\u" + Hex4(n)
    else "\\u" + Hex4(HighSurrogateOf(n)) + "\\u" + Hex4(LowSurrogateOf(n))
  }

  /** How json_encode writes one character inside a string literal. */
  function EscapeChar(c: char): (e: string)
    ensures |e| > 0 && IsAscii(e)
    ensures QuotesEscaped(e)
  {
    if c == '"' then "\\\""
    else if c == '\\' then "\\\\"
    else if c == '/' then "\\/"
    else if c == Backspace then "\\b"
    else if c == FormFeed then "\\f"
    else if c == '\n' then "\\n"
    else if c == '\r' then "\\r"
    else if c == '\t' then "\\t"
    else if c < ' ' || c as int >= 0x80 then UnicodeEscape(c)
    else [c]
  }

  /** Every '"' of `e` comes right after a backslash, so none of them can end a string literal. */
  predicate QuotesEscaped(e: string) {
    forall i :: 0 <= i < |e| && e[i] == '"' ==> i > 0 && e[i - 1] == '\\'
  }

  /** The body of the string literal json_encode writes for `s`, without the quotes. */
  function EscapeString(s: string): (e: string)
    ensures IsAscii(e)
    ensures QuotesEscaped(e)
    ensures '"' in s ==> '\\' in e
    decreases |s|
  {
    if s == [] then ""
    else
      var head, tail := EscapeChar(s[0]), EscapeString(s[1..]);
      QuotesEscapedAppend(head, tail);
      head + tail
  }

  lemma {:induction false} QuotesEscapedAppend(a: string, b: string)
    requires QuotesEscaped(a) && QuotesEscaped(b)
    ensures QuotesEscaped(a + b)
  {
    forall i | 0 <= i < |a + b| && (a + b)[i] == '"'
      ensures i > 0 && (a + b)[i - 1] == '\\'
    {
      if i >= |a| {
        assert (a + b)[i] == b[i - |a|];
        assert (a + b)[i - 1] == b[i - |a| - 1];
      }
    }
  }

  // ---------------------------------------------------------------------------
  // Decoding

  /** Puts `c` in front of the decoded text of a successful parse. */
  function Prepend(c: char, r: Option<(string, string)>): Option<(string, string)> {
    match r
    case None => None
    case Some((text, rest)) => Some(([c] + text, rest))
  }

  /** The character that a short escape `\x` stands for. */
  function ShortEscape(x: char): Option<char> {
    if x == '"' then Some('"')
    else if x == '\\' then Some('\\')
    else if x == '/' then Some('/')
    else if x == 'b' then Some(Backspace)
    else if x == 'f' then Some(FormFeed)
    else if x == 'n' then Some('\n')
    else if x == 'r' then Some('\r')
    else if x == 't' then Some('\t')
    else None
  }

  /**
   * Reads the rest of a string literal whose opening quote has been consumed.
   * On success it gives the decoded text and the input after the closing quote.
   */
  function ParseStringBody(s: string): (r: Option<(string, string)>)
    ensures r.Some? ==> |r.value.1| < |s|
    decreases |s|
  {
    if s == [] then None
    else if s[0] == '"' then Some(("", s[1..]))
    else if s[0] == '\\' then
      if |s| < 2 then None
      else if s[1] == 'u' then
        if |s| < 6 || !IsHex4(s[2..6]) then None
        else
          var hi := Hex4Value(s[2..6]);
          if IsHighSurrogate(hi) then
            if |s| < 12 || s[6] != '\\' || s[7] != 'u' || !IsHex4(s[8..12]) then None
            else
              var lo := Hex4Value(s[8..12]);
              if !IsLowSurrogate(lo) then None
              else Prepend(Combine(hi, lo), ParseStringBody(s[12..]))
          else if IsLowSurrogate(hi) then None
          else Prepend(hi as char, ParseStringBody(s[6..]))
      else
        match ShortEscape(s[1])
        case None => None
        case Some(c) => Prepend(c, ParseStringBody(s[2..]))
    else if s[0] < ' ' then None
    else Prepend(s[0], ParseStringBody(s[1..]))
  }

  // ---------------------------------------------------------------------------
  // Round trip

  /** json_decode reads back every string literal json_encode writes. */
  lemma {:induction false} ParseEscapeString(s: string, rest: string)
    ensures ParseStringBody(EscapeString(s) + "\"" + rest) == Some((s, rest))
    decreases |s|
  {
    if s == [] {
      assert EscapeString(s) + "\"" + rest == "\"" + rest;
    } else {
      var tail := EscapeString(s[1..]) + "\"" + rest;
      assert EscapeString(s) + "\"" + rest == EscapeChar(s[0]) + tail;
      ParseEscapeChar(s[0], tail);
      ParseEscapeString(s[1..], rest);
      assert [s[0]] + s[1..] == s;
    }
  }

  /** Reading the escape of one character gives that character, then reading goes on after it. */
  lemma {:induction false} ParseEscapeChar(c: char, t: string)
    ensures ParseStringBody(EscapeChar(c) + t) == Prepend(c, ParseStringBody(t))
  {
    var s := EscapeChar(c) + t;
    if c == '"' || c == '\\' || c == '/' || c == Backspace || c == FormFeed || c == '\n' || c == '\r' || c == '\t' {
      assert s[0] == '\\' && s[1] != 'u' && s[2..] == t;
    } else if c < ' ' || c as int >= 0x80 {
      ParseUnicodeEscape(c, t);
    } else {
      assert s[1..] == t;
    }
  }

  lemma {:induction false} ParseUnicodeEscape(c: char, t: string)
    requires c as int < 0x20 || c as int >= 0x80
    ensures ParseStringBody(UnicodeEscape(c) + t) == Prepend(c, ParseStringBody(t))
  {
    if c as int < 0x1_0000 {
      ParseBmpEscape(c, t);
    } else {
      ParseSurrogatePair(c, t);
    }
  }

  /** A character of the Basic Multilingual Plane is read back from its single \uxxxx escape. */
  lemma {:induction false} ParseBmpEscape(c: char, t: string)
    requires c as int < 0x1_0000
    ensures ParseStringBody(UnicodeEscape(c) + t) == Prepend(c, ParseStringBody(t))
  {
    var n := c as int;
    var digits := Hex4(n);
    var s := UnicodeEscape(c) + t;
    assert s == "\\u" + digits + t;
    assert s[0] == '\\' && s[1] == 'u';
    assert s[2..6] == digits && s[6..] == t;
    Hex4RoundTrip(n);
    assert !IsHighSurrogate(n) && !IsLowSurrogate(n);
  }

  /** A character above the Basic Multilingual Plane is read back from its surrogate pair. */
  lemma {:induction false} ParseSurrogatePair(c: char, t: string)
    requires c as int >= 0x1_0000
    ensures ParseStringBody(UnicodeEscape(c) + t) == Prepend(c, ParseStringBody(t))
  {
    var n := c as int;
    var hi, lo := HighSurrogateOf(n), LowSurrogateOf(n);
    var d1, d2 := Hex4(hi), Hex4(lo);
    var s := "\\u" + d1 + "\\u" + d2 + t;
    assert UnicodeEscape(c) + t == s;
    PairSlices(d1, d2, t);
    Hex4RoundTrip(hi);
    Hex4RoundTrip(lo);
    ParsePairAt(s, hi, lo);
    CombineSurrogates(c);
  }

  lemma {:induction false} PairSlices(d1: string, d2: string, t: string)
    requires |d1| == 4 && |d2| == 4
    ensures var s := "\\u" + d1 + "\\u" + d2 + t;
      s[0] == '\\' && s[1] == 'u' && s[2..6] == d1 && s[6] == '\\' && s[7] == 'u' && s[8..12] == d2 && s[12..] == t
  {
    var s := "\\u" + d1 + "\\u" + d2 + t;
    assert s == ("\\u" + d1) + ("\\u" + d2) + t;
    assert s[2..6] == d1;
    assert s[8..12] == d2;
    assert s[12..] == t;
  }

  /** How the reader combines an escaped high surrogate and the escaped low surrogate after it. */
  lemma {:induction false} ParsePairAt(s: string, hi: int, lo: int)
    requires |s| >= 12 && s[0] == '\\' && s[1] == 'u' && s[6] == '\\' && s[7] == 'u'
    requires IsHex4(s[2..6]) && Hex4Value(s[2..6]) == hi && IsHighSurrogate(hi)
    requires IsHex4(s[8..12]) && Hex4Value(s[8..12]) == lo && IsLowSurrogate(lo)
    ensures ParseStringBody(s) == Prepend(Combine(hi, lo), ParseStringBody(s[12..]))
  {
  }
}
