/**
 * Base64 as PHP's base64_encode and base64_decode (non-strict mode) apply it:
 * the alphabet and padding of section 4 of RFC 4648.
 *
 * The encoder always pads its output to a multiple of four characters.
 * The non-strict decoder skips every character outside the alphabet,
 * including '=', and decodes the remaining sextets four at a time.
 * In a trailing group, one sextet yields nothing, two yield one byte and
 * three yield two bytes.
 */
module Base64 {

  type Byte = b: int | 0 <= b < 256
  type Sextet = s: int | 0 <= s < 64

  const Pad: char := '='

  /** The 64 characters of the alphabet: A-Z, a-z, 0-9, '+' and '/'. */
  predicate IsAlphabetChar(c: char) {
    ('A' <= c <= 'Z') || ('a' <= c <= 'z') || ('0' <= c <= '9') || c == '+' || c == '/'
  }

  /** The character that encodes sextet `s`. */
  function CharOf(s: Sextet): (c: char)
    ensures IsAlphabetChar(c)
  {
    if s < 26 then ('A' as int + s) as char
    else if s < 52 then ('a' as int + (s - 26)) as char
    else if s < 62 then ('0' as int + (s - 52)) as char
    else if s == 62 then '+'
    else '/'
  }

  /** The sextet that an alphabet character stands for. */
  function SextetOf(c: char): (s: Sextet)
    requires IsAlphabetChar(c)
    ensures CharOf(s) == c
  {
    if 'A' <= c <= 'Z' then c as int - 'A' as int
    else if 'a' <= c <= 'z' then c as int - 'a' as int + 26
    else if '0' <= c <= '9' then c as int - '0' as int + 52
    else if c == '+' then 62
    else 63
  }

  /**
   * The sextets of `b`, three bytes to four sextets; a trailing one or two
   * bytes give two or three sextets, the missing low bits being zero.
   */
  function Sextet0(b0: Byte): Sextet { b0 / 4 }
  function Sextet1(b0: Byte, b1: Byte): Sextet { (b0 % 4) * 16 + b1 / 16 }
  function Sextet2(b1: Byte, b2: Byte): Sextet { (b1 % 16) * 4 + b2 / 64 }
  function Sextet3(b2: Byte): Sextet { b2 % 64 }

  function ToSextets(b: seq<Byte>): (q: seq<Sextet>)
    decreases |b|
  {
    if |b| == 0 then []
    else if |b| == 1 then [Sextet0(b[0]), Sextet1(b[0], 0)]
    else if |b| == 2 then [Sextet0(b[0]), Sextet1(b[0], b[1]), Sextet2(b[1], 0)]
    else [Sextet0(b[0]), Sextet1(b[0], b[1]), Sextet2(b[1], b[2]), Sextet3(b[2])] + ToSextets(b[3..])
  }

  function CharsOf(q: seq<Sextet>): (s: string)
    ensures |s| == |q|
    ensures forall i :: 0 <= i < |q| ==> IsAlphabetChar(s[i]) && SextetOf(s[i]) == q[i]
  {
    seq(|q|, i requires 0 <= i < |q| => CharOf(q[i]))
  }

  /** The padding that completes the last group of four characters. */
  function Padding(n: nat): string {
    if n % 3 == 1 then "==" else if n % 3 == 2 then "=" else ""
  }

  /** base64_encode. */
  function Encode(b: seq<Byte>): (s: string)
  {
    CharsOf(ToSextets(b)) + Padding(|b|)
  }

  /** The sextets of the alphabet characters of `s`, in order; everything else is skipped. */
  function Sextets(s: string): (q: seq<Sextet>)
    ensures |q| <= |s|
    decreases |s|
  {
    if s == [] then []
    else if IsAlphabetChar(s[0]) then [SextetOf(s[0])] + Sextets(s[1..])
    else Sextets(s[1..])
  }

  /** The three bytes that the sextets of one group carry, as PHP's decoder shifts them together. */
  function Byte0(s0: Sextet, s1: Sextet): Byte { s0 * 4 + s1 / 16 }
  function Byte1(s1: Sextet, s2: Sextet): Byte { (s1 % 16) * 16 + s2 / 4 }
  function Byte2(s2: Sextet, s3: Sextet): Byte { (s2 % 4) * 64 + s3 }

  function DecodeSextets(q: seq<Sextet>): (b: seq<Byte>)
    decreases |q|
  {
    if |q| < 2 then []
    else if |q| == 2 then [Byte0(q[0], q[1])]
    else if |q| == 3 then [Byte0(q[0], q[1]), Byte1(q[1], q[2])]
    else [Byte0(q[0], q[1]), Byte1(q[1], q[2]), Byte2(q[2], q[3])] + DecodeSextets(q[4..])
  }

  /** base64_decode in non-strict mode; it never fails. */
  function Decode(s: string): (b: seq<Byte>)
  {
    DecodeSextets(Sextets(s))
  }

  // ---------------------------------------------------------------------------
  // Shape of the encoding

  /** The output is a whole number of four-character groups, all alphabet characters or '='. */
  lemma {:induction false} EncodeShape(b: seq<Byte>)
    ensures |Encode(b)| == 4 * ((|b| + 2) / 3)
    ensures forall i :: 0 <= i < |Encode(b)| ==> IsAlphabetChar(Encode(b)[i]) || Encode(b)[i] == Pad
  {
    ToSextetsLength(b);
  }

  lemma {:induction false} ToSextetsLength(b: seq<Byte>)
    ensures |ToSextets(b)| + |Padding(|b|)| == 4 * ((|b| + 2) / 3)
    decreases |b|
  {
    if |b| >= 3 {
      ToSextetsLength(b[3..]);
      assert |ToSextets(b)| == 4 + |ToSextets(b[3..])|;
      assert Padding(|b|) == Padding(|b| - 3);
      assert (|b| + 2) / 3 == (|b| - 3 + 2) / 3 + 1;
    }
  }

  // ---------------------------------------------------------------------------
  // Round trip

  /** Decoding undoes encoding: base64_decode(base64_encode(b)) == b. */
  lemma {:induction false} DecodeEncode(b: seq<Byte>)
    ensures Decode(Encode(b)) == b
  {
    var q := ToSextets(b);
    SextetsAppend(CharsOf(q), Padding(|b|));
    SextetsOfChars(q);
    assert Sextets(Padding(|b|)) == [] by {
      assert Sextets("=") == [];
      assert Sextets("==") == [] by { assert "=="[1..] == "="; }
    }
    assert Sextets(Encode(b)) == q;
    DecodeToSextets(b);
  }

  lemma {:induction false} SextetsAppend(s: string, t: string)
    ensures Sextets(s + t) == Sextets(s) + Sextets(t)
    decreases |s|
  {
    if s != [] {
      assert (s + t)[1..] == s[1..] + t;
      SextetsAppend(s[1..], t);
    } else {
      assert s + t == t;
    }
  }

  lemma {:induction false} SextetsOfChars(q: seq<Sextet>)
    ensures Sextets(CharsOf(q)) == q
    decreases |q|
  {
    if q != [] {
      assert CharsOf(q)[1..] == CharsOf(q[1..]);
      SextetsOfChars(q[1..]);
    }
  }

  /** Each byte of a group comes back from the two sextets that carry its bits. */
  lemma FirstByteRoundTrip(b0: Byte, b1: Byte)
    ensures Byte0(Sextet0(b0), Sextet1(b0, b1)) == b0
  {
    var hi, lo := b0 / 4, b0 % 4;
    assert Sextet1(b0, b1) == lo * 16 + b1 / 16;
    assert Sextet1(b0, b1) / 16 == lo;
    assert b0 == hi * 4 + lo;
  }

  lemma SecondByteRoundTrip(b0: Byte, b1: Byte, b2: Byte)
    ensures Byte1(Sextet1(b0, b1), Sextet2(b1, b2)) == b1
  {
    var hi, lo := b1 / 16, b1 % 16;
    assert Sextet1(b0, b1) == (b0 % 4) * 16 + hi;
    assert Sextet1(b0, b1) % 16 == hi;
    assert Sextet2(b1, b2) == lo * 4 + b2 / 64;
    assert Sextet2(b1, b2) / 4 == lo;
  }

  lemma ThirdByteRoundTrip(b1: Byte, b2: Byte)
    ensures Byte2(Sextet2(b1, b2), Sextet3(b2)) == b2
  {
    var hi, lo := b2 / 64, b2 % 64;
    assert Sextet2(b1, b2) == (b1 % 16) * 4 + hi;
    assert Sextet2(b1, b2) % 4 == hi;
    assert b2 == hi * 64 + lo;
  }

  lemma {:induction false} DecodeToSextets(b: seq<Byte>)
    ensures DecodeSextets(ToSextets(b)) == b
    decreases |b|
  {
    if |b| == 0 {
    } else if |b| == 1 {
      var s0, s1 := Sextet0(b[0]), Sextet1(b[0], 0);
      assert ToSextets(b) == [s0, s1];
      FirstByteRoundTrip(b[0], 0);
    } else if |b| == 2 {
      var s0, s1, s2 := Sextet0(b[0]), Sextet1(b[0], b[1]), Sextet2(b[1], 0);
      assert ToSextets(b) == [s0, s1, s2];
      FirstByteRoundTrip(b[0], b[1]);
      SecondByteRoundTrip(b[0], b[1], 0);
    } else {
      var rest := b[3..];
      var s0, s1, s2, s3 := Sextet0(b[0]), Sextet1(b[0], b[1]), Sextet2(b[1], b[2]), Sextet3(b[2]);
      DecodeGroup(s0, s1, s2, s3, ToSextets(rest));
      FirstByteRoundTrip(b[0], b[1]);
      SecondByteRoundTrip(b[0], b[1], b[2]);
      ThirdByteRoundTrip(b[1], b[2]);
      DecodeToSextets(rest);
      assert b == [b[0], b[1], b[2]] + rest;
    }
  }

  lemma {:induction false} DecodeGroup(s0: Sextet, s1: Sextet, s2: Sextet, s3: Sextet, tail: seq<Sextet>)
    ensures DecodeSextets([s0, s1, s2, s3] + tail) == [Byte0(s0, s1), Byte1(s1, s2), Byte2(s2, s3)] + DecodeSextets(tail)
  {
    assert ([s0, s1, s2, s3] + tail)[4..] == tail;
  }
}
