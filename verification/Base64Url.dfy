/**
 Base64url without padding, section 5 of RFC 4648: bytes in groups of three, the
 trailing `=` stripped, and Python's lenient decoder for the way back.
 */
module Base64Urls {
  import opened Common

  type Byte = b: int | 0 <= b < 256
  type Sextet = d: int | 0 <= d < 64

  function Digit(d: Sextet): char {
    if d < 26 then (65 + d) as char
    else if d < 52 then (97 + (d - 26)) as char
    else if d < 62 then (48 + (d - 52)) as char
    else if d == 62 then '-'
    else '_'
  }

  /** The value of a character; `+` and `/` are read like `-` and `_`. */
  function Value(c: char): Option<Sextet> {
    if 'A' <= c <= 'Z' then Some(c as int - 65)
    else if 'a' <= c <= 'z' then Some(c as int - 97 + 26)
    else if '0' <= c <= '9' then Some(c as int - 48 + 52)
    else if c == '-' || c == '+' then Some(62)
    else if c == '_' || c == '/' then Some(63)
    else None
  }

  /** The four characters of three bytes. */
  function Group(a: Byte, b: Byte, c: Byte): string {
    [Digit(a / 4), Digit(a % 4 * 16 + b / 16), Digit(b % 16 * 4 + c / 64), Digit(c % 64)]
  }

  /** The padded encoding. */
  function Padded(raw: seq<Byte>): string {
    if |raw| == 0 then ""
    else if |raw| == 1 then Group(raw[0], 0, 0)[..2] + "=="
    else if |raw| == 2 then Group(raw[0], raw[1], 0)[..3] + "="
    else Group(raw[0], raw[1], raw[2]) + Padded(raw[3..])
  }

  function Stripped(s: string): string {
    if s != "" && s[|s| - 1] == '=' then Stripped(s[..|s| - 1]) else s
  }

  function Encode(raw: seq<Byte>): string {
    Stripped(Padded(raw))
  }

  /** `"=" * (-len % 4)`. */
  function Padding(len: nat): string {
    match len % 4
    case 0 => ""
    case 1 => "==="
    case 2 => "=="
    case _ => "="
  }

  /**
   The decoder's loop.  `pos` counts the characters of the current group, `left` is
   what the last of them left over, `pads` the `=` in a row; characters outside the
   alphabet are passed over, enough padding ends the input, an open group is an error.
   */
  function DecodeFrom(s: string, pos: nat, left: nat, pads: nat, out: seq<Byte>): Option<seq<Byte>>
    requires pos == 1 ==> left < 64
    requires pos == 2 ==> left < 16
    requires pos == 3 ==> left < 4
    requires pos < 4
    decreases s
  {
    if s == "" then if pos == 0 then Some(out) else None
    else if s[0] == '=' then
      if pos >= 2 && pos + pads + 1 >= 4 then Some(out)
      else DecodeFrom(s[1..], pos, left, if pos >= 2 then pads + 1 else pads, out)
    else
      match Value(s[0])
      case None => DecodeFrom(s[1..], pos, left, pads, out)
      case Some(d) =>
        if pos == 0 then DecodeFrom(s[1..], 1, d, 0, out)
        else if pos == 1 then DecodeFrom(s[1..], 2, d % 16, 0, out + [left * 4 + d / 16])
        else if pos == 2 then DecodeFrom(s[1..], 3, d % 4, 0, out + [left * 16 + d / 4])
        else DecodeFrom(s[1..], 0, 0, 0, out + [left * 64 + d])
  }

  predicate Ascii(s: string) {
    forall i :: 0 <= i < |s| ==> s[i] < 128 as char
  }

  /** Text that is not ASCII is an error. */
  function Decode(seg: string): Option<seq<Byte>> {
    if Ascii(seg) then DecodeFrom(seg + Padding(|seg|), 0, 0, 0, []) else None
  }

  // ------------------------------------------------------------------ stripping and padding back

  /** The characters that an encoding is made of. */
  predicate UrlSafe(s: string) {
    forall i :: 0 <= i < |s| ==> InAlphabet(s[i])
  }

  predicate InAlphabet(c: char) {
    'A' <= c <= 'Z' || 'a' <= c <= 'z' || '0' <= c <= '9' || c == '-' || c == '_'
  }

  lemma {:induction false} DigitIsSafe(d: Sextet)
    ensures InAlphabet(Digit(d)) && Value(Digit(d)) == Some(d)
  {
  }

  lemma {:induction false} GroupIsSafe(a: Byte, b: Byte, c: Byte)
    ensures UrlSafe(Group(a, b, c))
  {
    DigitIsSafe(a / 4);
    DigitIsSafe(a % 4 * 16 + b / 16);
    DigitIsSafe(b % 16 * 4 + c / 64);
    DigitIsSafe(c % 64);
  }

  lemma {:induction false} StripSafe(s: string)
    requires UrlSafe(s)
    ensures Stripped(s) == s
    ensures Stripped(s + "=") == s && Stripped(s + "==") == s
  {
    assert s != "" ==> InAlphabet(s[|s| - 1]);
    assert (s + "=")[..|s|] == s;
    assert (s + "==")[..|s| + 1] == s + "=";
  }

  lemma {:induction false} SafeParts(s: string, t: string, n: nat)
    requires UrlSafe(s) && UrlSafe(t) && n <= |s|
    ensures UrlSafe(s[..n]) && UrlSafe(s + t)
  {
  }

  /** The body of an encoding: everything before the padding. */
  lemma {:induction false} PaddedShape(raw: seq<Byte>) returns (body: string)
    ensures UrlSafe(body) && Padded(raw) == body + Padding(|body|) && |body| % 4 != 1
  {
    if |raw| == 0 {
      body := "";
    } else if |raw| < 3 {
      var g := Group(raw[0], if |raw| == 2 then raw[1] else 0, 0);
      GroupIsSafe(raw[0], if |raw| == 2 then raw[1] else 0, 0);
      SafeParts(g, "", |raw| + 1);
      body := g[..|raw| + 1];
    } else {
      var rest := PaddedShape(raw[3..]);
      var g := Group(raw[0], raw[1], raw[2]);
      GroupIsSafe(raw[0], raw[1], raw[2]);
      SafeParts(g, rest, 0);
      body := g + rest;
      assert |g| == 4;
      SamePadding(|rest|);
      Regroup(g, rest, Padding(|rest|));
    }
  }

  lemma {:induction false} SamePadding(n: nat)
    ensures Padding(4 + n) == Padding(n) && (4 + n) % 4 == n % 4
  {
  }

  /** Padding an encoding by its length restores exactly the `=` that were stripped. */
  lemma {:induction false} PaddingComesBack(raw: seq<Byte>)
    ensures UrlSafe(Encode(raw)) && Encode(raw) + Padding(|Encode(raw)|) == Padded(raw)
  {
    var body := PaddedShape(raw);
    StripSafe(body);
    assert body + "" == body;
  }

  // ------------------------------------------------------------------ decoding

  lemma {:induction false} Sextets(a: Byte, b: Byte, c: Byte)
    ensures a / 4 * 4 + (a % 4 * 16 + b / 16) / 16 == a
    ensures (a % 4 * 16 + b / 16) % 16 * 16 + (b % 16 * 4 + c / 64) / 4 == b
    ensures (b % 16 * 4 + c / 64) % 4 * 64 + c % 64 == c
  {
  }

  lemma {:induction false} DecodeDigit(d: Sextet, s: string, pos: nat, left: nat, pads: nat, out: seq<Byte>)
    requires pos < 4 && (pos == 1 ==> left < 64) && (pos == 2 ==> left < 16) && (pos == 3 ==> left < 4)
    ensures
      DecodeFrom([Digit(d)] + s, pos, left, pads, out) ==
      if pos == 0 then DecodeFrom(s, 1, d, 0, out)
      else if pos == 1 then DecodeFrom(s, 2, d % 16, 0, out + [left * 4 + d / 16])
      else if pos == 2 then DecodeFrom(s, 3, d % 4, 0, out + [left * 16 + d / 4])
      else DecodeFrom(s, 0, 0, 0, out + [left * 64 + d])
  {
    DigitIsSafe(d);
    assert ([Digit(d)] + s)[1..] == s;
  }

  lemma {:induction false} FirstTwo(d0: Sextet, d1: Sextet, s: string, pads: nat, out: seq<Byte>)
    ensures DecodeFrom([Digit(d0), Digit(d1)] + s, 0, 0, pads, out) ==
            DecodeFrom(s, 2, d1 % 16, 0, out + [d0 * 4 + d1 / 16])
  {
    DecodeDigit(d0, [Digit(d1)] + s, 0, 0, pads, out);
    DecodeDigit(d1, s, 1, d0, 0, out);
    assert [Digit(d0), Digit(d1)] + s == [Digit(d0)] + ([Digit(d1)] + s);
  }

  lemma {:induction false} FirstThree(d0: Sextet, d1: Sextet, d2: Sextet, s: string, pads: nat, out: seq<Byte>)
    ensures DecodeFrom([Digit(d0), Digit(d1), Digit(d2)] + s, 0, 0, pads, out) ==
            DecodeFrom(s, 3, d2 % 4, 0, out + [d0 * 4 + d1 / 16] + [d1 % 16 * 16 + d2 / 4])
  {
    FirstTwo(d0, d1, [Digit(d2)] + s, pads, out);
    DecodeDigit(d2, s, 2, d1 % 16, 0, out + [d0 * 4 + d1 / 16]);
    assert [Digit(d0), Digit(d1), Digit(d2)] + s == [Digit(d0), Digit(d1)] + ([Digit(d2)] + s);
  }

  lemma {:induction false} AllFour(d0: Sextet, d1: Sextet, d2: Sextet, d3: Sextet, s: string, pads: nat, out: seq<Byte>)
    ensures DecodeFrom([Digit(d0), Digit(d1), Digit(d2), Digit(d3)] + s, 0, 0, pads, out) ==
            DecodeFrom(s, 0, 0, 0, out + [d0 * 4 + d1 / 16] + [d1 % 16 * 16 + d2 / 4] + [d2 % 4 * 64 + d3])
  {
    FirstThree(d0, d1, d2, [Digit(d3)] + s, pads, out);
    DecodeDigit(d3, s, 3, d2 % 4, 0, out + [d0 * 4 + d1 / 16] + [d1 % 16 * 16 + d2 / 4]);
    assert [Digit(d0), Digit(d1), Digit(d2), Digit(d3)] + s == [Digit(d0), Digit(d1), Digit(d2)] + ([Digit(d3)] + s);
  }

  /** The characters of a group give back the bytes they complete. */
  lemma {:induction false} DecodeGroup(a: Byte, b: Byte, c: Byte, s: string, pads: nat, out: seq<Byte>)
    ensures DecodeFrom(Group(a, b, c) + s, 0, 0, pads, out) == DecodeFrom(s, 0, 0, 0, out + [a] + [b] + [c])
  {
    Sextets(a, b, c);
    AllFour(a / 4, a % 4 * 16 + b / 16, b % 16 * 4 + c / 64, c % 64, s, pads, out);
  }

  lemma {:induction false} DecodeOne(a: Byte, s: string, pads: nat, out: seq<Byte>)
    ensures DecodeFrom(Group(a, 0, 0)[..2] + s, 0, 0, pads, out) == DecodeFrom(s, 2, 0, 0, out + [a])
  {
    Sextets(a, 0, 0);
    FirstTwo(a / 4, a % 4 * 16, s, pads, out);
    assert Group(a, 0, 0)[..2] == [Digit(a / 4), Digit(a % 4 * 16)];
  }

  lemma {:induction false} DecodeTwo(a: Byte, b: Byte, s: string, pads: nat, out: seq<Byte>)
    ensures DecodeFrom(Group(a, b, 0)[..3] + s, 0, 0, pads, out) == DecodeFrom(s, 3, 0, 0, out + [a] + [b])
  {
    Sextets(a, b, 0);
    FirstThree(a / 4, a % 4 * 16 + b / 16, b % 16 * 4, s, pads, out);
    assert Group(a, b, 0)[..3] == [Digit(a / 4), Digit(a % 4 * 16 + b / 16), Digit(b % 16 * 4)];
  }

  lemma {:induction false} DecodePads(left: nat, out: seq<Byte>)
    ensures left < 16 ==> DecodeFrom("==", 2, left, 0, out) == Some(out)
    ensures left < 4 ==> DecodeFrom("=", 3, left, 0, out) == Some(out)
  {
    assert "=="[1..] == "=";
  }

  lemma {:induction false} DecodePadded(raw: seq<Byte>, pads: nat, out: seq<Byte>)
    ensures DecodeFrom(Padded(raw), 0, 0, pads, out) == Some(out + raw)
    decreases |raw|
  {
    if |raw| == 0 {
      assert out + raw == out;
    } else if |raw| == 1 {
      DecodeOne(raw[0], "==", pads, out);
      DecodePads(0, out + [raw[0]]);
      assert raw == [raw[0]];
    } else if |raw| == 2 {
      DecodeTwo(raw[0], raw[1], "=", pads, out);
      DecodePads(0, out + [raw[0]] + [raw[1]]);
      assert out + raw == out + [raw[0]] + [raw[1]];
    } else {
      var next := out + [raw[0]] + [raw[1]] + [raw[2]];
      DecodeGroup(raw[0], raw[1], raw[2], Padded(raw[3..]), pads, out);
      DecodePadded(raw[3..], 0, next);
      assert out + raw == next + raw[3..];
    }
  }

  /** Every byte string comes back. */
  lemma {:induction false} RoundTrip(raw: seq<Byte>)
    ensures Decode(Encode(raw)) == Some(raw)
  {
    PaddingComesBack(raw);
    DecodePadded(raw, 0, []);
    assert [] + raw == raw;
  }

  /** An encoding uses the URL-safe alphabet only, so neither `.` nor `=`. */
  lemma {:induction false} EncodingIsUrlSafe(raw: seq<Byte>)
    ensures UrlSafe(Encode(raw)) && '.' !in Encode(raw) && '=' !in Encode(raw)
  {
    PaddingComesBack(raw);
  }

  // ------------------------------------------------------------------ the alphabet and the numbers

  const UPPER := "ABCDEFGHIJKLMNOPQRSTUVWXYZ"
  const LOWER := "abcdefghijklmnopqrstuvwxyz"
  const ALPHABET := UPPER + LOWER + "0123456789" + "-_"

  lemma {:induction false} UpperAt(i: nat)
    requires i < 26
    ensures |UPPER| == 26 && UPPER[i] == (65 + i) as char
  {
  }

  lemma {:induction false} LowerAt(i: nat)
    requires i < 26
    ensures |LOWER| == 26 && LOWER[i] == (97 + i) as char
  {
  }

  lemma {:induction false} NumeralAt(i: nat)
    requires i < 10
    ensures |"0123456789"| == 10 && "0123456789"[i] == (48 + i) as char
  {
  }

  /** The digits are the characters of table 2 of RFC 4648, in its order. */
  lemma {:induction false} DigitsAreTheAlphabet(d: Sextet)
    ensures |ALPHABET| == 64 && Digit(d) == ALPHABET[d]
  {
    UpperAt(if d < 26 then d else 0);
    LowerAt(if 26 <= d < 52 then d - 26 else 0);
    NumeralAt(if 52 <= d < 62 then d - 52 else 0);
  }

  lemma {:induction false} StrippedAfter(body: string, s: string)
    requires body == "" || body[|body| - 1] != '='
    ensures Stripped(body + s) == body + Stripped(s)
  {
    if s == "" {
      assert body + s == body;
    } else if s[|s| - 1] == '=' {
      assert (body + s)[..|body + s| - 1] == body + s[..|s| - 1];
      StrippedAfter(body, s[..|s| - 1]);
    }
  }

  /** Four digits as one number of 24 bits, most significant first. */
  function Number(d0: Sextet, d1: Sextet, d2: Sextet, d3: Sextet): int {
    ((d0 * 64 + d1) * 64 + d2) * 64 + d3
  }

  /** Three bytes become the four digits of the same number, and the rest is encoded after them. */
  lemma {:induction false} EncodesThree(a: Byte, b: Byte, c: Byte, rest: seq<Byte>)
    returns (d0: Sextet, d1: Sextet, d2: Sextet, d3: Sextet)
    ensures Number(d0, d1, d2, d3) == (a * 256 + b) * 256 + c
    ensures Encode([a, b, c] + rest) == [ALPHABET[d0], ALPHABET[d1], ALPHABET[d2], ALPHABET[d3]] + Encode(rest)
  {
    d0, d1, d2, d3 := a / 4, a % 4 * 16 + b / 16, b % 16 * 4 + c / 64, c % 64;
    DigitsAreTheAlphabet(d0);
    DigitsAreTheAlphabet(d1);
    DigitsAreTheAlphabet(d2);
    DigitsAreTheAlphabet(d3);
    GroupIsSafe(a, b, c);
    assert ([a, b, c] + rest)[3..] == rest;
    assert InAlphabet(Group(a, b, c)[3]);
    StrippedAfter(Group(a, b, c), Padded(rest));
  }

  /** A byte at the end becomes the two digits of its bits and four zeros... */
  lemma {:induction false} EncodesOne(a: Byte)
    ensures Encode([a]) == [ALPHABET[a * 16 / 64], ALPHABET[a * 16 % 64]] && Encode([]) == ""
  {
    assert a * 16 / 64 == a / 4 && a * 16 % 64 == a % 4 * 16;
    DigitsAreTheAlphabet(a / 4);
    DigitsAreTheAlphabet(a % 4 * 16);
    GroupIsSafe(a, 0, 0);
    SafeParts(Group(a, 0, 0), "", 2);
    StripSafe(Group(a, 0, 0)[..2]);
  }

  lemma {:induction false} TwoByteDigits(a: Byte, b: Byte)
    ensures ((a / 4 * 64) + (a % 4 * 16 + b / 16)) * 64 + b % 16 * 4 == (a * 256 + b) * 4
  {
  }

  /** ... and two become the three digits of their bits and two zeros. */
  lemma {:induction false} EncodesTwo(a: Byte, b: Byte) returns (d0: Sextet, d1: Sextet, d2: Sextet)
    ensures (d0 * 64 + d1) * 64 + d2 == (a * 256 + b) * 4
    ensures Encode([a, b]) == [ALPHABET[d0], ALPHABET[d1], ALPHABET[d2]]
  {
    d0, d1, d2 := a / 4, a % 4 * 16 + b / 16, b % 16 * 4;
    TwoByteDigits(a, b);
    DigitsAreTheAlphabet(d0);
    DigitsAreTheAlphabet(d1);
    DigitsAreTheAlphabet(d2);
    GroupIsSafe(a, b, 0);
    SafeParts(Group(a, b, 0), "", 3);
    StripSafe(Group(a, b, 0)[..3]);
  }

  // ------------------------------------------------------------------ the lenient decoder

  /** The text with `+` for `-` and `/` for `_`. */
  function Standard(s: string): string {
    if s == "" then ""
    else [if s[0] == '-' then '+' else if s[0] == '_' then '/' else s[0]] + Standard(s[1..])
  }

  /** The decoder reads the standard alphabet as well. */
  lemma {:induction false} StandardDecodes(s: string, pos: nat, left: nat, pads: nat, out: seq<Byte>)
    requires pos == 1 ==> left < 64
    requires pos == 2 ==> left < 16
    requires pos == 3 ==> left < 4
    requires pos < 4
    ensures DecodeFrom(Standard(s), pos, left, pads, out) == DecodeFrom(s, pos, left, pads, out)
    decreases s
  {
    if s != "" {
      var c := Standard(s)[0];
      assert Standard(s)[1..] == Standard(s[1..]) && Value(c) == Value(s[0]) && (c == '=' <==> s[0] == '=');
      var rest := s[1..];
      if s[0] == '=' {
        if !(pos >= 2 && pos + pads + 1 >= 4) {
          StandardDecodes(rest, pos, left, if pos >= 2 then pads + 1 else pads, out);
        }
      } else {
        match Value(s[0])
        case None => StandardDecodes(rest, pos, left, pads, out);
        case Some(d) =>
          if pos == 0 {
            StandardDecodes(rest, 1, d, 0, out);
          } else if pos == 1 {
            StandardDecodes(rest, 2, d % 16, 0, out + [left * 4 + d / 16]);
          } else if pos == 2 {
            StandardDecodes(rest, 3, d % 4, 0, out + [left * 16 + d / 4]);
          } else {
            StandardDecodes(rest, 0, 0, 0, out + [left * 64 + d]);
          }
      }
    }
  }
}
